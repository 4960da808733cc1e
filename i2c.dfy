/** The two-wire bus as the three scripts use it: every transaction they issue is
    recorded, in order, in an append-only log, and the sensor's answers are taken
    from a scripted stream of bytes. Nothing here simulates the sensor. */
module I2C {

  /** One byte on the wire. */
  type Byte = b: int | 0 <= b < 256

  /** One transaction with the sensor at its fixed bus address. */
  datatype Transaction =
    | Write(data: seq<Byte>)                        // writeto
    | WriteRead(data: seq<Byte>, reply: seq<Byte>)  // writeto_then_readfrom, with the bytes read back

  /** The bus handle. `script` holds the bytes the sensor will still answer with;
      a read consumes as many of them as its buffer is long. */
  class Bus {
    var log: seq<Transaction>
    var script: seq<Byte>
    var locked: bool

    constructor (responses: seq<Byte>)
      ensures log == [] && script == responses && !locked
    {
      log := [];
      script := responses;
      locked := false;
    }

    /** Takes the bus lock (the scripts spin on try_lock until it succeeds). */
    method Lock()
      requires !locked
      modifies this`locked
      ensures locked
    {
      locked := true;
    }

    /** Gives the bus lock back. */
    method Unlock()
      modifies this`locked
      ensures !locked
    {
      locked := false;
    }

    /** Sends `data`; nothing is read back. */
    method WriteTo(data: seq<Byte>)
      requires locked
      modifies this`log
      ensures log == old(log) + [Write(data)]
    {
      log := log + [Write(data)];
    }

    /** Sends `data`, then fills `buf` with the sensor's next `buf.Length` bytes.
        Fails, changing nothing, when the scripted answers have run out. */
    method WriteThenReadFrom(data: seq<Byte>, buf: array<Byte>) returns (ok: bool)
      requires locked
      modifies this`log, this`script, buf
      ensures ok <==> buf.Length <= |old(script)|
      ensures ok ==>
                buf[..] == old(script)[..buf.Length] &&
                script == old(script)[buf.Length..] &&
                log == old(log) + [WriteRead(data, buf[..])]
      ensures !ok ==> script == old(script) && log == old(log) && buf[..] == old(buf[..])
    {
      if |script| < buf.Length {
        return false;
      }
      forall i | 0 <= i < buf.Length {
        buf[i] := script[i];
      }
      assert buf[..] == script[..buf.Length];
      script := script[buf.Length..];
      log := log + [WriteRead(data, buf[..])];
      ok := true;
    }
  }
}

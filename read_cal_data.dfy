/** tmf8806_read_cal_data.py: bring the sensor up, run its factory calibration,
    read the 14 calibration bytes at register 0x20 and print them as one line of
    comma-separated two-digit hex fields, to be pasted into the `cal_data` list of
    the basic example (which sends them, after the register byte 0x20, in
    load_cal). */
module ReadCalData {
  import opened I2C
  import opened Tmf8806

  datatype Option<T> = None | Some(value: T)

  /** The register polled for the end of the calibration. */
  const REG_CONTENTS_REG: Byte := 0x1E
  /** The value at REG_CONTENTS_REG that ends the wait. */
  const CAL_DONE: Byte := 0x0A
  /** The command that starts the factory calibration. */
  const START_CAL: seq<Byte> := [0x06, 0x00, 0x00, 0x00, 0x02, 0x00, 0x00, 0x00, 0x64, 0x00, 0xA0, 0x0A]
  /** The script's global `result` buffer: 14 bytes, all 0 at start. */
  const PAYLOAD_LENGTH: nat := 14
  const BLANK: seq<Byte> := [0, 0, 0, 0, 0, 0, 0, 0, 0, 0, 0, 0, 0, 0]

  // ---------------------------------------------------------------------------
  // The bus traffic

  /** start_calibration: send START_CAL, read 14 bytes from 0x1E into the buffer
      holding `buf`, and read again until the first byte is 0x0A. */
  function Calibration(buf: seq<Byte>, script: seq<Byte>): (r: Outcome)
    requires |buf| == PAYLOAD_LENGTH
    ensures |r.buf| == PAYLOAD_LENGTH
    ensures r.ok ==> r.buf[0] == CAL_DONE
    ensures !r.ok ==> |r.rest| < PAYLOAD_LENGTH
  {
    var wait := ReadThenPoll([REG_CONTENTS_REG], [REG_CONTENTS_REG], CAL_DONE, buf, script);
    Then(Outcome(true, [Write(START_CAL)], script, buf), wait)
  }

  /** A 14-byte read of REG_CONTENTS_REG whose first byte was 0x0A. */
  predicate CalDone(x: Transaction)
  {
    IsRead(x, [REG_CONTENTS_REG], PAYLOAD_LENGTH) && x.reply[0] == CAL_DONE
  }

  /** Calibration's transactions: START_CAL, then 14-byte reads of 0x1E of which
      none but the last answered 0x0A first; completed, it ends on the read that
      did and leaves that answer in the buffer; failed, fewer than 14 answers
      are left. */
  lemma CalibrationTrace(buf: seq<Byte>, script: seq<Byte>)
    requires |buf| == PAYLOAD_LENGTH
    ensures var r := Calibration(buf, script); var t := r.trace;
      && t != [] && t[0] == Write(START_CAL)
      && (forall i | 1 <= i < |t| :: IsRead(t[i], [REG_CONTENTS_REG], PAYLOAD_LENGTH))
      && (forall i | 1 <= i < |t| - 1 :: !Hit(t[i], CAL_DONE))
      && (r.ok ==> |t| >= 2 && CalDone(t[|t| - 1]) && t[|t| - 1].reply == r.buf)
      && (!r.ok ==> |r.rest| < PAYLOAD_LENGTH)
  {
    var wait := ReadThenPoll([REG_CONTENTS_REG], [REG_CONTENTS_REG], CAL_DONE, buf, script);
    ReadThenPollTrace([REG_CONTENTS_REG], [REG_CONTENTS_REG], CAL_DONE, buf, script);
    var t := [Write(START_CAL)] + wait.trace;
    assert forall i | 1 <= i < |t| :: t[i] == wait.trace[i - 1];
  }

  /** What the main block does after the bring-up: start_calibration, then one
      read of the 14 calibration bytes at 0x20 into the same buffer. */
  function CalibrateAndRead(buf: seq<Byte>, script: seq<Byte>): (r: Outcome)
    requires |buf| == PAYLOAD_LENGTH
    ensures |r.buf| == PAYLOAD_LENGTH
    ensures r.ok ==> Calibration(buf, script).ok
    ensures !r.ok ==> |r.rest| < PAYLOAD_LENGTH
  {
    var cal := Calibration(buf, script);
    if !cal.ok then cal
    else Then(cal, Read([FACTORY_CAL_REG], cal.buf, cal.rest))
  }

  /** CalibrateAndRead's trace cut into the calibration `c` and the read at 0x20
      `f`, which is there only after a completed calibration and is the read
      whose answer is returned. */
  lemma CalibrateAndReadTrace(buf: seq<Byte>, script: seq<Byte>) returns (c: seq<Transaction>, f: seq<Transaction>)
    requires |buf| == PAYLOAD_LENGTH
    ensures var r := CalibrateAndRead(buf, script);
      && r.trace == c + f
      && c != [] && c[0] == Write(START_CAL)
      && (forall i | 1 <= i < |c| :: IsRead(c[i], [REG_CONTENTS_REG], PAYLOAD_LENGTH))
      && (f != [] ==> |c| >= 2 && CalDone(c[|c| - 1]))
      && |f| <= 1 && (f != [] ==> IsRead(f[0], [FACTORY_CAL_REG], PAYLOAD_LENGTH))
      && (r.ok ==> f == [WriteRead([FACTORY_CAL_REG], r.buf)] && |r.buf| == PAYLOAD_LENGTH)
      && (!r.ok ==> |r.rest| < PAYLOAD_LENGTH)
  {
    var cal := Calibration(buf, script);
    CalibrationTrace(buf, script);
    c := cal.trace;
    f := if cal.ok then Read([FACTORY_CAL_REG], cal.buf, cal.rest).trace else [];
  }

  /** The main block after a bring-up that ended as `up`: only if it completed,
      CalibrateAndRead on the global 14-byte buffer, still all zeros. */
  function Finish(up: Outcome): (r: Outcome)
    ensures StartsWith(r.trace, up.trace)
    ensures r.ok ==> up.ok && |r.buf| == PAYLOAD_LENGTH
    ensures up.ok && !r.ok ==> |r.rest| < PAYLOAD_LENGTH
  {
    if !up.ok then up else Then(up, CalibrateAndRead(BLANK, up.rest))
  }

  /** The main block: bring-up (through its own one-byte buffer), then Finish. */
  function Capture(script: seq<Byte>): (r: Outcome)
    ensures StartsWith(r.trace, BringUp(script).trace)
    ensures r.ok ==> BringUp(script).ok && |r.buf| == PAYLOAD_LENGTH
    ensures !r.ok ==> |r.rest| < PAYLOAD_LENGTH
  {
    Finish(BringUp(script))
  }

  /** The only plain write is START_CAL, and it comes right after the 0xC0 echo
      that ends a bring-up. */
  predicate StartCalOnlyAfterApp(t: seq<Transaction>)
  {
    forall i | 0 <= i < |t| && t[i].Write? :: t[i] == Write(START_CAL) && 0 < i && AppRunning(t[i - 1])
  }

  /** The calibration bytes at 0x20 are read at most once, as the last
      transaction, right after a read of 0x1E that answered 0x0A. */
  predicate PayloadReadLast(t: seq<Transaction>)
  {
    forall i | 0 <= i < |t| && IsResultRead(t[i], FACTORY_CAL_REG) :: i == |t| - 1 && 0 < i && CalDone(t[i - 1])
  }

  /** The transactions of the main block joined from its parts: `a` the
      bring-up, `c` the calibration, `f` the read at 0x20. */
  lemma PartsInOrder(a: seq<Transaction>, c: seq<Transaction>, f: seq<Transaction>)
    requires forall i | 0 <= i < |a| :: OneByteRead(a[i])
    requires c != [] ==> a != [] && AppRunning(a[|a| - 1])
    requires c != [] ==> c[0] == Write(START_CAL)
    requires forall i | 1 <= i < |c| :: IsRead(c[i], [REG_CONTENTS_REG], PAYLOAD_LENGTH)
    requires f != [] ==> |c| >= 2 && CalDone(c[|c| - 1])
    requires |f| <= 1 && (f != [] ==> IsRead(f[0], [FACTORY_CAL_REG], PAYLOAD_LENGTH))
    ensures StartCalOnlyAfterApp(a + (c + f)) && PayloadReadLast(a + (c + f))
  {
    var t := a + (c + f);
    var na, nc := |a|, |c|;
    forall i | 0 <= i < |t|
      ensures t[i].Write? ==> t[i] == Write(START_CAL) && 0 < i && AppRunning(t[i - 1])
      ensures IsResultRead(t[i], FACTORY_CAL_REG) ==> i == |t| - 1 && 0 < i && CalDone(t[i - 1])
    {
      if i < na {
        assert t[i] == a[i];
      } else if i < na + nc {
        assert t[i] == c[i - na];
        if i == na {
          assert t[i - 1] == a[na - 1];
        }
      } else {
        assert t[i] == f[i - na - nc];
        assert t[i - 1] == c[nc - 1];
      }
    }
  }

  /** What the main block does on the bus after a bring-up made only one-byte
      reads and, completed, ended on the 0xC0 echo (see BringUpOrder): START_CAL
      is the only plain write and comes right after that echo; the calibration
      bytes at 0x20 are read once at most, as the last transaction, right after a
      read of 0x1E answered 0x0A; a completed run returns the 14 bytes that read
      got; a run that stopped early ran out of answers. */
  lemma FinishOrder(up: Outcome)
    requires forall i | 0 <= i < |up.trace| :: OneByteRead(up.trace[i])
    requires up.ok ==> up.trace != [] && AppRunning(up.trace[|up.trace| - 1])
    requires !up.ok ==> |up.rest| < PAYLOAD_LENGTH
    ensures var r := Finish(up); var t := r.trace;
      && StartCalOnlyAfterApp(t) && PayloadReadLast(t)
      && (r.ok ==> t != [] && t[|t| - 1] == WriteRead([FACTORY_CAL_REG], r.buf) && |r.buf| == PAYLOAD_LENGTH)
      && (!r.ok ==> |r.rest| < PAYLOAD_LENGTH)
  {
    if up.ok {
      var c, f := CalibrateAndReadTrace(BLANK, up.rest);
      PartsInOrder(up.trace, c, f);
    } else {
      PartsInOrder(up.trace, [], []);
      assert up.trace + ([] + []) == up.trace;
    }
  }

  /** CaptureOrder: FinishOrder for every answer script. */
  lemma CaptureOrder(script: seq<Byte>)
    ensures var r := Capture(script); var t := r.trace;
      && StartCalOnlyAfterApp(t) && PayloadReadLast(t)
      && (r.ok ==> t != [] && t[|t| - 1] == WriteRead([FACTORY_CAL_REG], r.buf) && |r.buf| == PAYLOAD_LENGTH)
      && (!r.ok ==> |r.rest| < PAYLOAD_LENGTH)
  {
    BringUpOrder(script);
    FinishOrder(BringUp(script));
  }

  /** start_calibration on the global buffer. */
  method StartCalibration(bus: Bus, result: array<Byte>) returns (ok: bool)
    requires bus.locked && result.Length == PAYLOAD_LENGTH
    modifies bus`log, bus`script, result
    ensures var r := Calibration(old(result[..]), old(bus.script));
      ok == r.ok && bus.log == old(bus.log) + r.trace && bus.script == r.rest && result[..] == r.buf
  {
    bus.WriteTo(START_CAL);
    ok := ReadThenPollUntil(bus, [REG_CONTENTS_REG], [REG_CONTENTS_REG], CAL_DONE, result);
  }

  /** start_calibration, then the read of the calibration bytes at 0x20 into the
      same buffer; `payload` is what that read got. */
  method CalibrateAndFetch(bus: Bus, result: array<Byte>) returns (ok: bool, payload: seq<Byte>)
    requires bus.locked && result.Length == PAYLOAD_LENGTH
    modifies bus`log, bus`script, result
    ensures var r := CalibrateAndRead(old(result[..]), old(bus.script));
      && ok == r.ok && bus.log == old(bus.log) + r.trace && bus.script == r.rest
      && result[..] == r.buf && (ok ==> payload == r.buf)
  {
    ghost var cal := Calibration(result[..], bus.script);
    payload := [];
    ok := StartCalibration(bus, result);
    if ok {
      ghost var fin := Read([FACTORY_CAL_REG], cal.buf, cal.rest);
      ok := bus.WriteThenReadFrom([FACTORY_CAL_REG], result);
      payload := result[..];
    }
  }

  /** The script's main block: the printed line is returned. The global buffer
      is untouched by the bring-up, so the calibration starts on 14 zero bytes. */
  method Run(responses: seq<Byte>) returns (bus: Bus, ok: bool, line: string)
    ensures fresh(bus) && !bus.locked
    ensures var r := Capture(responses);
      && ok == r.ok && bus.log == r.trace && bus.script == r.rest
      && (ok ==> line == HexLine(r.buf))
      && (!ok ==> line == "")
  {
    bus := new Bus(responses);
    var result := new Byte[PAYLOAD_LENGTH](_ => 0);
    assert result[..] == BLANK;
    bus.Lock();
    line := "";
    ghost var up := BringUp(responses);
    ok := EnableTmf8806(bus);
    assert bus.log == up.trace;
    if ok {
      ghost var after := CalibrateAndRead(BLANK, up.rest);
      var payload;
      ok, payload := CalibrateAndFetch(bus, result);
      assert bus.log == up.trace + after.trace;
      if ok {
        line := HexLine(payload);
      }
    }
    bus.Unlock();
  }

  // ---------------------------------------------------------------------------
  // The printed line: ','.join(f'{byte:02X}' for byte in result)

  /** The upper-case hex digit of `d`. */
  function HexChar(d: int): (c: char)
    requires 0 <= d < 16
    ensures IsHexDigit(c)
  {
    if d < 10 then ('0' as int + d) as char else ('A' as int + d - 10) as char
  }

  predicate IsHexDigit(c: char)
  {
    '0' <= c <= '9' || 'A' <= c <= 'F'
  }

  /** The value of an upper-case hex digit. */
  function DigitValue(c: char): (v: Option<int>)
    ensures v.Some? <==> IsHexDigit(c)
    ensures v.Some? ==> 0 <= v.value < 16 && HexChar(v.value) == c
  {
    if '0' <= c <= '9' then Some(c as int - '0' as int)
    else if 'A' <= c <= 'F' then Some(c as int - 'A' as int + 10)
    else None
  }

  /** `f'{b:02X}'`: two upper-case hex digits, high nibble first. */
  function Hex2(b: Byte): (s: string)
    ensures |s| == 2 && IsHexDigit(s[0]) && IsHexDigit(s[1])
    ensures DigitValue(s[0]).Some? && DigitValue(s[1]).Some?
    ensures 16 * DigitValue(s[0]).value + DigitValue(s[1]).value == b
  {
    [HexChar(b / 16), HexChar(b % 16)]
  }

  /** The bytes' fields joined by commas. */
  function HexLine(bs: seq<Byte>): (s: string)
    ensures |s| == if bs == [] then 0 else 3 * |bs| - 1
    decreases |bs|
  {
    if |bs| == 0 then ""
    else if |bs| == 1 then Hex2(bs[0])
    else Hex2(bs[0]) + "," + HexLine(bs[1..])
  }

  /** Reads a printed line back: two hex digits per field, fields separated by
      single commas, nothing else. */
  function ParseHexLine(s: string): Option<seq<Byte>>
    decreases |s|
  {
    if |s| < 2 then None
    else
      var hi, lo := DigitValue(s[0]), DigitValue(s[1]);
      if hi.None? || lo.None? then None
      else
        var b: Byte := 16 * hi.value + lo.value;
        if |s| == 2 then Some([b])
        else if s[2] != ',' then None
        else match ParseHexLine(s[3..])
          case None => None
          case Some(rest) => Some([b] + rest)
  }

  /** Parsing a printed line gives back the bytes that were printed. */
  lemma {:induction false} HexLineRoundTrip(bs: seq<Byte>)
    requires |bs| > 0
    ensures ParseHexLine(HexLine(bs)) == Some(bs)
    decreases |bs|
  {
    var h := Hex2(bs[0]);
    if |bs| == 1 {
      assert [bs[0]] == bs;
    } else {
      var s := HexLine(bs);
      var tail := bs[1..];
      var t := HexLine(tail);
      HexLineRoundTrip(tail);
      assert s == h + "," + t;
      assert s[0] == h[0] && s[1] == h[1] && s[2] == ',';
      assert s[3..] == t;
      assert [bs[0]] + tail == bs;
    }
  }

  /** The printed line of n bytes has 3n - 1 characters, and the commas are
      exactly the characters at 3k + 2. */
  lemma {:induction false} HexLineCommas(bs: seq<Byte>)
    requires |bs| > 0
    ensures var s := HexLine(bs);
      && |s| == 3 * |bs| - 1
      && (forall i | 0 <= i < |s| :: (s[i] == ',') <==> i % 3 == 2)
    decreases |bs|
  {
    var s := HexLine(bs);
    if |bs| > 1 {
      var tail := HexLine(bs[1..]);
      HexLineCommas(bs[1..]);
      assert s == Hex2(bs[0]) + "," + tail;
      forall i | 3 <= i < |s|
        ensures s[i] == tail[i - 3]
      {
      }
    }
  }

  /** Field k of the printed line, at 3k and 3k + 1, is byte k's two digits. */
  lemma {:induction false} HexLineFields(bs: seq<Byte>)
    requires |bs| > 0
    ensures var s := HexLine(bs);
      && |s| == 3 * |bs| - 1
      && (forall k | 0 <= k < |bs| :: s[3 * k..3 * k + 2] == Hex2(bs[k]))
    decreases |bs|
  {
    var s := HexLine(bs);
    if |bs| > 1 {
      var tail := HexLine(bs[1..]);
      HexLineFields(bs[1..]);
      assert s == Hex2(bs[0]) + "," + tail;
      forall k | 1 <= k < |bs|
        ensures s[3 * k..3 * k + 2] == Hex2(bs[k])
      {
        assert s[3 * k..3 * k + 2] == tail[3 * (k - 1)..3 * (k - 1) + 2];
        assert bs[k] == bs[1..][k - 1];
      }
    }
  }

  /** A captured payload prints as a 41-character line that reads back to the
      same 14 bytes, and the register byte 0x20 followed by them has the shape of
      the basic example's CAL_DATA, which starts with that register byte. */
  lemma PayloadFeedsLoadCal(payload: seq<Byte>)
    requires |payload| == PAYLOAD_LENGTH
    ensures |HexLine(payload)| == 41
    ensures ParseHexLine(HexLine(payload)) == Some(payload)
    ensures |[FACTORY_CAL_REG] + payload| == |CAL_DATA| && CAL_DATA[0] == FACTORY_CAL_REG
  {
    HexLineCommas(payload);
    HexLineRoundTrip(payload);
  }
}

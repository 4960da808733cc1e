/** tmf8806_basic_example.py: bring the sensor up, load its calibration, start
    continuous measurements, then for every "result ready" read the 7-byte
    result block at register 0x1D and report its transaction id, distance and
    confidence. */
module BasicExample {
  import opened I2C
  import opened Tmf8806

  /** What the script prints for one result block. */
  datatype Measurement = Measurement(tid: Byte, distance: int, confidence: Byte)

  /** The fields the script prints: the transaction id is byte 2, the confidence
      byte 4, and the distance joins bytes 5 and 6 with Combine. */
  function Decode(block: seq<Byte>): (m: Measurement)
    requires |block| == 7
    ensures m.tid == block[2] && m.confidence == block[4]
    ensures m.distance == Combine(block[5], block[6]) && 0 <= m.distance <= 65280
  {
    Measurement(block[2], Combine(block[5], block[6]), block[4])
  }

  /** A result block that decodes to `m`: every transaction id, confidence and
      distance up to 65280 can be reported. */
  function BlockFor(m: Measurement): (block: seq<Byte>)
    requires 0 <= m.distance <= 65280
    ensures |block| == 7 && Decode(block) == m
  {
    var p := PairFor(m.distance);
    [0, 0, m.tid, 0, m.confidence, p.0, p.1]
  }

  /** `ms` reports the blocks `blocks`, one for one, in order. */
  predicate DecodesAll(ms: seq<Measurement>, blocks: seq<seq<Byte>>)
  {
    |ms| == |blocks| && forall k | 0 <= k < |blocks| :: |blocks[k]| == 7 && ms[k] == Decode(blocks[k])
  }

  /** Reporting one more block is one more decoded measurement. */
  lemma DecodesAppend(ms: seq<Measurement>, blocks: seq<seq<Byte>>, block: seq<Byte>)
    requires DecodesAll(ms, blocks) && |block| == 7
    ensures DecodesAll(ms + [Decode(block)], blocks + [block])
  {
    assert forall k | 0 <= k < |blocks| :: (blocks + [block])[k] == blocks[k];
  }

  /** The script's main block, for `cycles` turns of its endless loop, with the
      sensor answering from `responses`: on the bus it does exactly what
      Measuring says, and it reports every result block that log holds, in
      order. It stops early only when the answers run out, and unlocks the bus
      on every path. */
  method Run(responses: seq<Byte>, cycles: nat) returns (bus: Bus, ok: bool, measurements: seq<Measurement>)
    ensures fresh(bus) && !bus.locked
    ensures var r := Measuring(STAT_REG, cycles, responses);
      ok == r.ok && bus.log == r.log && bus.script == r.rest
    ensures DecodesAll(measurements, Replies(bus.log, STAT_REG))
    ensures |measurements| <= cycles && (ok ==> |measurements| == cycles)
    ensures WritesOnlyAfterAppRunning(bus.log) && ResultReadsGuarded(bus.log, STAT_REG)
  {
    bus := new Bus(responses);
    var result := new Byte[7](_ => 0);
    var intStatResult := new Byte[1](_ => 0);
    assert intStatResult[..] == [0];
    assert result[..] == RESULT_ZEROS;
    bus.Lock();
    measurements := [];
    ok := BeginMeasurements(bus, intStatResult);
    ghost var c := Started(responses);
    assert Progress(ok, bus.log, bus.script, intStatResult[..], result[..]) == c;
    if ok {
      ok, measurements := Measure(bus, cycles, intStatResult, result);
    } else {
      TurnsStop(cycles, STAT_REG, c);
    }
    ghost var r := Turns(cycles, STAT_REG, c);
    assert ok == r.ok && bus.log == r.log && bus.script == r.rest && DecodesAll(measurements, Reads(cycles, STAT_REG, c));
    MeasuringOrder(STAT_REG, cycles, responses);
    bus.Unlock();
  }

  /** The endless loop of the main block, for `cycles` turns: wait for "result
      ready", clear it, read the result block at 0x1D, report it, and read the
      interrupt status again for the next turn. On the bus that is exactly
      `cycles` turns, as Turns says, and the report decodes, in order, every
      block those turns read. */
  method Measure(bus: Bus, cycles: nat, intStat: array<Byte>, result: array<Byte>) returns (ok: bool, measurements: seq<Measurement>)
    requires bus.locked && intStat.Length == 1 && result.Length == 7
    modifies bus`log, bus`script, intStat, result
    ensures var c := Progress(true, old(bus.log), old(bus.script), old(intStat[..]), old(result[..]));
      var r := Turns(cycles, STAT_REG, c);
      && ok == r.ok && bus.log == r.log && bus.script == r.rest && intStat[..] == r.status && result[..] == r.block
      && DecodesAll(measurements, Reads(cycles, STAT_REG, c))
  {
    ok := true;
    measurements := [];
    ghost var c0 := Progress(true, bus.log, bus.script, intStat[..], result[..]);
    ghost var cur := c0;
    ghost var blocks: seq<seq<Byte>> := [];
    ghost var left: nat := cycles;
    var n := 0;
    while n < cycles && ok
      invariant n + left == cycles
      invariant cur == Progress(ok, bus.log, bus.script, intStat[..], result[..])
      invariant Turns(left, STAT_REG, cur) == Turns(cycles, STAT_REG, c0)
      invariant blocks + Reads(left, STAT_REG, cur) == Reads(cycles, STAT_REG, c0)
      invariant DecodesAll(measurements, blocks)
    {
      ghost var j: nat := left - 1;
      TurnsAdvance(left, j, STAT_REG, cur, blocks);
      var read;
      read, ok := NextResult(bus, STAT_REG, intStat, result);
      if read {
        DecodesAppend(measurements, blocks, result[..]);
        measurements := measurements + [Decode(result[..])];
        blocks := blocks + [result[..]];
      } else {
        JoinAssoc(blocks, [], []);
      }
      cur := Progress(ok, bus.log, bus.script, intStat[..], result[..]);
      n, left := n + 1, j;
    }
    TurnsStop(left, STAT_REG, cur);
    JoinAssoc(blocks, [], []);
  }
}

/** tmf8806_read_xtalk.py: bring the sensor up, load its calibration, start
    measurements, read the 7-byte crosstalk block at register 0x3C for each of
    100 "result ready" interrupts, and report the least, the greatest and the
    rounded mean of the 100 crosstalk values. */
module ReadXtalk {
  import opened I2C
  import opened Tmf8806

  /** The register whose block starts with the crosstalk value. */
  const XTALK_REG: Byte := 0x3C
  const NUMBER_OF_MEASUREMENTS: nat := 100
  /** The starting values of the running minimum and maximum. */
  const XTALK_MIN_START: int := 1000000
  const XTALK_MAX_START: int := 0

  /** The crosstalk value of a block: bytes 0 and 1 joined with Combine. */
  function Sample(block: seq<Byte>): (v: int)
    requires |block| >= 2
    ensures 0 <= v <= 65280
  {
    Combine(block[0], block[1])
  }

  /** Every block holds at least the two crosstalk bytes. */
  predicate Wide(blocks: seq<seq<Byte>>)
  {
    forall k | 0 <= k < |blocks| :: |blocks[k]| >= 2
  }

  /** The three variables the loop keeps: `xtalk_min`, `xtalk_max`, and the
      running total the script keeps in `xtalk_avg`. */
  datatype Stats = Stats(min: int, max: int, sum: int)

  /** Their values before the loop. */
  const START: Stats := Stats(XTALK_MIN_START, XTALK_MAX_START, 0)

  /** One turn of the loop body on the crosstalk value `x`: a lower value
      becomes the minimum, a higher one the maximum, and every value is added
      to the total. */
  function Update(st: Stats, x: int): (r: Stats)
    ensures r.min <= st.min && r.min <= x && (r.min == st.min || r.min == x)
    ensures r.max >= st.max && r.max >= x && (r.max == st.max || r.max == x)
    ensures r.sum == st.sum + x
  {
    Stats(if x < st.min then x else st.min, if x > st.max then x else st.max, st.sum + x)
  }

  /** The three variables after the loop has seen `blocks`, in order. */
  function StatsOf(blocks: seq<seq<Byte>>): (st: Stats)
    requires Wide(blocks)
    ensures 0 <= st.min <= XTALK_MIN_START && XTALK_MAX_START <= st.max <= 65280
    ensures 0 <= st.sum <= 65280 * |blocks|
    decreases |blocks|
  {
    if blocks == [] then START
    else Update(StatsOf(blocks[..|blocks| - 1]), Sample(blocks[|blocks| - 1]))
  }

  /** Seeing one more block is one more Update (a helper for the loop). */
  lemma StatsAppend(blocks: seq<seq<Byte>>, block: seq<Byte>)
    requires Wide(blocks) && |block| >= 2
    ensures Wide(blocks + [block])
    ensures StatsOf(blocks + [block]) == Update(StatsOf(blocks), Sample(block))
  {
    assert (blocks + [block])[..|blocks|] == blocks;
  }

  /** After at least one block the minimum is the crosstalk value of some block
      and no block's value is lower: the start value 1000000 lies above every
      value Combine can give, so it never survives. */
  lemma {:induction false} MinIsLeast(blocks: seq<seq<Byte>>)
    requires |blocks| > 0 && Wide(blocks)
    ensures exists k | 0 <= k < |blocks| :: Sample(blocks[k]) == StatsOf(blocks).min
    ensures forall k | 0 <= k < |blocks| :: StatsOf(blocks).min <= Sample(blocks[k])
    decreases |blocks|
  {
    var init := blocks[..|blocks| - 1];
    var last := |blocks| - 1;
    if init == [] {
      assert Sample(blocks[0]) == StatsOf(blocks).min;
    } else {
      MinIsLeast(init);
      var k :| 0 <= k < |init| && Sample(init[k]) == StatsOf(init).min;
      assert blocks[k] == init[k];
      forall i | 0 <= i < |blocks|
        ensures StatsOf(blocks).min <= Sample(blocks[i])
      {
        if i < last {
          assert blocks[i] == init[i];
        }
      }
    }
  }

  /** After at least one block the maximum is the crosstalk value of some block
      and no block's value is higher: the start value 0 is the least value
      Combine can give, so it survives only when some block gave it. */
  lemma {:induction false} MaxIsGreatest(blocks: seq<seq<Byte>>)
    requires |blocks| > 0 && Wide(blocks)
    ensures exists k | 0 <= k < |blocks| :: Sample(blocks[k]) == StatsOf(blocks).max
    ensures forall k | 0 <= k < |blocks| :: Sample(blocks[k]) <= StatsOf(blocks).max
    decreases |blocks|
  {
    var init := blocks[..|blocks| - 1];
    var last := |blocks| - 1;
    if init == [] {
      assert Sample(blocks[0]) == StatsOf(blocks).max;
    } else {
      MaxIsGreatest(init);
      var k :| 0 <= k < |init| && Sample(init[k]) == StatsOf(init).max;
      assert blocks[k] == init[k];
      forall i | 0 <= i < |blocks|
        ensures Sample(blocks[i]) <= StatsOf(blocks).max
      {
        if i < last {
          assert blocks[i] == init[i];
        }
      }
    }
  }

  /** (n + 1) * v == n * v + v. */
  lemma MulSucc(n: int, v: int)
    ensures (n + 1) * v == n * v + v
  {
  }

  /** A total of values between `lo` and `hi` lies between `|blocks| * lo` and
      `|blocks| * hi`. */
  lemma {:induction false} SumBounds(blocks: seq<seq<Byte>>, lo: int, hi: int)
    requires Wide(blocks)
    requires forall k | 0 <= k < |blocks| :: lo <= Sample(blocks[k]) <= hi
    ensures |blocks| * lo <= StatsOf(blocks).sum <= |blocks| * hi
    decreases |blocks|
  {
    if blocks != [] {
      var init := blocks[..|blocks| - 1];
      var n := |init|;
      assert forall k | 0 <= k < n :: init[k] == blocks[k];
      SumBounds(init, lo, hi);
      MulSucc(n, lo);
      MulSucc(n, hi);
    }
  }

  /** Python's round() of n / 100: the nearest whole number, and on a tie the
      even one. The script divides its total by NUMBER_OF_MEASUREMENTS, which
      is 100. */
  function RoundHalfEven(n: int): (q: int)
    ensures 2 * (n - 100 * q) <= 100 && 2 * (100 * q - n) <= 100
    ensures 2 * (n - 100 * q) == 100 ==> q % 2 == 0
    ensures 2 * (100 * q - n) == 100 ==> q % 2 == 0
  {
    var q := n / 100;
    var r := n % 100;
    if 2 * r < 100 then q
    else if 2 * r > 100 then q + 1
    else if q % 2 == 0 then q
    else q + 1
  }

  /** Rounding a quotient that lies between two whole numbers keeps it between
      them. */
  lemma RoundBetween(n: int, lo: int, hi: int)
    requires 100 * lo <= n <= 100 * hi
    ensures lo <= RoundHalfEven(n) <= hi
  {
  }

  /** What the script prints after a completed loop over the 100 blocks it read:
      the least and greatest crosstalk value, each taken by some block, and the
      rounded mean, which lies between them. */
  lemma Completed(blocks: seq<seq<Byte>>)
    requires |blocks| == NUMBER_OF_MEASUREMENTS && Wide(blocks)
    ensures var st := StatsOf(blocks);
      && (forall k | 0 <= k < |blocks| :: st.min <= Sample(blocks[k]) <= st.max)
      && (exists k | 0 <= k < |blocks| :: Sample(blocks[k]) == st.min)
      && (exists k | 0 <= k < |blocks| :: Sample(blocks[k]) == st.max)
      && st.min <= RoundHalfEven(st.sum) <= st.max
  {
    var st := StatsOf(blocks);
    MinIsLeast(blocks);
    MaxIsGreatest(blocks);
    SumBounds(blocks, st.min, st.max);
    RoundBetween(st.sum, st.min, st.max);
  }

  /** The script's main block: Setup, then the 100 turns of the measuring
      loop, exactly as Measuring says; the bus is unlocked on every path. It
      reports the least and greatest crosstalk value of the blocks that log
      holds, and the rounded mean of their total; a completed run has read
      exactly 100 of them, and its mean lies between the least and the
      greatest. */
  method Run(responses: seq<Byte>) returns (bus: Bus, ok: bool, xtalkMin: int, xtalkMax: int, average: int)
    ensures fresh(bus) && !bus.locked
    ensures var r := Measuring(XTALK_REG, NUMBER_OF_MEASUREMENTS, responses);
      ok == r.ok && bus.log == r.log && bus.script == r.rest
    ensures WritesOnlyAfterAppRunning(bus.log) && ResultReadsGuarded(bus.log, XTALK_REG)
    ensures Wide(Replies(bus.log, XTALK_REG))
    ensures var st := StatsOf(Replies(bus.log, XTALK_REG));
      xtalkMin == st.min && xtalkMax == st.max && average == RoundHalfEven(st.sum)
    ensures |Replies(bus.log, XTALK_REG)| <= NUMBER_OF_MEASUREMENTS
    ensures ok ==> |Replies(bus.log, XTALK_REG)| == NUMBER_OF_MEASUREMENTS && xtalkMin <= average <= xtalkMax
  {
    bus := new Bus(responses);
    var result := new Byte[7](_ => 0);
    var intStatResult := new Byte[1](_ => 0);
    assert intStatResult[..] == [0];
    assert result[..] == RESULT_ZEROS;
    bus.Lock();
    var xtalkSum := 0;
    xtalkMin, xtalkMax := XTALK_MIN_START, XTALK_MAX_START;
    ok := BeginMeasurements(bus, intStatResult);
    ghost var c := Started(responses);
    assert Progress(ok, bus.log, bus.script, intStatResult[..], result[..]) == c;
    if ok {
      ok, xtalkMin, xtalkMax, xtalkSum := Measure(bus, NUMBER_OF_MEASUREMENTS, intStatResult, result);
    } else {
      TurnsStop(NUMBER_OF_MEASUREMENTS, XTALK_REG, c);
    }
    average := RoundHalfEven(xtalkSum);
    ghost var bs := Reads(NUMBER_OF_MEASUREMENTS, XTALK_REG, c);
    ReadsCount(NUMBER_OF_MEASUREMENTS, XTALK_REG, c);
    ghost var r := Turns(NUMBER_OF_MEASUREMENTS, XTALK_REG, c);
    assert ok == r.ok && bus.log == r.log && bus.script == r.rest && Wide(bs);
    assert xtalkMin == StatsOf(bs).min && xtalkMax == StatsOf(bs).max && xtalkSum == StatsOf(bs).sum;
    MeasuringOrder(XTALK_REG, NUMBER_OF_MEASUREMENTS, responses);
    if ok {
      Completed(bs);
    }
    bus.Unlock();
  }

  /** The script's `for` loop over `count` (number_of_measurements)
      measurements: wait for "result ready", clear it, read the block at 0x3C,
      fold its crosstalk value into the running minimum, maximum and total, and
      read the interrupt status again for the next turn. On the bus that is
      exactly `count` turns, as Turns says, and the three variables end as
      StatsOf the blocks those turns read. */
  method Measure(bus: Bus, count: nat, intStat: array<Byte>, result: array<Byte>) returns (ok: bool, xtalkMin: int, xtalkMax: int, xtalkSum: int)
    requires bus.locked && intStat.Length == 1 && result.Length == 7
    modifies bus`log, bus`script, intStat, result
    ensures var c := Progress(true, old(bus.log), old(bus.script), old(intStat[..]), old(result[..]));
      var r := Turns(count, XTALK_REG, c);
      && ok == r.ok && bus.log == r.log && bus.script == r.rest && intStat[..] == r.status && result[..] == r.block
    ensures var bs := Reads(count, XTALK_REG, Progress(true, old(bus.log), old(bus.script), old(intStat[..]), old(result[..])));
      Wide(bs) && xtalkMin == StatsOf(bs).min && xtalkMax == StatsOf(bs).max && xtalkSum == StatsOf(bs).sum
  {
    ok := true;
    xtalkMin, xtalkMax, xtalkSum := XTALK_MIN_START, XTALK_MAX_START, 0;
    ghost var c0 := Progress(true, bus.log, bus.script, intStat[..], result[..]);
    ghost var cur := c0;
    ghost var blocks: seq<seq<Byte>> := [];
    ghost var left: nat := count;
    for i := 0 to count
      invariant ok ==> i + left == count
      invariant cur == Progress(ok, bus.log, bus.script, intStat[..], result[..])
      invariant Turns(left, XTALK_REG, cur) == Turns(count, XTALK_REG, c0)
      invariant blocks + Reads(left, XTALK_REG, cur) == Reads(count, XTALK_REG, c0)
      invariant Wide(blocks)
      invariant Stats(xtalkMin, xtalkMax, xtalkSum) == StatsOf(blocks)
    {
      if !ok {
        break;
      }
      ghost var j: nat := left - 1;
      TurnsAdvance(left, j, XTALK_REG, cur, blocks);
      var read;
      read, ok := NextResult(bus, XTALK_REG, intStat, result);
      if read {
        var sample := Combine(result[0], result[1]);
        ghost var block := result[..];
        assert sample == Sample(block);
        StatsAppend(blocks, block);
        blocks := blocks + [block];
        var st := Update(Stats(xtalkMin, xtalkMax, xtalkSum), sample);
        xtalkMin, xtalkMax, xtalkSum := st.min, st.max, st.sum;
      } else {
        JoinAssoc(blocks, [], []);
      }
      cur := Progress(ok, bus.log, bus.script, intStat[..], result[..]);
      left := j;
    }
    TurnsStop(left, XTALK_REG, cur);
    JoinAssoc(blocks, [], []);
  }
}

/** The register-level protocol the three TMF8806 scripts share: the constants,
    a pure description of what each routine does on the bus given the sensor's
    answers, the methods that drive the bus, and the ordering facts proved about
    the transactions they issue. */
module Tmf8806 {
  import opened I2C

  // Values read from or written to registers.
  const BSL_SLEEP: Byte := 0x00
  const BSL_READY: Byte := 0x41
  const PON: Byte := 0x01
  const APP0: Byte := 0xC0
  const CLR_INT: Byte := 0x01
  const EN_INT: Byte := 0x01
  const RES_INT: Byte := 0x01

  // Register addresses.
  const APP_REQ_ID_REG: Byte := 0x02
  const STAT_REG: Byte := 0x1D
  const FACTORY_CAL_REG: Byte := 0x20
  const ENABLE_REG: Byte := 0xE0
  const INT_STAT_REG: Byte := 0xE1
  const INT_EN_REG: Byte := 0xE2

  /** Command string: register 0x06, ten configuration bytes, start opcode 0x02. */
  const START_MEASURE: seq<Byte> :=
    [0x06, 0x00, 0x00, 0x11, 0x02, 0x00, 0x00, 0x06, 0x1E, 0x84, 0x03, 0x02]

  /** Factory calibration block of one particular device, prefixed by its register. */
  const CAL_DATA: seq<Byte> :=
    [FACTORY_CAL_REG, 0x02, 0x00, 0x00, 0xF9, 0xCF, 0xE0, 0x3F, 0x7F, 0x03, 0x00, 0x40, 0x20, 0x00, 0x04]

  /** The interrupt-clear write, sent before each result read and once at start-up. */
  const CLEAR_INTERRUPT: Transaction := Write([INT_STAT_REG, CLR_INT])

  // ---------------------------------------------------------------------------
  // Transactions of interest

  /** A writeto_then_readfrom sending `data` into an `n`-byte buffer. */
  predicate IsRead(x: Transaction, data: seq<Byte>, n: nat)
  {
    x.WriteRead? && x.data == data && |x.reply| == n
  }

  /** A read that left `buf` in its buffer. */
  predicate Answered(x: Transaction, buf: seq<Byte>)
  {
    x.WriteRead? && x.reply == buf
  }

  /** A read whose first byte back is `target` (the scripts test only res[0]). */
  predicate Hit(x: Transaction, target: Byte)
  {
    x.WriteRead? && |x.reply| > 0 && x.reply[0] == target
  }

  /** The power-on message [0xE0, 0x01]. */
  predicate IsPowerOn(x: Transaction)
  {
    x.data == [ENABLE_REG, PON]
  }

  /** The application-select message [0x02, 0xC0]. */
  predicate IsAppSelect(x: Transaction)
  {
    x.data == [APP_REQ_ID_REG, APP0]
  }

  /** A one-byte read of the enable register that answered "sleeping". */
  predicate SawSleep(x: Transaction)
  {
    IsRead(x, [ENABLE_REG], 1) && x.reply[0] == BSL_SLEEP
  }

  /** A one-byte transaction on the enable register that answered "ready". */
  predicate SawReady(x: Transaction)
  {
    x.WriteRead? && |x.data| > 0 && x.data[0] == ENABLE_REG && |x.reply| == 1 && x.reply[0] == BSL_READY
  }

  /** A one-byte read of the app-request register that echoed 0xC0. */
  predicate AppRunning(x: Transaction)
  {
    IsRead(x, [APP_REQ_ID_REG], 1) && x.reply[0] == APP0
  }

  /** A read of the block at register `reg`. */
  predicate IsResultRead(x: Transaction, reg: Byte)
  {
    x.WriteRead? && x.data == [reg]
  }

  /** A read of the interrupt-status register whose whole byte was 0x01. */
  predicate StatusReady(x: Transaction)
  {
    x == WriteRead([INT_STAT_REG], [RES_INT])
  }

  // ---------------------------------------------------------------------------
  // What a routine does on the bus, as a function of the sensor's answers

  /** What a routine did: whether it completed, the transactions it issued, the
      answers left unread and the final contents of its buffer. A routine fails
      only when the sensor's scripted answers run out. */
  datatype Outcome = Outcome(ok: bool, trace: seq<Transaction>, rest: seq<Byte>, buf: seq<Byte>)

  /** `b`, run after the completed routine `a`. */
  function Then(a: Outcome, b: Outcome): Outcome
  {
    Outcome(b.ok, a.trace + b.trace, b.rest, b.buf)
  }

  /** One writeto_then_readfrom of `data` into a buffer currently holding `buf`. */
  function Read(data: seq<Byte>, buf: seq<Byte>, script: seq<Byte>): (r: Outcome)
    ensures r.ok <==> |buf| <= |script|
    ensures r.ok ==> r.trace == [WriteRead(data, r.buf)] && |r.buf| == |buf| && r.buf + r.rest == script
    ensures !r.ok ==> r.trace == [] && r.rest == script && r.buf == buf
  {
    if |script| < |buf| then Outcome(false, [], script, buf)
    else Outcome(true, [WriteRead(data, script[..|buf|])], script[|buf|..], script[..|buf|])
  }

  /** `while buf[0] != target: read(data, buf)`: the loop ends when the byte
      first in the buffer is `target`, and fails only for want of answers. */
  function Poll(data: seq<Byte>, target: Byte, buf: seq<Byte>, script: seq<Byte>): (r: Outcome)
    requires |buf| > 0
    ensures |r.buf| == |buf| && |r.rest| <= |script|
    ensures r.ok <==> r.buf[0] == target
    ensures !r.ok ==> |r.rest| < |buf|
    ensures r.trace == [] ==> r.buf == buf && r.rest == script
    decreases |script|
  {
    if buf[0] == target then Outcome(true, [], script, buf)
    else
      var r := Read(data, buf, script);
      if !r.ok then r else Then(r, Poll(data, target, r.buf, r.rest))
  }

  /** Poll's transactions are reads of `data` into a buffer of the same length;
      every one but the last missed `target`, and the last left the buffer as
      Poll returns it. */
  lemma {:induction false} PollTrace(data: seq<Byte>, target: Byte, buf: seq<Byte>, script: seq<Byte>)
    requires |buf| > 0
    ensures var r := Poll(data, target, buf, script);
      && (forall i | 0 <= i < |r.trace| :: IsRead(r.trace[i], data, |buf|))
      && (forall i | 0 <= i < |r.trace| - 1 :: !Hit(r.trace[i], target))
      && (r.trace != [] ==> Answered(r.trace[|r.trace| - 1], r.buf))
    decreases |script|
  {
    if buf[0] != target {
      var rd := Read(data, buf, script);
      if rd.ok {
        PollTrace(data, target, rd.buf, rd.rest);
        var p := Poll(data, target, rd.buf, rd.rest);
        var t := rd.trace + p.trace;
        forall i | 1 <= i < |t|
          ensures t[i] == p.trace[i - 1]
        {
        }
      }
    }
  }

  /** One read of `first`, then `while buf[0] != target: read(again, buf)`. */
  function ReadThenPoll(first: seq<Byte>, again: seq<Byte>, target: Byte, buf: seq<Byte>, script: seq<Byte>): (r: Outcome)
    requires |buf| > 0
    ensures |r.buf| == |buf| && |r.rest| <= |script|
    ensures r.ok ==> r.trace != [] && r.buf[0] == target
    ensures !r.ok ==> |r.rest| < |buf|
  {
    var r := Read(first, buf, script);
    if !r.ok then r else Then(r, Poll(again, target, r.buf, r.rest))
  }

  /** ReadThenPoll's transactions: a read of `first`, then reads of `again`, all
      into a buffer of the same length; none but the last hit `target` (none at
      all when it failed), and a completed run ends on the read that hit it. */
  lemma ReadThenPollTrace(first: seq<Byte>, again: seq<Byte>, target: Byte, buf: seq<Byte>, script: seq<Byte>)
    requires |buf| > 0
    ensures var r := ReadThenPoll(first, again, target, buf, script);
      && (forall i | 0 <= i < |r.trace| :: IsRead(r.trace[i], if i == 0 then first else again, |buf|))
      && (forall i | 0 <= i < |r.trace| - 1 :: !Hit(r.trace[i], target))
      && (r.ok ==> Answered(r.trace[|r.trace| - 1], r.buf))
      && (!r.ok ==> forall i | 0 <= i < |r.trace| :: !Hit(r.trace[i], target))
  {
    var rd := Read(first, buf, script);
    if rd.ok {
      PollTrace(again, target, rd.buf, rd.rest);
      var p := Poll(again, target, rd.buf, rd.rest);
      var t := rd.trace + p.trace;
      forall i | 1 <= i < |t|
        ensures t[i] == p.trace[i - 1]
      {
      }
      if !p.ok && t != [] {
        assert t[|t| - 1] == WriteRead(again, p.buf) || t[|t| - 1] == WriteRead(first, p.buf);
      }
    }
  }

  /** First phase of enable_tmf8806: read the enable register until it answers
      "sleeping". */
  function SleepPhase(buf: seq<Byte>, script: seq<Byte>): (r: Outcome)
    requires |buf| == 1
    ensures |r.buf| == 1 && (r.ok ==> r.buf == [BSL_SLEEP]) && (!r.ok ==> r.rest == [])
  {
    ReadThenPoll([ENABLE_REG], [ENABLE_REG], BSL_SLEEP, buf, script)
  }

  /** SleepPhase is a run of one-byte enable-register reads; completed, it ends
      on the answer "sleeping"; failed, it has used up every answer. */
  lemma SleepPhaseTrace(buf: seq<Byte>, script: seq<Byte>)
    requires |buf| == 1
    ensures var r := SleepPhase(buf, script);
      && |r.buf| == 1 && |r.rest| <= |script|
      && PhaseReads(r.trace, [ENABLE_REG], [ENABLE_REG])
      && (r.ok ==> r.trace != [] && SawSleep(r.trace[|r.trace| - 1]) && r.buf == [BSL_SLEEP])
      && (!r.ok ==> r.rest == [])
  {
    ReadThenPollTrace([ENABLE_REG], [ENABLE_REG], BSL_SLEEP, buf, script);
  }

  /** Second phase: send the power-on message, then read the enable register
      until it answers "ready". */
  function ReadyPhase(buf: seq<Byte>, script: seq<Byte>): (r: Outcome)
    requires |buf| == 1
    ensures |r.buf| == 1 && (r.ok ==> r.buf == [BSL_READY]) && (!r.ok ==> r.rest == [])
  {
    ReadThenPoll([ENABLE_REG, PON], [ENABLE_REG], BSL_READY, buf, script)
  }

  /** ReadyPhase starts with the power-on message, goes on with one-byte
      enable-register reads, and when completed ends on the answer "ready". */
  lemma ReadyPhaseTrace(buf: seq<Byte>, script: seq<Byte>)
    requires |buf| == 1
    ensures var r := ReadyPhase(buf, script);
      && |r.buf| == 1 && |r.rest| <= |script|
      && PhaseReads(r.trace, [ENABLE_REG, PON], [ENABLE_REG])
      && (r.ok ==> r.trace != [] && SawReady(r.trace[|r.trace| - 1]))
      && (!r.ok ==> r.rest == [])
  {
    ReadThenPollTrace([ENABLE_REG, PON], [ENABLE_REG], BSL_READY, buf, script);
  }

  /** Third phase: send the app-select message (its answer is not looked at), then
      read the app-request register until it echoes 0xC0. */
  function AppPhase(buf: seq<Byte>, script: seq<Byte>): (r: Outcome)
    requires |buf| == 1
    ensures |r.buf| == 1 && (r.ok ==> r.buf == [APP0]) && (!r.ok ==> r.rest == [])
  {
    var select := Read([APP_REQ_ID_REG, APP0], buf, script);
    if !select.ok then select
    else Then(select, ReadThenPoll([APP_REQ_ID_REG], [APP_REQ_ID_REG], APP0, select.buf, select.rest))
  }

  /** AppPhase starts with the app-select message, goes on with one-byte
      app-request reads, and when completed ends on the 0xC0 echo. */
  lemma AppPhaseTrace(buf: seq<Byte>, script: seq<Byte>)
    requires |buf| == 1
    ensures var r := AppPhase(buf, script);
      && PhaseReads(r.trace, [APP_REQ_ID_REG, APP0], [APP_REQ_ID_REG])
      && (r.ok ==> r.trace != [] && AppRunning(r.trace[|r.trace| - 1]))
  {
    var select := Read([APP_REQ_ID_REG, APP0], buf, script);
    if select.ok {
      ReadThenPollTrace([APP_REQ_ID_REG], [APP_REQ_ID_REG], APP0, select.buf, select.rest);
      var echo := ReadThenPoll([APP_REQ_ID_REG], [APP_REQ_ID_REG], APP0, select.buf, select.rest);
      var t := select.trace + echo.trace;
      assert AppPhase(buf, script).trace == t;
      assert forall k | 1 <= k < |echo.trace| + 1 :: t[k] == echo.trace[k - 1];
    }
  }

  /** enable_tmf8806 after the pin toggle: the three phases in turn, all reading
      through one local byte that starts at 0. */
  function BringUp(script: seq<Byte>): (r: Outcome)
    ensures |r.buf| == 1 && |r.rest| <= |script|
    ensures r.ok ==> r.buf == [APP0]
    ensures !r.ok ==> r.rest == []
  {
    var sleep := SleepPhase([0], script);
    if !sleep.ok then sleep else
    var ready := ReadyPhase(sleep.buf, sleep.rest);
    if !ready.ok then Then(sleep, ready) else
    Then(Then(sleep, ready), AppPhase(ready.buf, ready.rest))
  }

  /** `s` is a run of one-byte reads: of `first`, then of `again`. */
  predicate PhaseReads(s: seq<Transaction>, first: seq<Byte>, again: seq<Byte>)
  {
    forall k | 0 <= k < |s| :: IsRead(s[k], if k == 0 then first else again, 1)
  }

  /** A one-byte read of the enable or the app-request register. */
  predicate OneByteRead(x: Transaction)
  {
    x.WriteRead? && |x.reply| == 1 && |x.data| > 0 && (x.data[0] == ENABLE_REG || x.data[0] == APP_REQ_ID_REG)
  }

  /** The power-on message occurs only at index `n`, right after "sleeping". */
  predicate PowerOnOnlyAt(t: seq<Transaction>, n: int)
  {
    forall i | 0 <= i < |t| && IsPowerOn(t[i]) :: i == n && 0 < i && SawSleep(t[i - 1])
  }

  /** The app-select message occurs only at index `n`, right after "ready". */
  predicate AppSelectOnlyAt(t: seq<Transaction>, n: int)
  {
    forall i | 0 <= i < |t| && IsAppSelect(t[i]) :: i == n && 0 < i && SawReady(t[i - 1])
  }

  /** The three phases of a bring-up, each a run of one-byte reads: `a` of the
      enable register ending on "sleeping", `b` starting with the power-on
      message, `tail` starting with the app-select message after `b` ended on
      "ready". Joined, the power-on and app-select messages each occur once, right
      after the answer they wait for. */
  lemma PhasesInOrder(a: seq<Transaction>, b: seq<Transaction>, tail: seq<Transaction>)
    requires b != [] ==> a != [] && SawSleep(a[|a| - 1])
    requires PhaseReads(a, [ENABLE_REG], [ENABLE_REG])
    requires PhaseReads(b, [ENABLE_REG, PON], [ENABLE_REG])
    requires tail != [] ==> b != [] && SawReady(b[|b| - 1])
    requires PhaseReads(tail, [APP_REQ_ID_REG, APP0], [APP_REQ_ID_REG])
    ensures var t := a + b + tail;
      && (forall i | 0 <= i < |t| :: OneByteRead(t[i]))
      && PowerOnOnlyAt(t, |a|)
      && AppSelectOnlyAt(t, |a| + |b|)
  {
    var t := a + b + tail;
    var na, nb := |a|, |b|;
    forall i | 0 <= i < |t|
      ensures OneByteRead(t[i])
      ensures IsPowerOn(t[i]) ==> i == na && 0 < i && SawSleep(t[i - 1])
      ensures IsAppSelect(t[i]) ==> i == na + nb && 0 < i && SawReady(t[i - 1])
    {
      if i < na {
        assert t[i] == a[i];
      } else if i < na + nb {
        assert t[i] == b[i - na];
        if i == na {
          assert t[i - 1] == a[na - 1];
        }
      } else {
        assert t[i] == tail[i - na - nb];
        if i == na + nb {
          assert t[i - 1] == b[nb - 1];
        }
      }
    }
  }

  /** BringUp's trace cut into its three phases (see PhasesInOrder). */
  lemma BringUpPhases(script: seq<Byte>) returns (a: seq<Transaction>, b: seq<Transaction>, tail: seq<Transaction>)
    ensures var r := BringUp(script);
      && r.trace == a + b + tail
      && (b != [] ==> a != [] && SawSleep(a[|a| - 1]))
      && PhaseReads(a, [ENABLE_REG], [ENABLE_REG])
      && PhaseReads(b, [ENABLE_REG, PON], [ENABLE_REG])
      && (tail != [] ==> b != [] && SawReady(b[|b| - 1]))
      && PhaseReads(tail, [APP_REQ_ID_REG, APP0], [APP_REQ_ID_REG])
      && (r.ok ==> tail != [] && AppRunning(tail[|tail| - 1]))
      && (!r.ok ==> r.rest == [])
  {
    var sleep := SleepPhase([0], script);
    SleepPhaseTrace([0], script);
    var ready := ReadyPhase(sleep.buf, sleep.rest);
    ReadyPhaseTrace(sleep.buf, sleep.rest);
    var app := AppPhase(ready.buf, ready.rest);
    AppPhaseTrace(ready.buf, ready.rest);
    a := sleep.trace;
    b := if sleep.ok then ready.trace else [];
    tail := if sleep.ok && ready.ok then app.trace else [];
  }

  /** The bring-up transactions, for every answer script: only one-byte reads of
      the enable and app-request registers; the power-on message only right
      after an enable-register read answered "sleeping", and at most once; the
      app-select message only right after an enable-register read answered
      "ready", and at most once; a completed bring-up ends on the 0xC0 echo; an
      incomplete one has used up every answer. */
  lemma BringUpOrder(script: seq<Byte>)
    ensures var r := BringUp(script); var t := r.trace;
      && (forall i | 0 <= i < |t| :: OneByteRead(t[i]))
      && (forall i | 0 <= i < |t| && IsPowerOn(t[i]) :: 0 < i && SawSleep(t[i - 1]))
      && (forall i | 0 <= i < |t| && IsAppSelect(t[i]) :: 0 < i && SawReady(t[i - 1]))
      && (forall i, j | 0 <= i < j < |t| :: !(IsPowerOn(t[i]) && IsPowerOn(t[j])))
      && (forall i, j | 0 <= i < j < |t| :: !(IsAppSelect(t[i]) && IsAppSelect(t[j])))
      && (r.ok ==> t != [] && AppRunning(t[|t| - 1]))
      && (!r.ok ==> r.rest == [])
  {
    var a, b, tail := BringUpPhases(script);
    PhasesInOrder(a, b, tail);
    var t := BringUp(script).trace;
    assert PowerOnOnlyAt(t, |a|) && AppSelectOnlyAt(t, |a| + |b|);
    if tail != [] {
      assert t[|t| - 1] == tail[|tail| - 1];
    }
  }

  // ---------------------------------------------------------------------------
  // The routines, driving the bus

  /** `while buf[0] != target: writeto_then_readfrom(data, buf)`. */
  method PollUntil(bus: Bus, data: seq<Byte>, target: Byte, buf: array<Byte>) returns (ok: bool)
    requires bus.locked && buf.Length > 0
    modifies bus`log, bus`script, buf
    ensures var r := Poll(data, target, old(buf[..]), old(bus.script));
      ok == r.ok && bus.log == old(bus.log) + r.trace && bus.script == r.rest && buf[..] == r.buf
  {
    ok := true;
    ghost var whole := Poll(data, target, buf[..], bus.script);
    ghost var done: seq<Transaction> := [];
    while buf[0] != target
      invariant bus.locked && bus.log == old(bus.log) + done
      invariant var p := Poll(data, target, buf[..], bus.script);
        whole.ok == p.ok && whole.trace == done + p.trace && whole.rest == p.rest && whole.buf == p.buf
      decreases |bus.script|
    {
      ghost var rd := Read(data, buf[..], bus.script);
      ghost var here := Poll(data, target, buf[..], bus.script);
      PollUnfold(data, target, buf[..], bus.script);
      ok := bus.WriteThenReadFrom(data, buf);
      assert ok == rd.ok && buf[..] == rd.buf && bus.script == rd.rest;
      if !ok {
        return;
      }
      assert done + here.trace == done + rd.trace + Poll(data, target, buf[..], bus.script).trace;
      done := done + rd.trace;
    }
  }

  /** One turn of the polling loop. */
  lemma PollUnfold(data: seq<Byte>, target: Byte, buf: seq<Byte>, script: seq<Byte>)
    requires |buf| > 0 && buf[0] != target
    ensures var rd := Read(data, buf, script);
      Poll(data, target, buf, script) == if rd.ok then Then(rd, Poll(data, target, rd.buf, rd.rest)) else rd
  {
  }

  /** One writeto_then_readfrom of `first`, then PollUntil with `again`. */
  method ReadThenPollUntil(bus: Bus, first: seq<Byte>, again: seq<Byte>, target: Byte, buf: array<Byte>) returns (ok: bool)
    requires bus.locked && buf.Length > 0
    modifies bus`log, bus`script, buf
    ensures var r := ReadThenPoll(first, again, target, old(buf[..]), old(bus.script));
      ok == r.ok && bus.log == old(bus.log) + r.trace && bus.script == r.rest && buf[..] == r.buf
  {
    ok := bus.WriteThenReadFrom(first, buf);
    if ok {
      ok := PollUntil(bus, again, target, buf);
    }
  }

  /** enable_tmf8806 (the enable-pin toggle and the delays are not modelled). Its
      buffer is local, so no buffer of the caller changes. */
  method EnableTmf8806(bus: Bus) returns (ok: bool)
    requires bus.locked
    modifies bus`log, bus`script
    ensures var r := BringUp(old(bus.script));
      ok == r.ok && bus.log == old(bus.log) + r.trace && bus.script == r.rest
  {
    var res := new Byte[1](_ => 0);
    assert res[..] == [0];
    ghost var log0, script0 := bus.log, bus.script;
    ghost var up := BringUp(script0);
    ghost var sleep := SleepPhase([0], script0);
    ok := ReadThenPollUntil(bus, [ENABLE_REG], [ENABLE_REG], BSL_SLEEP, res);
    if !ok {
      assert up == sleep;
      return;
    }
    ghost var ready := ReadyPhase(sleep.buf, sleep.rest);
    ghost var log1 := bus.log;
    ok := ReadThenPollUntil(bus, [ENABLE_REG, PON], [ENABLE_REG], BSL_READY, res);
    ghost var both := Then(sleep, ready);
    assert bus.log == log0 + both.trace by {
      assert log1 == log0 + sleep.trace;
    }
    if !ok {
      assert up == both;
      return;
    }
    ghost var select := Read([APP_REQ_ID_REG, APP0], ready.buf, ready.rest);
    ghost var app := AppPhase(ready.buf, ready.rest);
    assert up == Then(both, app);
    ghost var log2 := bus.log;
    ok := bus.WriteThenReadFrom([APP_REQ_ID_REG, APP0], res);
    if !ok {
      assert app == select;
      return;
    }
    ghost var echo := ReadThenPoll([APP_REQ_ID_REG], [APP_REQ_ID_REG], APP0, select.buf, select.rest);
    ghost var log3 := bus.log;
    ok := ReadThenPollUntil(bus, [APP_REQ_ID_REG], [APP_REQ_ID_REG], APP0, res);
    assert app == Then(select, echo);
    assert bus.log == log0 + up.trace by {
      assert log3 == log2 + select.trace;
      ConcatAssoc(log0, both.trace, select.trace, echo.trace);
    }
  }

  /** Setup, one case at a time. */
  lemma SetupSteps(status: seq<Byte>, script: seq<Byte>)
    ensures var up := BringUp(script); var first := Read([INT_STAT_REG], status, up.rest);
      && (!up.ok ==> Setup(status, script) == Outcome(false, up.trace, up.rest, status))
      && (up.ok ==> Setup(status, script) == Outcome(first.ok, up.trace + ([Write(CAL_DATA)] + StartWrites()) + first.trace, first.rest, first.buf))
  {
  }

  /** Regrouping a concatenation of four logs. */
  lemma ConcatAssoc(a: seq<Transaction>, b: seq<Transaction>, c: seq<Transaction>, d: seq<Transaction>)
    ensures a + b + c + d == a + (b + (c + d))
    ensures a + b + c + d == a + (b + c + d)
  {
  }

  /** load_cal: one write of the calibration block, 15 bytes led by its register. */
  method LoadCal(bus: Bus)
    requires bus.locked
    modifies bus`log
    ensures bus.log == old(bus.log) + [Write(CAL_DATA)]
    ensures |CAL_DATA| == 15 && CAL_DATA[0] == FACTORY_CAL_REG
  {
    bus.WriteTo(CAL_DATA);
  }

  /** The three writes of start_measurements, in the order they are sent. */
  function StartWrites(): seq<Transaction>
  {
    [CLEAR_INTERRUPT, Write([INT_EN_REG, EN_INT]), Write(START_MEASURE)]
  }

  /** start_measurements: clear a stale interrupt, enable the interrupt, then send
      the unchanged 12-byte command. */
  method StartMeasurements(bus: Bus)
    requires bus.locked
    modifies bus`log
    ensures bus.log == old(bus.log) + StartWrites()
    ensures |START_MEASURE| == 12
  {
    bus.WriteTo([INT_STAT_REG, CLR_INT]);
    bus.WriteTo([INT_EN_REG, EN_INT]);
    bus.WriteTo(START_MEASURE);
  }

  /** The start both measuring scripts share: bring-up, load_cal,
      start_measurements, then one read of the interrupt status into the
      one-byte status buffer that holds `status`. */
  function Setup(status: seq<Byte>, script: seq<Byte>): (r: Outcome)
    ensures |r.buf| == |status|
    ensures r.ok ==> BringUp(script).ok
    ensures !r.ok ==> r.rest == [] || |r.rest| < |status|
  {
    var up := BringUp(script);
    if !up.ok then Outcome(false, up.trace, up.rest, status)
    else
      var first := Read([INT_STAT_REG], status, up.rest);
      Outcome(first.ok, up.trace + [Write(CAL_DATA)] + StartWrites() + first.trace, first.rest, first.buf)
  }

  /** Runs Setup on the bus. */
  method BeginMeasurements(bus: Bus, intStat: array<Byte>) returns (ok: bool)
    requires bus.locked
    modifies bus`log, bus`script, intStat
    ensures var r := Setup(old(intStat[..]), old(bus.script));
      ok == r.ok && bus.log == old(bus.log) + r.trace && bus.script == r.rest && intStat[..] == r.buf
  {
    ghost var log0, script0, status0 := bus.log, bus.script, intStat[..];
    ghost var up := BringUp(script0);
    ok := EnableTmf8806(bus);
    if !ok {
      assert Setup(status0, script0) == Outcome(false, up.trace, up.rest, status0);
      return;
    }
    ghost var log1 := bus.log;
    assert log1 == log0 + up.trace;
    LoadCal(bus);
    StartMeasurements(bus);
    ghost var w := [Write(CAL_DATA)] + StartWrites();
    ghost var log2 := bus.log;
    assert log2 == log1 + w;
    ghost var first := Read([INT_STAT_REG], status0, up.rest);
    SetupSteps(status0, script0);
    ok := bus.WriteThenReadFrom([INT_STAT_REG], intStat);
    assert ok == first.ok && bus.script == first.rest && intStat[..] == first.buf;
    assert bus.log == log2 + first.trace;
    ConcatAssoc(log0, up.trace, w, first.trace);
    assert bus.log == log0 + (up.trace + w + first.trace);
  }

  // ---------------------------------------------------------------------------
  // Properties of whole logs

  /** The transaction at `i` comes right after an interrupt-clear write, which
      comes right after a status read whose byte was exactly 0x01. */
  predicate ReadyThenCleared(t: seq<Transaction>, i: int)
  {
    2 <= i <= |t| && t[i - 1] == CLEAR_INTERRUPT && StatusReady(t[i - 2])
  }

  /** Every read of the block at `reg` follows a fresh "result ready" and its
      clear, so at most one block is read per observed ready. */
  predicate ResultReadsGuarded(t: seq<Transaction>, reg: Byte)
  {
    forall i | 0 <= i < |t| && IsResultRead(t[i], reg) :: ReadyThenCleared(t, i)
  }

  /** Every plain write comes after the app-request register has echoed 0xC0. */
  predicate WritesOnlyAfterAppRunning(t: seq<Transaction>)
  {
    forall i | 0 <= i < |t| && t[i].Write? :: exists j | 0 <= j < i :: AppRunning(t[j])
  }

  /** The blocks read from register `reg`, in order. */
  function Replies(t: seq<Transaction>, reg: Byte): seq<seq<Byte>>
    decreases |t|
  {
    if t == [] then []
    else Replies(t[..|t| - 1], reg) + (if IsResultRead(t[|t| - 1], reg) then [t[|t| - 1].reply] else [])
  }

  lemma {:induction false} RepliesAppend(a: seq<Transaction>, b: seq<Transaction>, reg: Byte)
    ensures Replies(a + b, reg) == Replies(a, reg) + Replies(b, reg)
    decreases |b|
  {
    if b == [] {
      assert a + b == a;
    } else {
      var b' := b[..|b| - 1];
      assert (a + b)[..|a + b| - 1] == a + b';
      assert (a + b)[|a + b| - 1] == b[|b| - 1];
      RepliesAppend(a, b', reg);
    }
  }

  lemma {:induction false} RepliesNone(u: seq<Transaction>, reg: Byte)
    requires forall k | 0 <= k < |u| :: !IsResultRead(u[k], reg)
    ensures Replies(u, reg) == []
    decreases |u|
  {
    if u != [] {
      RepliesNone(u[..|u| - 1], reg);
    }
  }

  /** Appending transactions that read no block keeps the guard and adds no block. */
  lemma AppendOthers(t: seq<Transaction>, u: seq<Transaction>, reg: Byte)
    requires ResultReadsGuarded(t, reg)
    requires forall k | 0 <= k < |u| :: !IsResultRead(u[k], reg)
    ensures ResultReadsGuarded(t + u, reg) && Replies(t + u, reg) == Replies(t, reg)
  {
    RepliesAppend(t, u, reg);
    RepliesNone(u, reg);
    forall i | 0 <= i < |t + u| && IsResultRead((t + u)[i], reg)
      ensures ReadyThenCleared(t + u, i)
    {
      if i < |t| {
        assert (t + u)[i] == t[i] && ReadyThenCleared(t, i);
        assert (t + u)[i - 1] == t[i - 1] && (t + u)[i - 2] == t[i - 2];
      }
    }
  }

  /** After a status poll that completed, the last transaction is a status read
      that answered exactly 0x01, and the poll read no block at any other
      register. */
  lemma StatusPollEndsReady(t: seq<Transaction>, status: seq<Byte>, script: seq<Byte>, reg: Byte)
    requires reg != INT_STAT_REG && |status| == 1
    requires t != [] && t[|t| - 1] == WriteRead([INT_STAT_REG], status)
    requires Poll([INT_STAT_REG], RES_INT, status, script).ok
    ensures var p := Poll([INT_STAT_REG], RES_INT, status, script);
      var u := t + p.trace;
      && StatusReady(u[|u| - 1])
      && (forall k | 0 <= k < |p.trace| :: !IsResultRead(p.trace[k], reg))
  {
    var p := Poll([INT_STAT_REG], RES_INT, status, script);
    PollTrace([INT_STAT_REG], RES_INT, status, script);
    var u := t + p.trace;
    if p.trace != [] {
      assert u[|u| - 1] == p.trace[|p.trace| - 1];
    }
  }

  /** Clearing the interrupt and reading a block right after a "result ready"
      status read keeps every block read guarded and adds exactly that block. */
  lemma GuardedBlockRead(u: seq<Transaction>, reg: Byte, block: seq<Byte>)
    requires ResultReadsGuarded(u, reg)
    requires u != [] && StatusReady(u[|u| - 1])
    ensures var t := u + [CLEAR_INTERRUPT, WriteRead([reg], block)];
      ResultReadsGuarded(t, reg) && Replies(t, reg) == Replies(u, reg) + [block]
  {
    var t := u + [CLEAR_INTERRUPT, WriteRead([reg], block)];
    var v := u + [CLEAR_INTERRUPT];
    assert t[..|t| - 1] == v && v[..|v| - 1] == u;
    forall i | 0 <= i < |t| && IsResultRead(t[i], reg)
      ensures ReadyThenCleared(t, i)
    {
      if i < |u| {
        assert t[i] == u[i] && ReadyThenCleared(u, i);
        assert t[i - 1] == u[i - 1] && t[i - 2] == u[i - 2];
      } else {
        assert t[i - 2] == u[|u| - 1];
      }
    }
  }

  /** A log that starts with a bring-up, and goes on only if it completed, has
      no plain write before the 0xC0 echo. */
  lemma WritesFollowBringUp(script: seq<Byte>, t: seq<Transaction>)
    requires var up := BringUp(script); |up.trace| <= |t| && t[..|up.trace|] == up.trace && (up.ok || t == up.trace)
    ensures WritesOnlyAfterAppRunning(t)
  {
    var up := BringUp(script);
    BringUpOrder(script);
    forall i | 0 <= i < |t| && t[i].Write?
      ensures exists j | 0 <= j < i :: AppRunning(t[j])
    {
      assert up.ok;
      var j := |up.trace| - 1;
      assert t[j] == up.trace[j];
    }
  }

  /** A bring-up reads no block at a register other than the enable and
      app-request registers. */
  lemma BringUpReadsNoBlock(script: seq<Byte>, reg: Byte)
    requires reg != ENABLE_REG && reg != APP_REQ_ID_REG
    ensures ResultReadsGuarded(BringUp(script).trace, reg) && Replies(BringUp(script).trace, reg) == []
  {
    var t := BringUp(script).trace;
    BringUpOrder(script);
    assert forall k | 0 <= k < |t| :: !IsResultRead(t[k], reg);
    RepliesNone(t, reg);
  }

  /** `p` is where `t` starts. */
  predicate StartsWith(t: seq<Transaction>, p: seq<Transaction>)
  {
    |p| <= |t| && t[..|p|] == p
  }

  /** What Setup leaves on the bus, for every answer script: the bring-up, and
      only if it completed, load_cal's write and the three writes of
      start_measurements in order, then the first status read. A failed Setup
      has used up every answer. */
  lemma SetupOrder(status: seq<Byte>, script: seq<Byte>)
    requires |status| == 1
    ensures var up := BringUp(script); var r := Setup(status, script); var n := |up.trace|;
      && StartsWith(r.trace, up.trace)
      && (!up.ok ==> r.trace == up.trace)
      && (up.ok ==> |r.trace| >= n + 4 && r.trace[n..n + 4] == [Write(CAL_DATA)] + StartWrites())
      && (r.ok ==> r.trace[|r.trace| - 1] == WriteRead([INT_STAT_REG], r.buf) && |r.buf| == 1)
      && (!r.ok ==> r.rest == [])
  {
    var up := BringUp(script);
    var r := Setup(status, script);
    BringUpOrder(script);
    SetupSteps(status, script);
    if up.ok {
      var first := Read([INT_STAT_REG], status, up.rest);
      var w := [Write(CAL_DATA)] + StartWrites();
      assert r.trace == up.trace + w + first.trace;
      assert r.trace[..|up.trace|] == up.trace;
      assert r.trace[|up.trace|..|up.trace| + 4] == w;
      if r.ok {
        assert r.trace[|r.trace| - 1] == first.trace[0];
      }
    }
  }

  /** Setup reads no block at `reg`. */
  lemma SetupReadsNoBlock(status: seq<Byte>, script: seq<Byte>, reg: Byte)
    requires reg != ENABLE_REG && reg != APP_REQ_ID_REG && reg != INT_STAT_REG
    ensures var r := Setup(status, script);
      ResultReadsGuarded(r.trace, reg) && Replies(r.trace, reg) == []
  {
    var up := BringUp(script);
    BringUpReadsNoBlock(script, reg);
    SetupSteps(status, script);
    if up.ok {
      var first := Read([INT_STAT_REG], status, up.rest);
      var w := [Write(CAL_DATA)] + StartWrites();
      ConfigIsWrites();
      AppendOthers(up.trace, w, reg);
      AppendOthers(up.trace + w, first.trace, reg);
    }
  }

  /** load_cal and start_measurements only write. */
  lemma ConfigIsWrites()
    ensures var w := [Write(CAL_DATA)] + StartWrites(); forall k | 0 <= k < |w| :: w[k].Write?
  {
  }

  /** Setup writes nothing before the app echoed 0xC0. */
  lemma SetupWritesAfterApp(status: seq<Byte>, script: seq<Byte>)
    requires |status| == 1
    ensures WritesOnlyAfterAppRunning(Setup(status, script).trace)
  {
    SetupOrder(status, script);
    WritesFollowBringUp(script, Setup(status, script).trace);
  }

  /** A log that starts with Setup, and goes on only if Setup completed, has no
      write before the app echoed 0xC0. */
  lemma WritesAfterSetup(status: seq<Byte>, script: seq<Byte>, t: seq<Transaction>)
    requires |status| == 1
    requires var s := Setup(status, script); StartsWith(t, s.trace) && (s.ok || t == s.trace)
    ensures WritesOnlyAfterAppRunning(t)
  {
    var s := Setup(status, script);
    SetupWritesAfterApp(status, script);
    if s.ok {
      var up := BringUp(script);
      BringUpOrder(script);
      SetupOrder(status, script);
      var j := |up.trace| - 1;
      assert s.trace[j] == up.trace[j];
      var rest := t[|s.trace|..];
      assert t == s.trace + rest;
      WritesStayAfterAppRunning(s.trace, rest, j);
    }
  }

  /** Extending a log keeps where it starts. */
  lemma StartsWithAppend(t: seq<Transaction>, p: seq<Transaction>, u: seq<Transaction>)
    requires StartsWith(t, p)
    ensures StartsWith(t + u, p)
  {
    assert (t + u)[..|p|] == t[..|p|];
  }

  /** Where a log starts is where every extension of it starts. */
  lemma StartsWithTrans(t: seq<Transaction>, u: seq<Transaction>, p: seq<Transaction>)
    requires StartsWith(t, u) && StartsWith(u, p)
    ensures StartsWith(t, p)
  {
    assert t[..|p|] == t[..|u|][..|p|];
  }

  /** A status poll, and the interrupt clear after it when it completed, read no
      block at `reg`. */
  lemma StatusPollReadsNoBlock(t: seq<Transaction>, status: seq<Byte>, script: seq<Byte>, reg: Byte)
    requires reg != INT_STAT_REG && |status| == 1
    requires ResultReadsGuarded(t, reg)
    ensures var p := Poll([INT_STAT_REG], RES_INT, status, script);
      var u := t + p.trace + (if p.ok then [CLEAR_INTERRUPT] else []);
      ResultReadsGuarded(u, reg) && Replies(u, reg) == Replies(t, reg)
  {
    var p := Poll([INT_STAT_REG], RES_INT, status, script);
    PollTrace([INT_STAT_REG], RES_INT, status, script);
    AppendOthers(t, p.trace, reg);
    AppendOthers(t + p.trace, if p.ok then [CLEAR_INTERRUPT] else [], reg);
  }

  /** Appending transactions after the app has echoed 0xC0 keeps every write
      after that echo. */
  lemma WritesStayAfterAppRunning(t: seq<Transaction>, u: seq<Transaction>, j: nat)
    requires WritesOnlyAfterAppRunning(t)
    requires j < |t| && AppRunning(t[j])
    ensures WritesOnlyAfterAppRunning(t + u)
  {
    var v := t + u;
    forall i | 0 <= i < |v| && v[i].Write?
      ensures exists j' | 0 <= j' < i :: AppRunning(v[j'])
    {
      if i < |t| {
        assert v[i] == t[i];
        var j' :| 0 <= j' < i && AppRunning(t[j']);
        assert v[j'] == t[j'];
      } else {
        assert v[j] == t[j];
      }
    }
  }

  // ---------------------------------------------------------------------------
  // The measuring loop

  /** Where a measuring script stands: whether the sensor has kept answering,
      the whole log so far, the answers left, and the contents of the one-byte
      status buffer and of the result buffer. */
  datatype Progress = Progress(ok: bool, log: seq<Transaction>, rest: seq<Byte>, status: seq<Byte>, block: seq<Byte>)

  /** The result buffer both measuring scripts allocate: 7 bytes, all 0. */
  const RESULT_ZEROS: seq<Byte> := [0, 0, 0, 0, 0, 0, 0]

  /** The first part of a turn: poll the interrupt status until its byte is
      0x01, clear the interrupt, then read the block at `reg`. It completes iff
      the block was read, and fails only for want of answers. */
  function Fetch(reg: Byte, c: Progress): (r: Progress)
    requires |c.status| > 0
    ensures |r.status| == |c.status| && |r.block| == |c.block|
    ensures r.ok ==> r.status[0] == RES_INT
    ensures !r.ok ==> |r.rest| < |c.status| || |r.rest| < |c.block|
  {
    var p := Poll([INT_STAT_REG], RES_INT, c.status, c.rest);
    if !p.ok then Progress(false, c.log + p.trace, p.rest, p.buf, c.block)
    else
      var b := Read([reg], c.block, p.rest);
      Progress(b.ok, c.log + p.trace + [CLEAR_INTERRUPT] + b.trace, b.rest, p.buf, b.buf)
  }

  /** One whole turn of a measuring loop: Fetch, then read the interrupt status
      again for the next turn. It fails only for want of answers. */
  function Turn(reg: Byte, c: Progress): (r: Progress)
    requires |c.status| > 0
    ensures |r.status| == |c.status| && |r.block| == |c.block|
    ensures r.ok ==> Fetch(reg, c).ok
    ensures !r.ok ==> |r.rest| < |c.status| || |r.rest| < |c.block|
  {
    var f := Fetch(reg, c);
    if !f.ok then f
    else
      var s := Read([INT_STAT_REG], f.status, f.rest);
      Progress(s.ok, f.log + s.trace, s.rest, s.buf, f.block)
  }

  /** Up to `k` turns; once the answers have run out nothing more happens. */
  function Turns(k: nat, reg: Byte, c: Progress): (r: Progress)
    requires |c.status| > 0
    ensures |r.status| == |c.status| && |r.block| == |c.block|
    ensures r.ok ==> c.ok
    ensures !r.ok ==> !c.ok || |r.rest| < |c.status| || |r.rest| < |c.block|
    decreases k
  {
    if k == 0 || !c.ok then c else Turns(k - 1, reg, Turn(reg, c))
  }

  /** Turns and Reads, one turn at a time. */
  lemma TurnsNext(k: nat, j: nat, reg: Byte, c: Progress)
    requires |c.status| > 0 && c.ok && k == j + 1
    ensures Turns(k, reg, c) == Turns(j, reg, Turn(reg, c))
    ensures Reads(k, reg, c) == (if Fetch(reg, c).ok then [Turn(reg, c).block] else []) + Reads(j, reg, Turn(reg, c))
  {
  }

  /** One more turn of a loop that has already read `blocks` and still has
      `k` turns to go: the state it reaches and the blocks it will have read
      stay the same. */
  lemma TurnsAdvance(k: nat, j: nat, reg: Byte, c: Progress, blocks: seq<seq<Byte>>)
    requires |c.status| > 0 && c.ok && k == j + 1
    ensures var n := Turn(reg, c); var now := if Fetch(reg, c).ok then [n.block] else [];
      && Turns(j, reg, n) == Turns(k, reg, c)
      && blocks + now + Reads(j, reg, n) == blocks + Reads(k, reg, c)
  {
    var n := Turn(reg, c);
    var now := if Fetch(reg, c).ok then [n.block] else [];
    TurnsNext(k, j, reg, c);
    JoinAssoc(blocks, now, Reads(j, reg, n));
  }

  /** Once the turns are used up or the answers have run out, nothing more happens. */
  lemma TurnsStop(k: nat, reg: Byte, c: Progress)
    requires |c.status| > 0 && (k == 0 || !c.ok)
    ensures Turns(k, reg, c) == c && Reads(k, reg, c) == []
  {
  }

  /** Where the measuring loop starts: after Setup, with the result buffer
      still zero. */
  function Started(script: seq<Byte>): (c: Progress)
    ensures |c.status| == 1 && c.block == RESULT_ZEROS
    ensures c.ok ==> BringUp(script).ok
  {
    var s := Setup([0], script);
    Progress(s.ok, s.trace, s.rest, s.buf, RESULT_ZEROS)
  }

  /** A measuring script after Setup and `k` turns of its loop. */
  function Measuring(reg: Byte, k: nat, script: seq<Byte>): (r: Progress)
    ensures |r.status| == 1 && |r.block| == 7
    ensures r.ok ==> Setup([0], script).ok
    ensures !r.ok ==> |r.rest| < 7
  {
    Turns(k, reg, Started(script))
  }

  /** The blocks `k` turns read, in order: one per turn whose "result ready"
      came, none after the answers ran out. */
  function Reads(k: nat, reg: Byte, c: Progress): (bs: seq<seq<Byte>>)
    requires |c.status| > 0
    ensures |bs| <= k
    decreases k
  {
    if k == 0 || !c.ok then []
    else
      var n := Turn(reg, c);
      (if Fetch(reg, c).ok then [n.block] else []) + Reads(k - 1, reg, n)
  }

  /** The scripts' measuring loop up to the block read, on the bus. */
  method ReadResult(bus: Bus, reg: Byte, intStat: array<Byte>, block: array<Byte>) returns (ok: bool)
    requires bus.locked && intStat.Length == 1 && intStat != block
    modifies bus`log, bus`script, intStat, block
    ensures var r := Fetch(reg, Progress(true, old(bus.log), old(bus.script), old(intStat[..]), old(block[..])));
      ok == r.ok && bus.log == r.log && bus.script == r.rest && intStat[..] == r.status && block[..] == r.block
  {
    ok := PollUntil(bus, [INT_STAT_REG], RES_INT, intStat);
    if !ok {
      return;
    }
    bus.WriteTo([INT_STAT_REG, CLR_INT]);
    ok := bus.WriteThenReadFrom([reg], block);
  }

  /** One turn of the scripts' measuring loop, on the bus; `read` tells whether
      the block was read (and is then reported by the caller). */
  method NextResult(bus: Bus, reg: Byte, intStat: array<Byte>, block: array<Byte>) returns (read: bool, ok: bool)
    requires bus.locked && intStat.Length == 1 && intStat != block
    modifies bus`log, bus`script, intStat, block
    ensures var c := Progress(true, old(bus.log), old(bus.script), old(intStat[..]), old(block[..]));
      && read == Fetch(reg, c).ok
      && Progress(ok, bus.log, bus.script, intStat[..], block[..]) == Turn(reg, c)
  {
    read := ReadResult(bus, reg, intStat, block);
    ok := read;
    if read {
      ok := bus.WriteThenReadFrom([INT_STAT_REG], intStat);
    }
  }

  /** The interrupt clear, then at most one read of the block at `reg`, adds
      that block's answer, if any, to the blocks read at `reg`. */
  lemma {:induction false} ClearThenBlock(u: seq<Transaction>, reg: Byte, bt: seq<Transaction>)
    requires bt == [] || (|bt| == 1 && IsResultRead(bt[0], reg))
    ensures Replies(u + [CLEAR_INTERRUPT] + bt, reg) == Replies(u, reg) + (if bt == [] then [] else [bt[0].reply])
  {
    var v := u + [CLEAR_INTERRUPT];
    assert v[..|v| - 1] == u;
    if bt != [] {
      assert (v + bt)[..|v + bt| - 1] == v;
    } else {
      assert v + bt == v;
    }
  }

  /** Appending at most one status read adds no block at `reg`. */
  lemma {:induction false} StatusReadAppend(t: seq<Transaction>, reg: Byte, st: seq<Transaction>)
    requires reg != INT_STAT_REG
    requires st == [] || (|st| == 1 && st[0].WriteRead? && st[0].data == [INT_STAT_REG])
    ensures Replies(t + st, reg) == Replies(t, reg)
  {
    if st != [] {
      assert (t + st)[..|t + st| - 1] == t;
    } else {
      assert t + st == t;
    }
  }

  /** Fetch adds to the blocks read at `reg` exactly the block it read, if any. */
  lemma {:induction false} FetchReplies(reg: Byte, c: Progress)
    requires reg != INT_STAT_REG && |c.status| > 0
    ensures var f := Fetch(reg, c);
      Replies(f.log, reg) == Replies(c.log, reg) + (if f.ok then [f.block] else [])
  {
    var p := Poll([INT_STAT_REG], RES_INT, c.status, c.rest);
    var f := Fetch(reg, c);
    PollNoBlock(reg, c.status, c.rest);
    RepliesAppend(c.log, p.trace, reg);
    assert Replies(c.log + p.trace, reg) == Replies(c.log, reg);
    if p.ok {
      var b := Read([reg], c.block, p.rest);
      assert f.log == c.log + p.trace + [CLEAR_INTERRUPT] + b.trace;
      ClearThenBlock(c.log + p.trace, reg, b.trace);
    } else {
      assert f.log == c.log + p.trace;
    }
  }

  /** A status poll reads no block at any other register. */
  lemma {:induction false} PollNoBlock(reg: Byte, status: seq<Byte>, script: seq<Byte>)
    requires reg != INT_STAT_REG && |status| > 0
    ensures Replies(Poll([INT_STAT_REG], RES_INT, status, script).trace, reg) == []
  {
    PollTrace([INT_STAT_REG], RES_INT, status, script);
    RepliesNone(Poll([INT_STAT_REG], RES_INT, status, script).trace, reg);
  }

  /** A status poll started right after a status read keeps every block read
      guarded, and, completed, leaves a "result ready" read last. */
  lemma {:induction false} PollKeepsGuard(t: seq<Transaction>, reg: Byte, status: seq<Byte>, script: seq<Byte>)
    requires reg != INT_STAT_REG && |status| == 1
    requires ResultReadsGuarded(t, reg)
    requires t != [] && t[|t| - 1] == WriteRead([INT_STAT_REG], status)
    ensures var p := Poll([INT_STAT_REG], RES_INT, status, script); var u := t + p.trace;
      && ResultReadsGuarded(u, reg)
      && (p.ok ==> StatusReady(u[|u| - 1]))
  {
    var p := Poll([INT_STAT_REG], RES_INT, status, script);
    PollTrace([INT_STAT_REG], RES_INT, status, script);
    AppendOthers(t, p.trace, reg);
    if p.ok {
      StatusPollEndsReady(t, status, script, reg);
    }
  }

  /** The interrupt clear keeps every block read guarded. */
  lemma ClearKeepsGuard(u: seq<Transaction>, reg: Byte)
    requires ResultReadsGuarded(u, reg)
    ensures ResultReadsGuarded(u + [CLEAR_INTERRUPT], reg)
  {
    AppendOthers(u, [CLEAR_INTERRUPT], reg);
  }

  /** A turn adds to the blocks read at `reg` exactly the block it fetched, if
      it fetched one. */
  lemma {:induction false} TurnReplies(reg: Byte, c: Progress)
    requires reg != INT_STAT_REG && |c.status| > 0
    ensures var r := Turn(reg, c);
      Replies(r.log, reg) == Replies(c.log, reg) + (if Fetch(reg, c).ok then [r.block] else [])
  {
    var f := Fetch(reg, c);
    FetchReplies(reg, c);
    if f.ok {
      var s := Read([INT_STAT_REG], f.status, f.rest);
      StatusReadAppend(f.log, reg, s.trace);
    }
  }

  /** Fetch, started right after a status read, keeps every block read
      guarded; completed, it has read its block right after a "result ready"
      and the clear. */
  lemma {:induction false} FetchGuarded(reg: Byte, c: Progress)
    requires reg != INT_STAT_REG && |c.status| == 1
    requires ResultReadsGuarded(c.log, reg)
    requires c.log != [] && c.log[|c.log| - 1] == WriteRead([INT_STAT_REG], c.status)
    ensures var f := Fetch(reg, c);
      StartsWith(f.log, c.log) && ResultReadsGuarded(f.log, reg)
  {
    var p := Poll([INT_STAT_REG], RES_INT, c.status, c.rest);
    var f := Fetch(reg, c);
    var u := c.log + p.trace;
    PollKeepsGuard(c.log, reg, c.status, c.rest);
    StartsWithAppend(c.log, c.log, p.trace);
    if p.ok {
      var b := Read([reg], c.block, p.rest);
      var v := u + [CLEAR_INTERRUPT];
      assert f.log == v + b.trace;
      StartsWithAppend(u, c.log, [CLEAR_INTERRUPT]);
      StartsWithAppend(v, c.log, b.trace);
      if b.ok {
        assert f.log == u + [CLEAR_INTERRUPT, WriteRead([reg], b.buf)];
        GuardedBlockRead(u, reg, b.buf);
      } else {
        assert f.log == v;
        ClearKeepsGuard(u, reg);
      }
    } else {
      assert f.log == u;
    }
  }

  /** A turn started right after a status read keeps every block read guarded,
      and when it completed it has fetched a block and ends on a status read. */
  lemma {:induction false} TurnGuarded(reg: Byte, c: Progress)
    requires reg != INT_STAT_REG && |c.status| == 1
    requires ResultReadsGuarded(c.log, reg)
    requires c.log != [] && c.log[|c.log| - 1] == WriteRead([INT_STAT_REG], c.status)
    ensures var r := Turn(reg, c);
      && StartsWith(r.log, c.log)
      && ResultReadsGuarded(r.log, reg)
      && (r.ok ==> Fetch(reg, c).ok && r.log[|r.log| - 1] == WriteRead([INT_STAT_REG], r.status))
  {
    var f := Fetch(reg, c);
    FetchGuarded(reg, c);
    if f.ok {
      var s := Read([INT_STAT_REG], f.status, f.rest);
      AppendOthers(f.log, s.trace, reg);
      StartsWithAppend(f.log, c.log, s.trace);
    }
  }

  /** A log ready for the next turn: every block read guarded and, while the
      answers last, a status read last. */
  predicate Poised(reg: Byte, c: Progress)
  {
    && |c.status| == 1
    && ResultReadsGuarded(c.log, reg)
    && (c.ok ==> c.log != [] && c.log[|c.log| - 1] == WriteRead([INT_STAT_REG], c.status))
  }

  /** A turn keeps a log poised. */
  lemma TurnPoised(reg: Byte, c: Progress)
    requires reg != INT_STAT_REG && c.ok && Poised(reg, c)
    ensures StartsWith(Turn(reg, c).log, c.log) && Poised(reg, Turn(reg, c))
  {
    TurnGuarded(reg, c);
  }

  /** Any number of turns only extend a poised log and keep it poised. */
  lemma {:induction false} TurnsGuarded(k: nat, reg: Byte, c: Progress)
    requires reg != INT_STAT_REG && Poised(reg, c)
    ensures StartsWith(Turns(k, reg, c).log, c.log) && Poised(reg, Turns(k, reg, c))
    decreases k
  {
    if k > 0 && c.ok {
      var j: nat := k - 1;
      var n := Turn(reg, c);
      TurnsNext(k, j, reg, c);
      TurnPoised(reg, c);
      TurnsGuarded(j, reg, n);
      StartsWithTrans(Turns(j, reg, n).log, n.log, c.log);
    } else {
      TurnsStop(k, reg, c);
      assert c.log[..|c.log|] == c.log;
    }
  }

  /** `k` turns read at most `k` blocks, exactly `k` when the answers lasted,
      each as long as the result buffer. */
  lemma {:induction false} ReadsCount(k: nat, reg: Byte, c: Progress)
    requires |c.status| > 0
    ensures var bs := Reads(k, reg, c);
      && (Turns(k, reg, c).ok ==> |bs| == k)
      && forall b | b in bs :: |b| == |c.block|
    decreases k
  {
    if k > 0 && c.ok {
      var j: nat := k - 1;
      TurnsNext(k, j, reg, c);
      ReadsCount(j, reg, Turn(reg, c));
    } else {
      TurnsStop(k, reg, c);
    }
  }

  /** The log after `k` turns holds, after the blocks it held, exactly the
      blocks Reads names. */
  lemma {:induction false} TurnsReads(k: nat, reg: Byte, c: Progress)
    requires reg != INT_STAT_REG && |c.status| > 0
    ensures Replies(Turns(k, reg, c).log, reg) == Replies(c.log, reg) + Reads(k, reg, c)
    decreases k
  {
    if k > 0 && c.ok {
      var j: nat := k - 1;
      var n := Turn(reg, c);
      var now := if Fetch(reg, c).ok then [n.block] else [];
      TurnsNext(k, j, reg, c);
      TurnReplies(reg, c);
      TurnsReads(j, reg, n);
      JoinAssoc(Replies(c.log, reg), now, Reads(j, reg, n));
    } else {
      TurnsStop(k, reg, c);
      JoinAssoc(Replies(c.log, reg), [], []);
    }
  }

  /** Regrouping a concatenation of three sequences of blocks. */
  lemma JoinAssoc(a: seq<seq<Byte>>, b: seq<seq<Byte>>, c: seq<seq<Byte>>)
    ensures a + b + c == a + (b + c) && a + [] == a
  {
  }

  /** What a measuring script does on the bus, for every answer script: the log
      starts with Setup and goes on only if Setup completed; no write comes
      before the 0xC0 echo; every block read at `reg` follows a fresh "result
      ready" and its clear; at most `k` blocks are read, exactly `k` when the
      answers lasted. */
  lemma {:induction false} MeasuringOrder(reg: Byte, k: nat, script: seq<Byte>)
    requires reg != ENABLE_REG && reg != APP_REQ_ID_REG && reg != INT_STAT_REG
    ensures var s := Setup([0], script); var r := Measuring(reg, k, script);
      && StartsWith(r.log, s.trace)
      && (!s.ok ==> r.log == s.trace)
      && WritesOnlyAfterAppRunning(r.log)
      && ResultReadsGuarded(r.log, reg)
      && Replies(r.log, reg) == Reads(k, reg, Started(script))
      && |Replies(r.log, reg)| <= k
      && (r.ok ==> |Replies(r.log, reg)| == k)
  {
    var s := Setup([0], script);
    SetupOrder([0], script);
    SetupReadsNoBlock([0], script, reg);
    TurnsGuarded(k, reg, Started(script));
    TurnsReads(k, reg, Started(script));
    ReadsCount(k, reg, Started(script));
    WritesAfterSetup([0], script, Measuring(reg, k, script).log);
  }

  // ---------------------------------------------------------------------------
  // Decoding

  /** The scripts' way of joining a low and a high byte: `lo + 0xFF * hi`. The
      multiplier is 0xFF, not 0x100, so the result is not the little-endian
      16-bit value and stays within 0..65280. */
  function Combine(lo: Byte, hi: Byte): (v: int)
    ensures 0 <= v <= 65280
    ensures hi == 0 ==> v == lo
  {
    lo + 0xFF * hi
  }

  /** A byte pair that Combine turns into `v`: every value in 0..65280 occurs. */
  function PairFor(v: int): (p: (Byte, Byte))
    requires 0 <= v <= 65280
    ensures Combine(p.0, p.1) == v
  {
    if v == 65280 then (255, 255) else (v % 255, v / 255)
  }

  /** The only byte pairs Combine confuses are (0xFF, h) and (0x00, h + 1). */
  lemma CombineCollisions(lo1: Byte, hi1: Byte, lo2: Byte, hi2: Byte)
    requires Combine(lo1, hi1) == Combine(lo2, hi2)
    ensures
      || (lo1 == lo2 && hi1 == hi2)
      || (lo1 == 255 && lo2 == 0 && hi2 == hi1 + 1)
      || (lo2 == 255 && lo1 == 0 && hi1 == hi2 + 1)
  {
  }
}

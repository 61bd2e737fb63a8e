/**
  The board sequencer: PWR_ON and RST pulses and the rail, in the order the calls drive them.

  Every operation on the board may fail; a run of calls is judged by watching the operations
  it attempted.
 */
module Board {
  import opened ByteText
  import opened Platform

  const T_RAIL_SETTLE_MS: nat := 10
  const T_PWR_ON_PULSE_MS: nat := 250
  const T_PWR_OFF_PULSE_MS: nat := 1500
  const T_POWER_CYCLE_DELAY_MS: nat := 500
  const T_POST_ON_DELAY_MS: nat := 100
  const T_RESET_PULSE_MS: nat := 200

  /** An operation attempted on the board and what it returned. */
  datatype Event =
    | EnsuredReady(ret: int)
    | Rail(value: int, ret: int)
    | PwrOn(asserted: bool, ret: int)
    | Rst(asserted: bool, ret: int)
    | Slept(ms: nat)

  datatype Call = PowerOn | PowerOff | PowerCycle | ResetPulse

  // ----- What each call may attempt -----

  ghost predicate PulseTrace(ms: nat, ev: seq<Event>, ret: int) {
    || (ret != 0 && ev == [PwrOn(true, ret)])
    || ev == [PwrOn(true, 0), Slept(ms), PwrOn(false, ret)]
  }

  ghost predicate OnTrace(ev: seq<Event>, ret: int) {
    || (ret != 0 && ev == [EnsuredReady(ret)])
    || (ret != 0 && ev == [EnsuredReady(0), Rail(1, ret)])
    || exists pulse ::
         && PulseTrace(250, pulse, ret)
         && ev == [EnsuredReady(0), Rail(1, 0), Slept(10)] + pulse
                  + (if ret == 0 then [Slept(100)] else [])
  }

  ghost predicate OffTrace(ev: seq<Event>, ret: int) {
    || (ret != 0 && ev == [EnsuredReady(ret)])
    || (ret != 0 && exists pulse ::
          PulseTrace(1500, pulse, ret) && ev == [EnsuredReady(0)] + pulse)
    || (exists pulse ::
          PulseTrace(1500, pulse, 0) && ev == [EnsuredReady(0)] + pulse + [Rail(0, ret)])
  }

  ghost predicate CycleTrace(ev: seq<Event>, ret: int) {
    || (ret != 0 && OffTrace(ev, ret))
    || (exists off, on ::
          OffTrace(off, 0) && OnTrace(on, ret) && ev == off + [Slept(500)] + on)
  }

  ghost predicate ResetTrace(ev: seq<Event>, ret: int) {
    || (ret != 0 && ev == [EnsuredReady(ret)])
    || (ret != 0 && ev == [EnsuredReady(0), Rst(true, ret)])
    || ev == [EnsuredReady(0), Rst(true, 0), Slept(200), Rst(false, ret)]
  }

  ghost predicate CallTrace(call: Call, ev: seq<Event>, ret: int) {
    match call
    case PowerOn => OnTrace(ev, ret)
    case PowerOff => OffTrace(ev, ret)
    case PowerCycle => CycleTrace(ev, ret)
    case ResetPulse => ResetTrace(ev, ret)
  }

  /** The results of the fallible operations among these, in order. */
  function Results(ev: seq<Event>): seq<int> {
    if ev == [] then []
    else
      var rest := Results(ev[..|ev| - 1]);
      match ev[|ev| - 1]
      case EnsuredReady(ret) => rest + [ret]
      case Rail(_, ret) => rest + [ret]
      case PwrOn(_, ret) => rest + [ret]
      case Rst(_, ret) => rest + [ret]
      case Slept(_) => rest
  }

  /** The operations returned what the script says, one result after the other. */
  ghost predicate Drawn(script: seq<int>, ev: seq<Event>, left: seq<int>) {
    var rets := Results(ev);
    && left == Rest(script, |rets|)
    && forall i | 0 <= i < |rets| :: rets[i] == if i < |script| then script[i] else 0
  }

  /** One more operation: a sleep draws nothing, any other draws the next result. */
  lemma {:induction false} DrawnMore(script: seq<int>, ev: seq<Event>, left: seq<int>, e: Event)
    requires Drawn(script, ev, left)
    ensures e.Slept? ==> Drawn(script, ev + [e], left)
    ensures !e.Slept? && e.ret == (if left == [] then 0 else left[0]) ==> Drawn(script, ev + [e], Rest(left, 1))
  {
    assert (ev + [e])[..|ev|] == ev;
    hide Results;
    ResultsMore(ev, e);
  }

  lemma {:induction false} ResultsMore(ev: seq<Event>, e: Event)
    ensures Results(ev + [e]) == Results(ev) + (if e.Slept? then [] else [e.ret])
  {
    assert (ev + [e])[..|ev|] == ev;
  }

  /** The callbacks of the core; `results` scripts what the fallible ones return (0 when exhausted). */
  class Ops {
    ghost const scripted: seq<int>
    var results: seq<int>
    var trace: seq<Event>

    /** So far every operation has returned what was scripted for it. */
    ghost predicate Faithful()
      reads this
    {
      Drawn(scripted, trace, results)
    }

    constructor (results: seq<int>)
      ensures this.results == scripted == results && trace == [] && Faithful()
    {
      this.results, scripted := results, results;
      trace := [];
    }

    method NextResult() returns (ret: int)
      modifies this`results
      ensures ret == if old(results) == [] then 0 else old(results)[0]
      ensures results == Rest(old(results), 1)
    {
      ret := 0;
      if results != [] {
        ret := results[0];
        results := results[1..];
      }
    }

    method EnsureReady() returns (ret: int)
      modifies this
      ensures trace == old(trace) + [EnsuredReady(ret)]
      ensures old(Faithful()) ==> Faithful()
    {
      ret := NextResult();
      trace := trace + [EnsuredReady(ret)];
      if old(Faithful()) {
        DrawnMore(scripted, old(trace), old(results), EnsuredReady(ret));
      }
    }

    method SetRailEn(value: int) returns (ret: int)
      modifies this
      ensures trace == old(trace) + [Rail(value, ret)]
      ensures old(Faithful()) ==> Faithful()
    {
      ret := NextResult();
      trace := trace + [Rail(value, ret)];
      if old(Faithful()) {
        DrawnMore(scripted, old(trace), old(results), Rail(value, ret));
      }
    }

    method SetPwrOnAsserted(asserted: bool) returns (ret: int)
      modifies this
      ensures trace == old(trace) + [PwrOn(asserted, ret)]
      ensures old(Faithful()) ==> Faithful()
    {
      ret := NextResult();
      trace := trace + [PwrOn(asserted, ret)];
      if old(Faithful()) {
        DrawnMore(scripted, old(trace), old(results), PwrOn(asserted, ret));
      }
    }

    method SetRstAsserted(asserted: bool) returns (ret: int)
      modifies this
      ensures trace == old(trace) + [Rst(asserted, ret)]
      ensures old(Faithful()) ==> Faithful()
    {
      ret := NextResult();
      trace := trace + [Rst(asserted, ret)];
      if old(Faithful()) {
        DrawnMore(scripted, old(trace), old(results), Rst(asserted, ret));
      }
    }

    method SleepMs(ms: nat)
      modifies this`trace
      ensures trace == old(trace) + [Slept(ms)]
      ensures old(Faithful()) ==> Faithful()
    {
      trace := trace + [Slept(ms)];
      if old(Faithful()) {
        DrawnMore(scripted, old(trace), old(results), Slept(ms));
      }
    }

    method PwrOnPulse(ms: nat) returns (ret: int, ghost ev: seq<Event>)
      modifies this
      ensures trace == old(trace) + ev && PulseTrace(ms, ev, ret)
      ensures old(Faithful()) ==> Faithful()
    {
      ret := SetPwrOnAsserted(true);
      ev := [PwrOn(true, ret)];
      if ret != 0 {
        return;
      }
      SleepMs(ms);
      ret := SetPwrOnAsserted(false);
      ev := [PwrOn(true, 0), Slept(ms), PwrOn(false, ret)];
    }

    method PowerOnCore() returns (ret: int, ghost ev: seq<Event>)
      modifies this
      ensures trace == old(trace) + ev && OnTrace(ev, ret)
      ensures old(Faithful()) ==> Faithful()
    {
      ret := EnsureReady();
      ev := [EnsuredReady(ret)];
      if ret != 0 {
        return;
      }
      ret := SetRailEn(1);
      ev := [EnsuredReady(0), Rail(1, ret)];
      if ret != 0 {
        return;
      }
      SleepMs(T_RAIL_SETTLE_MS);
      ghost var pulse;
      ret, pulse := PwrOnPulse(T_PWR_ON_PULSE_MS);
      ev := [EnsuredReady(0), Rail(1, 0), Slept(T_RAIL_SETTLE_MS)] + pulse
            + (if ret == 0 then [Slept(T_POST_ON_DELAY_MS)] else []);
      if ret != 0 {
        return;
      }
      SleepMs(T_POST_ON_DELAY_MS);
    }

    method PowerOffCore() returns (ret: int, ghost ev: seq<Event>)
      modifies this
      ensures trace == old(trace) + ev && OffTrace(ev, ret)
      ensures old(Faithful()) ==> Faithful()
    {
      ret := EnsureReady();
      ev := [EnsuredReady(ret)];
      if ret != 0 {
        return;
      }
      ghost var pulse;
      ret, pulse := PwrOnPulse(T_PWR_OFF_PULSE_MS);
      ev := [EnsuredReady(0)] + pulse;
      if ret != 0 {
        return;
      }
      ret := SetRailEn(0);
      ev := [EnsuredReady(0)] + pulse + [Rail(0, ret)];
    }

    method PowerCycleCore() returns (ret: int, ghost ev: seq<Event>)
      modifies this
      ensures trace == old(trace) + ev && CycleTrace(ev, ret)
      ensures old(Faithful()) ==> Faithful()
    {
      ghost var off, on;
      ret, off := PowerOffCore();
      ev := off;
      if ret != 0 {
        return;
      }
      SleepMs(T_POWER_CYCLE_DELAY_MS);
      ret, on := PowerOnCore();
      ev := off + [Slept(T_POWER_CYCLE_DELAY_MS)] + on;
    }

    method ResetPulseCore() returns (ret: int, ghost ev: seq<Event>)
      modifies this
      ensures trace == old(trace) + ev && ResetTrace(ev, ret)
      ensures old(Faithful()) ==> Faithful()
    {
      ret := EnsureReady();
      ev := [EnsuredReady(ret)];
      if ret != 0 {
        return;
      }
      ret := SetRstAsserted(true);
      ev := [EnsuredReady(0), Rst(true, ret)];
      if ret != 0 {
        return;
      }
      SleepMs(T_RESET_PULSE_MS);
      ret := SetRstAsserted(false);
      ev := [EnsuredReady(0), Rst(true, 0), Slept(T_RESET_PULSE_MS), Rst(false, ret)];
    }
  }

  // ----- The watcher -----

  /** The pins as the operations leave them, the sleep requested since each was asserted, whether
      the very last operation completed a 1500 ms pulse, and whether all rules held so far. A
      failed operation leaves its pin as it was, but even a failed attempt on the rail with
      PWR_ON asserted breaks a rule; `hot` records that the rail really was switched like that. */
  datatype Watch =
    Watch(pwrOn: bool, rst: bool, pwrMs: nat, rstMs: nat, fullPulse: bool, safe: bool, hot: bool)

  const AT_REST: Watch := Watch(false, false, 0, 0, false, true, false)

  function See(w: Watch, e: Event): Watch {
    match e
    case EnsuredReady(_) => w.(fullPulse := false)
    case Rail(value, ret) =>
      // never while PWR_ON is asserted; off only straight after a completed power-off pulse
      w.(fullPulse := false, safe := w.safe && !w.pwrOn && (value == 0 ==> w.fullPulse),
         hot := w.hot || (ret == 0 && w.pwrOn))
    case PwrOn(asserted, ret) =>
      if ret != 0 then w.(fullPulse := false)
      else if asserted then
        w.(fullPulse := false, pwrOn := true, pwrMs := 0, safe := w.safe && !w.pwrOn)
      else
        w.(pwrOn := false, pwrMs := 0,
           fullPulse := w.pwrOn && w.pwrMs == 1500,
           safe := w.safe && w.pwrOn && (w.pwrMs == 250 || w.pwrMs == 1500))
    case Rst(asserted, ret) =>
      if ret != 0 then w.(fullPulse := false)
      else if asserted then
        w.(fullPulse := false, rst := true, rstMs := 0, safe := w.safe && !w.rst)
      else
        w.(fullPulse := false, rst := false, rstMs := 0,
           safe := w.safe && w.rst && w.rstMs == 200)
    case Slept(ms) =>
      w.(fullPulse := false,
         pwrMs := if w.pwrOn then w.pwrMs + ms else w.pwrMs,
         rstMs := if w.rst then w.rstMs + ms else w.rstMs)
  }

  function WatchAll(w: Watch, ev: seq<Event>): Watch
    decreases |ev|
  {
    if ev == [] then w else WatchAll(See(w, ev[0]), ev[1..])
  }

  /** A pin could not be released. */
  predicate FailedDeassert(e: Event) {
    (e.PwrOn? && !e.asserted && e.ret != 0) || (e.Rst? && !e.asserted && e.ret != 0)
  }

  predicate AllReleased(ev: seq<Event>) {
    forall e | e in ev :: !FailedDeassert(e)
  }

  /** Between calls: both pins released and every rule kept. */
  predicate Resting(w: Watch) {
    w.safe && !w.pwrOn && !w.rst
  }

  lemma {:induction false} WatchConcat(w: Watch, a: seq<Event>, b: seq<Event>)
    ensures WatchAll(w, a + b) == WatchAll(WatchAll(w, a), b)
    decreases |a|
  {
    if a == [] {
      assert a + b == b;
    } else {
      assert (a + b)[1..] == a[1..] + b;
      WatchConcat(See(w, a[0]), a[1..], b);
    }
  }

  lemma {:induction false} WatchNone(w: Watch)
    ensures WatchAll(w, []) == w
  {}

  lemma {:induction false} WatchOne(w: Watch, e: Event)
    ensures WatchAll(w, [e]) == See(w, e)
  {}

  lemma {:induction false} WatchTwo(w: Watch, a: Event, b: Event)
    ensures WatchAll(w, [a, b]) == See(See(w, a), b)
  {
    assert [a, b][1..] == [b];
    WatchOne(See(w, a), b);
  }

  lemma {:induction false} WatchThree(w: Watch, a: Event, b: Event, c: Event)
    ensures WatchAll(w, [a, b, c]) == See(See(See(w, a), b), c)
  {
    assert [a, b, c][1..] == [b, c];
    WatchTwo(See(w, a), b, c);
  }

  lemma {:induction false} PulseWatched(w: Watch, ms: nat, ev: seq<Event>, ret: int)
    requires Resting(w) && PulseTrace(ms, ev, ret)
    requires ms == T_PWR_ON_PULSE_MS || ms == T_PWR_OFF_PULSE_MS
    ensures var v := WatchAll(w, ev);
            && v.safe && !v.rst && (v.pwrOn <==> !AllReleased(ev))
            && (ret == 0 ==> !v.pwrOn && (v.fullPulse <==> ms == T_PWR_OFF_PULSE_MS))
  {
    if ev == [PwrOn(true, ret)] {
      WatchOne(w, PwrOn(true, ret));
    } else {
      assert ev[2] in ev;
      WatchThree(w, PwrOn(true, 0), Slept(ms), PwrOn(false, ret));
    }
  }

  lemma {:induction false} ReleasedConcat(a: seq<Event>, b: seq<Event>)
    ensures AllReleased(a + b) <==> AllReleased(a) && AllReleased(b)
  {}

  /** A watched call that kept every rule and ended with its pins as the releases left them. */
  ghost predicate EndsWell(w: Watch, ev: seq<Event>) {
    var v := WatchAll(w, ev);
    v.safe && (!v.pwrOn && !v.rst <==> AllReleased(ev))
  }

  lemma {:induction false} OnWatched(w: Watch, ev: seq<Event>, ret: int)
    requires Resting(w) && OnTrace(ev, ret)
    ensures EndsWell(w, ev)
  {
    if ev == [EnsuredReady(ret)] {
      WatchOne(w, ev[0]);
    } else if ev == [EnsuredReady(0), Rail(1, ret)] {
      WatchTwo(w, ev[0], ev[1]);
    } else {
      var pulse :|
        && PulseTrace(T_PWR_ON_PULSE_MS, pulse, ret)
        && ev == [EnsuredReady(0), Rail(1, 0), Slept(T_RAIL_SETTLE_MS)] + pulse
                 + (if ret == 0 then [Slept(T_POST_ON_DELAY_MS)] else []);
      var head := [EnsuredReady(0), Rail(1, 0), Slept(T_RAIL_SETTLE_MS)];
      var tail := if ret == 0 then [Slept(T_POST_ON_DELAY_MS)] else [];
      WatchThree(w, head[0], head[1], head[2]);
      var w1 := WatchAll(w, head);
      PulseWatched(w1, T_PWR_ON_PULSE_MS, pulse, ret);
      var w2 := WatchAll(w1, pulse);
      WatchOne(w2, Slept(T_POST_ON_DELAY_MS));
      WatchConcat(w, head, pulse);
      WatchConcat(w, head + pulse, tail);
      ReleasedConcat(head, pulse);
      ReleasedConcat(head + pulse, tail);
    }
  }

  lemma {:induction false} OffWatched(w: Watch, ev: seq<Event>, ret: int)
    requires Resting(w) && OffTrace(ev, ret)
    ensures EndsWell(w, ev)
    ensures ret == 0 ==> Resting(WatchAll(w, ev))
  {
    var head := [EnsuredReady(0)];
    WatchOne(w, head[0]);
    var w1 := WatchAll(w, head);
    if ev == [EnsuredReady(ret)] {
      WatchOne(w, ev[0]);
    } else if pulse :| PulseTrace(T_PWR_OFF_PULSE_MS, pulse, 0) && ev == head + pulse + [Rail(0, ret)] {
      PulseWatched(w1, T_PWR_OFF_PULSE_MS, pulse, 0);
      WatchOne(WatchAll(w1, pulse), Rail(0, ret));
      WatchConcat(w, head, pulse);
      WatchConcat(w, head + pulse, [Rail(0, ret)]);
      ReleasedConcat(head, pulse);
      ReleasedConcat(head + pulse, [Rail(0, ret)]);
    } else {
      var pulse :| PulseTrace(T_PWR_OFF_PULSE_MS, pulse, ret) && ev == head + pulse;
      PulseWatched(w1, T_PWR_OFF_PULSE_MS, pulse, ret);
      WatchConcat(w, head, pulse);
      ReleasedConcat(head, pulse);
    }
  }

  lemma {:induction false} CycleWatched(w: Watch, ev: seq<Event>, ret: int)
    requires Resting(w) && CycleTrace(ev, ret)
    ensures EndsWell(w, ev)
  {
    if off, on :| OffTrace(off, 0) && OnTrace(on, ret) && ev == off + [Slept(T_POWER_CYCLE_DELAY_MS)] + on {
      var pause := [Slept(T_POWER_CYCLE_DELAY_MS)];
      OffWatched(w, off, 0);
      var w1 := WatchAll(w, off);
      WatchOne(w1, pause[0]);
      OnWatched(WatchAll(w1, pause), on, ret);
      WatchConcat(w, off, pause);
      WatchConcat(w, off + pause, on);
      ReleasedConcat(off, pause);
      ReleasedConcat(off + pause, on);
    } else {
      OffWatched(w, ev, ret);
    }
  }

  lemma {:induction false} ResetWatched(w: Watch, ev: seq<Event>, ret: int)
    requires Resting(w) && ResetTrace(ev, ret)
    ensures EndsWell(w, ev)
  {
    if ev == [EnsuredReady(ret)] {
      WatchOne(w, ev[0]);
    } else if ev == [EnsuredReady(0), Rst(true, ret)] {
      WatchTwo(w, ev[0], ev[1]);
    } else {
      assert ev[3] in ev;
      assert ev == [ev[0]] + [ev[1], ev[2], ev[3]];
      WatchConcat(w, [ev[0]], [ev[1], ev[2], ev[3]]);
      WatchOne(w, ev[0]);
      WatchThree(See(w, ev[0]), ev[1], ev[2], ev[3]);
    }
  }

  /** One call from rest keeps every rule whatever fails, and ends with both pins released
      exactly when no release of its own failed. */
  lemma {:induction false} CallKeepsRules(w: Watch, call: Call, ev: seq<Event>, ret: int)
    requires Resting(w) && CallTrace(call, ev, ret)
    ensures WatchAll(w, ev).safe
    ensures Resting(WatchAll(w, ev)) <==> AllReleased(ev)
  {
    match call {
      case PowerOn => OnWatched(w, ev, ret);
      case PowerOff => OffWatched(w, ev, ret);
      case PowerCycle => CycleWatched(w, ev, ret);
      case ResetPulse => ResetWatched(w, ev, ret);
    }
  }

  /** A call that was made: what it attempted and returned. */
  datatype Made = Made(call: Call, ev: seq<Event>, ret: int)

  ghost predicate IsRun(calls: seq<Made>) {
    forall m | m in calls :: CallTrace(m.call, m.ev, m.ret)
  }

  function Attempted(calls: seq<Made>): seq<Event> {
    if calls == [] then [] else Attempted(calls[..|calls| - 1]) + calls[|calls| - 1].ev
  }

  /** The pins and the verdict after a run of calls from power-up. */
  function After(calls: seq<Made>): Watch {
    WatchAll(AT_REST, Attempted(calls))
  }

  // ----- Calls from any state -----

  lemma {:induction false} BrokenStaysBroken(w: Watch, ev: seq<Event>)
    requires !w.safe
    ensures !WatchAll(w, ev).safe
    decreases |ev|
  {
    if ev != [] {
      BrokenStaysBroken(See(w, ev[0]), ev[1..]);
    }
  }

  /** A pulse from any state releases PWR_ON exactly when both its operations succeed; started
      with PWR_ON asserted it breaks a rule unless it changes nothing. */
  lemma {:induction false} PulseFromAnywhere(w: Watch, ms: nat, ev: seq<Event>, ret: int)
    requires PulseTrace(ms, ev, ret)
    ensures var v := WatchAll(w, ev);
            && v.rst == w.rst && v.hot == w.hot
            && v.pwrOn == (if PwrOn(true, 0) in ev then FailedDeassert(ev[|ev| - 1]) else w.pwrOn)
            && (w.pwrOn && v.safe ==> v.pwrOn && PwrOn(true, 0) !in ev)
            && (ret == 0 ==> PwrOn(true, 0) in ev && !v.pwrOn)
  {
    if ev == [PwrOn(true, ret)] {
      WatchOne(w, PwrOn(true, ret));
    } else {
      assert ev[0] == PwrOn(true, 0);
      WatchThree(w, PwrOn(true, 0), Slept(ms), PwrOn(false, ret));
    }
  }

  /** What `power on` does to any state. */
  lemma {:induction false} OnFromAnywhere(w: Watch, ev: seq<Event>, ret: int)
    requires OnTrace(ev, ret)
    ensures var v := WatchAll(w, ev);
            && v.rst == w.rst
            && v.pwrOn == (if PwrOn(true, 0) in ev then FailedDeassert(ev[|ev| - 1]) else w.pwrOn)
            && v.hot == (w.hot || (w.pwrOn && Rail(1, 0) in ev))
            && (w.pwrOn && w.safe ==> (v.safe <==> |ev| == 1))
            && (w.pwrOn && v.safe ==> v.pwrOn)
  {
    hide WatchAll, PulseTrace;
    if ev == [EnsuredReady(ret)] {
      WatchOne(w, ev[0]);
    } else if ev == [EnsuredReady(0), Rail(1, ret)] {
      WatchTwo(w, ev[0], ev[1]);
    } else {
      var pulse :|
        && PulseTrace(T_PWR_ON_PULSE_MS, pulse, ret)
        && ev == [EnsuredReady(0), Rail(1, 0), Slept(T_RAIL_SETTLE_MS)] + pulse
                 + (if ret == 0 then [Slept(T_POST_ON_DELAY_MS)] else []);
      var head := [EnsuredReady(0), Rail(1, 0), Slept(T_RAIL_SETTLE_MS)];
      var tail := if ret == 0 then [Slept(T_POST_ON_DELAY_MS)] else [];
      WatchThree(w, head[0], head[1], head[2]);
      var w1 := WatchAll(w, head);
      PulseFromAnywhere(w1, T_PWR_ON_PULSE_MS, pulse, ret);
      WatchOne(WatchAll(w1, pulse), Slept(T_POST_ON_DELAY_MS));
      WatchNone(WatchAll(w1, pulse));
      WatchConcat(w, head, pulse);
      WatchConcat(w, head + pulse, tail);
      assert ev[1] == Rail(1, 0);
      if !w1.safe {
        BrokenStaysBroken(w1, pulse);
      }
    }
  }

  /** What `power off` does to any state. */
  lemma {:induction false} OffFromAnywhere(w: Watch, ev: seq<Event>, ret: int)
    requires OffTrace(ev, ret)
    ensures var v := WatchAll(w, ev);
            && v.rst == w.rst && v.hot == w.hot
            && v.pwrOn == (if PwrOn(true, 0) in ev then FailedDeassert(ev[|ev| - 1]) else w.pwrOn)
            && (ret == 0 ==> PwrOn(true, 0) in ev && !v.pwrOn)
            && (w.pwrOn && v.safe ==> v.pwrOn)
  {
    var head := [EnsuredReady(0)];
    WatchOne(w, head[0]);
    var w1 := WatchAll(w, head);
    if ev == [EnsuredReady(ret)] {
      WatchOne(w, ev[0]);
    } else if pulse :| PulseTrace(T_PWR_OFF_PULSE_MS, pulse, 0) && ev == head + pulse + [Rail(0, ret)] {
      PulseFromAnywhere(w1, T_PWR_OFF_PULSE_MS, pulse, 0);
      var w2 := WatchAll(w1, pulse);
      WatchOne(w2, Rail(0, ret));
      WatchConcat(w, head, pulse);
      WatchConcat(w, head + pulse, [Rail(0, ret)]);
    } else {
      var pulse :| PulseTrace(T_PWR_OFF_PULSE_MS, pulse, ret) && ev == head + pulse;
      PulseFromAnywhere(w1, T_PWR_OFF_PULSE_MS, pulse, ret);
      WatchConcat(w, head, pulse);
    }
  }

  /** What `power cycle` does to any state. */
  lemma {:induction false} CycleFromAnywhere(w: Watch, ev: seq<Event>, ret: int)
    requires CycleTrace(ev, ret)
    ensures var v := WatchAll(w, ev);
            && v.rst == w.rst && v.hot == w.hot
            && v.pwrOn == (if PwrOn(true, 0) in ev then FailedDeassert(ev[|ev| - 1]) else w.pwrOn)
            && (w.pwrOn && v.safe ==> v.pwrOn)
  {
    if off, on :| OffTrace(off, 0) && OnTrace(on, ret) && ev == off + [Slept(T_POWER_CYCLE_DELAY_MS)] + on {
      var pause := [Slept(T_POWER_CYCLE_DELAY_MS)];
      OffFromAnywhere(w, off, 0);
      var w1 := WatchAll(w, off);
      WatchOne(w1, pause[0]);
      var w2 := WatchAll(w1, pause);
      OnFromAnywhere(w2, on, ret);
      WatchConcat(w, off, pause);
      WatchConcat(w, off + pause, on);
      if !w1.safe {
        BrokenStaysBroken(w2, on);
      }
    } else {
      OffFromAnywhere(w, ev, ret);
    }
  }

  /** What `reset` does to any state. */
  lemma {:induction false} ResetFromAnywhere(w: Watch, ev: seq<Event>, ret: int)
    requires ResetTrace(ev, ret)
    ensures var v := WatchAll(w, ev);
            v.pwrOn == w.pwrOn && v.hot == w.hot && PwrOn(true, 0) !in ev && (w.rst && v.safe ==> v.rst)
  {
    if ev == [EnsuredReady(ret)] {
      WatchOne(w, ev[0]);
    } else if ev == [EnsuredReady(0), Rst(true, ret)] {
      WatchTwo(w, ev[0], ev[1]);
    } else {
      assert ev == [ev[0]] + [ev[1], ev[2], ev[3]];
      WatchConcat(w, [ev[0]], [ev[1], ev[2], ev[3]]);
      WatchOne(w, ev[0]);
      WatchThree(See(w, ev[0]), ev[1], ev[2], ev[3]);
    }
  }

  /** One call from any state, with any failures: a call that did assert PWR_ON leaves it
      asserted exactly when its last operation is a failed release, and any other call leaves it
      as it was; only a power-on switches the rail with PWR_ON asserted, exactly when it found it
      asserted and the rail operation worked; and no call mends a state that is not at rest. */
  lemma {:induction false} CallFromAnywhere(w: Watch, call: Call, ev: seq<Event>, ret: int)
    requires CallTrace(call, ev, ret)
    ensures var v := WatchAll(w, ev);
            && v.pwrOn == (if PwrOn(true, 0) in ev then FailedDeassert(ev[|ev| - 1]) else w.pwrOn)
            && v.hot == (w.hot || (call == PowerOn && w.pwrOn && Rail(1, 0) in ev))
            && (!Resting(w) ==> !Resting(v))
  {
    match call {
      case PowerOn => OnFromAnywhere(w, ev, ret);
      case PowerOff => OffFromAnywhere(w, ev, ret);
      case PowerCycle => CycleFromAnywhere(w, ev, ret);
      case ResetPulse => ResetFromAnywhere(w, ev, ret);
    }
    if !w.safe {
      BrokenStaysBroken(w, ev);
    }
  }

  /** Found asserted, PWR_ON makes every power-on break a rule that gets past its readiness
      check. */
  lemma {:induction false} PowerOnWhileAsserted(w: Watch, ev: seq<Event>, ret: int)
    requires OnTrace(ev, ret) && w.safe && w.pwrOn
    ensures WatchAll(w, ev).safe <==> ev == [EnsuredReady(ret)]
  {
    OnFromAnywhere(w, ev, ret);
  }

  // ----- Whole runs -----

  lemma {:induction false} NothingMadeYet()
    ensures After([]) == AT_REST
  {}

  lemma {:induction false} AfterOneMore(calls: seq<Made>)
    requires calls != []
    ensures After(calls) == WatchAll(After(calls[..|calls| - 1]), calls[|calls| - 1].ev)
  {
    WatchConcat(AT_REST, Attempted(calls[..|calls| - 1]), calls[|calls| - 1].ev);
  }

  /** A run of calls with any failures has kept every rule and released both pins if and only if
      no release failed in it. */
  lemma {:induction false} RunsKeepRules(calls: seq<Made>)
    requires IsRun(calls)
    ensures Resting(After(calls)) <==> forall m | m in calls :: AllReleased(m.ev)
    decreases |calls|
  {
    hide WatchAll, AllReleased, CallTrace;
    if calls == [] {
      NothingMadeYet();
    } else {
      var init, last := calls[..|calls| - 1], calls[|calls| - 1];
      assert calls == init + [last];
      RunsKeepRules(init);
      AfterOneMore(calls);
      if Resting(After(init)) {
        CallKeepsRules(After(init), last.call, last.ev, last.ret);
      } else {
        CallFromAnywhere(After(init), last.call, last.ev, last.ret);
      }
    }
  }

  /** PWR_ON was left asserted: of the calls that asserted it, the last one ended in a failed
      release. */
  predicate LeftAsserted(calls: seq<Made>) {
    if calls == [] then false
    else
      var last := calls[|calls| - 1];
      if PwrOn(true, 0) in last.ev then FailedDeassert(last.ev[|last.ev| - 1])
      else LeftAsserted(calls[..|calls| - 1])
  }

  lemma {:induction false} LeftAssertedIsThePin(calls: seq<Made>)
    requires IsRun(calls)
    ensures After(calls).pwrOn <==> LeftAsserted(calls)
    decreases |calls|
  {
    if calls != [] {
      var init, last := calls[..|calls| - 1], calls[|calls| - 1];
      assert calls == init + [last];
      LeftAssertedIsThePin(init);
      AfterOneMore(calls);
      CallFromAnywhere(After(init), last.call, last.ev, last.ret);
    }
  }

  /** The rail is switched while PWR_ON is asserted exactly in the runs that make a power-on call
      whose rail operation works while PWR_ON was left asserted. */
  lemma {:induction false} RailSwitchedAssertedExactly(calls: seq<Made>)
    requires IsRun(calls)
    ensures After(calls).hot <==>
              exists j :: 0 <= j < |calls| && calls[j].call == PowerOn && Rail(1, 0) in calls[j].ev
                          && LeftAsserted(calls[..j])
    decreases |calls|
  {
    hide WatchAll, CallTrace, LeftAsserted;
    if calls == [] {
      NothingMadeYet();
    } else {
      var n := |calls| - 1;
      var init, last := calls[..n], calls[n];
      assert calls == init + [last];
      RailSwitchedAssertedExactly(init);
      LeftAssertedIsThePin(init);
      AfterOneMore(calls);
      CallFromAnywhere(After(init), last.call, last.ev, last.ret);
      assert forall j | 0 <= j < n :: init[j] == calls[j] && init[..j] == calls[..j];
    }
  }

  /** Such a run: the release of a power-off fails, and the next power-on, in which everything
      works, switches the rail with PWR_ON asserted. */
  lemma {:induction false} FailedReleaseBreaksOrder(r: int)
    requires r != 0
    ensures var off := [EnsuredReady(0), PwrOn(true, 0), Slept(T_PWR_OFF_PULSE_MS), PwrOn(false, r)];
            var on := [EnsuredReady(0), Rail(1, 0), Slept(T_RAIL_SETTLE_MS), PwrOn(true, 0),
                       Slept(T_PWR_ON_PULSE_MS), PwrOn(false, 0), Slept(T_POST_ON_DELAY_MS)];
            var calls := [Made(PowerOff, off, r), Made(PowerOn, on, 0)];
            IsRun(calls) && After(calls).hot && !After(calls).safe
  {
    hide WatchAll;
    var pulse := [PwrOn(true, 0), Slept(T_PWR_OFF_PULSE_MS), PwrOn(false, r)];
    var off := [EnsuredReady(0), PwrOn(true, 0), Slept(T_PWR_OFF_PULSE_MS), PwrOn(false, r)];
    assert off == [EnsuredReady(0)] + pulse && PulseTrace(T_PWR_OFF_PULSE_MS, pulse, r);
    var onPulse := [PwrOn(true, 0), Slept(T_PWR_ON_PULSE_MS), PwrOn(false, 0)];
    var on := [EnsuredReady(0), Rail(1, 0), Slept(T_RAIL_SETTLE_MS), PwrOn(true, 0),
               Slept(T_PWR_ON_PULSE_MS), PwrOn(false, 0), Slept(T_POST_ON_DELAY_MS)];
    assert on == [EnsuredReady(0), Rail(1, 0), Slept(T_RAIL_SETTLE_MS)] + onPulse + [Slept(T_POST_ON_DELAY_MS)];
    assert PulseTrace(T_PWR_ON_PULSE_MS, onPulse, 0);
    var calls := [Made(PowerOff, off, r), Made(PowerOn, on, 0)];
    assert off[1] == PwrOn(true, 0) && FailedDeassert(off[3]);
    assert LeftAsserted(calls[..1]);
    assert on[1] == Rail(1, 0);
    RailSwitchedAssertedExactly(calls);
    CallKeepsRules(AT_REST, PowerOff, off, r);
    AfterOneMore(calls);
    AfterOneMore(calls[..1]);
    assert calls[..1][..0] == [];
    NothingMadeYet();
    LeftAssertedIsThePin(calls[..1]);
    PowerOnWhileAsserted(After(calls[..1]), on, 0);
  }

  function SleepIn(ev: seq<Event>): nat {
    if ev == [] then 0 else (if ev[0].Slept? then ev[0].ms else 0) + SleepIn(ev[1..])
  }

  /** A successful power cycle switches the rail off, asks for at least 500 ms of sleep, and
      only then switches it on. */
  lemma {:induction false} CycleRestsTheRail(ev: seq<Event>)
    requires CycleTrace(ev, 0)
    ensures exists i, j ::
              0 <= i < j < |ev| && ev[i] == Rail(0, 0) && ev[j] == Rail(1, 0)
              && SleepIn(ev[i + 1..j]) >= 500
  {
    var off, on :| OffTrace(off, 0) && OnTrace(on, 0) && ev == off + [Slept(T_POWER_CYCLE_DELAY_MS)] + on;
    var i, j := |off| - 1, |off| + 2;
    assert ev[i] == Rail(0, 0) && ev[j] == on[1] == Rail(1, 0);
    var gap := ev[i + 1..j];
    assert gap == [Slept(T_POWER_CYCLE_DELAY_MS), EnsuredReady(0)];
    assert gap[1..] == [EnsuredReady(0)];
    assert SleepIn(gap) >= T_POWER_CYCLE_DELAY_MS;
  }
}

/**
  The receive ownership, the AT session and the passthrough of the modem shell.

  The class holds the static state of the shell's UART code. Between any two writes of the
  shell thread `Preempt` lets the interrupt handler and the RX thread do whatever the schedule
  says. A ghost history records every write as a step of RxMachine, and the class invariant
  says that history is a legal run ending in the present state.
 */
module ModemShell {
  import opened ByteText
  import opened Platform
  import opened RxMachine
  import Escape
  import Printers

  /** An interrupt with the results of its successive FIFO reads, or a turn of the RX thread. */
  datatype EnvEvent = Interrupt(fifo: seq<bytes>) | ThreadTurn

  function EventBytes(e: EnvEvent): nat {
    match e
    case Interrupt(fifo) => |Flatten(fifo)|
    case ThreadTurn => 0
  }

  function BurstBytes(burst: seq<EnvEvent>): nat {
    if burst == [] then 0 else EventBytes(burst[0]) + BurstBytes(burst[1..])
  }

  function PendingBytes(schedule: seq<seq<EnvEvent>>): nat {
    if schedule == [] then 0 else BurstBytes(schedule[0]) + PendingBytes(schedule[1..])
  }

  /** What one interrupt does: a step for every FIFO read, cut to 64 bytes, up to the first empty
      one. */
  function IsrSteps(fifo: seq<bytes>): seq<Step> {
    if fifo == [] || fifo[0] == [] then []
    else [Isr(fifo[0][..Min(64, |fifo[0]|)])] + IsrSteps(fifo[1..])
  }

  /** Interrupts happen only while they are enabled. */
  function EventSteps(irq: bool, e: EnvEvent): seq<Step> {
    match e
    case Interrupt(fifo) => if irq then IsrSteps(fifo) else []
    case ThreadTurn => [RxThread]
  }

  function BurstSteps(irq: bool, burst: seq<EnvEvent>): seq<Step> {
    if burst == [] then [] else EventSteps(irq, burst[0]) + BurstSteps(irq, burst[1..])
  }

  /** What happens in the next gap. */
  function NextBurst(irq: bool, schedule: seq<seq<EnvEvent>>): seq<Step> {
    if schedule == [] then [] else BurstSteps(irq, schedule[0])
  }

  /** The history so far, what the environment will still do, and whether it may interrupt. */
  datatype Course = Course(run: seq<Step>, schedule: seq<seq<EnvEvent>>, irq: bool)

  function IrqAfter(irq: bool, step: Step): bool {
    match step
    case EnableIrq => true
    case MaskIrq => false
    case _ => irq
  }

  /** The shell thread takes these steps, and after each of them comes one gap. */
  function Walk(c: Course, steps: seq<Step>): Course
    decreases |steps|
  {
    if steps == [] then c
    else
      var irq := IrqAfter(c.irq, steps[0]);
      Walk(Course(c.run + [steps[0]] + NextBurst(irq, c.schedule), Rest(c.schedule, 1), irq), steps[1..])
  }

  /** The reader's turn: first the gap, then the read. */
  function ReadTurn(c: Course): Course {
    Course(c.run + NextBurst(c.irq, c.schedule) + [AtRead], Rest(c.schedule, 1), c.irq)
  }

  /** What that read gets: at most 64 bytes, whatever the ring then holds. */
  function ReadData(c: Course): bytes {
    var ring := Exec(c.run + NextBurst(c.irq, c.schedule)).ring;
    ring[..Min(64, |ring|)]
  }

  /** The writes of the shell thread's operations, in order. */
  function AcquireSteps(owner: Owner): seq<Step> {
    [Claim(owner), ClearRing, EnableIrq]
  }

  const RELEASE_STEPS: seq<Step> := [MaskIrq, DrainRing, Disown]
  const FORGET_STEPS: seq<Step> := [UnsetShell, ResetTail, ResetMode, FinalReset]

  function WireSteps(debug: bool): seq<Step> {
    [SetShell, ClearTail, SetMode(debug), Activate]
  }

  function StartSteps(debug: bool): seq<Step> {
    [Configure] + AcquireSteps(Passthrough) + WireSteps(debug)
  }

  function StopSteps(): seq<Step> {
    [Deactivate] + RELEASE_STEPS + FORGET_STEPS
  }

  lemma {:induction false} WalkOne(c: Course, step: Step)
    ensures var irq := IrqAfter(c.irq, step);
            Walk(c, [step]) == Course(c.run + [step] + NextBurst(irq, c.schedule), Rest(c.schedule, 1), irq)
  {
    hide NextBurst;
    assert [step][1..] == [];
  }

  lemma {:induction false} WalkConcat(c: Course, a: seq<Step>, b: seq<Step>)
    ensures Walk(c, a + b) == Walk(Walk(c, a), b)
    decreases |a|
  {
    if a == [] {
      assert a + b == b;
    } else {
      var irq := IrqAfter(c.irq, a[0]);
      assert (a + b)[1..] == a[1..] + b;
      WalkConcat(Course(c.run + [a[0]] + NextBurst(irq, c.schedule), Rest(c.schedule, 1), irq), a[1..], b);
    }
  }

  lemma {:induction false} WalkTwo(c: Course, a: Step, b: Step)
    ensures Walk(c, [a, b]) == Walk(Walk(c, [a]), [b])
  {
    hide Walk;
    WalkConcat(c, [a], [b]);
    assert [a] + [b] == [a, b];
  }

  lemma {:induction false} WalkThree(c: Course, x: Step, y: Step, z: Step)
    ensures Walk(c, [x, y, z]) == Walk(Walk(Walk(c, [x]), [y]), [z])
  {
    hide Walk;
    WalkConcat(c, [x], [y, z]);
    assert [x] + [y, z] == [x, y, z];
    WalkTwo(Walk(c, [x]), y, z);
  }

  lemma {:induction false} WalkFour(c: Course, w: Step, x: Step, y: Step, z: Step)
    ensures Walk(c, [w, x, y, z]) == Walk(Walk(Walk(Walk(c, [w]), [x]), [y]), [z])
  {
    hide Walk;
    WalkConcat(c, [w], [x, y, z]);
    assert [w] + [x, y, z] == [w, x, y, z];
    WalkThree(Walk(c, [w]), x, y, z);
  }

  const DEBUG_OPTION: bytes := [45, 45, 100, 101, 98, 117, 103] // "--debug"

  /** How a chunk taken from the ring appears on the shell. */
  function Shown(data: bytes, debug: bool): bytes {
    if data == [] then [] else if debug then Printers.TraceLine(data) else Printers.Render(data)
  }

  /** What the handler and the RX thread will do, one burst per gap between two writes. */
  class Actors {
    var schedule: seq<seq<EnvEvent>>

    constructor (schedule: seq<seq<EnvEvent>>)
      ensures this.schedule == schedule
    {
      this.schedule := schedule;
    }
  }

  class Shell {
    const uart: Uart
    const actors: Actors

    var modemUartRxOwner: Owner
    var rxIrqEnabled: bool
    var modemUartRxIrqConfigured: bool
    var modemUartRxRing: bytes
    var passthroughActive: bool
    var passthroughShell: Option<nat>
    var passthroughTail: byte
    var passthroughDebugMode: bool
    var passthroughThreadStarted: bool

    ghost var pc: Pc
    ghost var sessions: seq<Session>
    ghost var run: seq<Step>
    ghost var typed: bytes  // what this passthrough session forwarded to the modem
    ghost var shown: bytes  // what the RX thread printed in this passthrough session

    ghost function View(): State
      reads this
    {
      State(modemUartRxOwner, rxIrqEnabled, modemUartRxIrqConfigured, modemUartRxRing,
            passthroughActive, passthroughShell.Some?, passthroughTail, passthroughDebugMode, pc, sessions)
    }

    /** The part of the state only the shell thread writes. */
    ghost function Control(): State
      reads this
    {
      View().(ring := [], sessions := [])
    }

    ghost predicate Tracked()
      reads this
    {
      Legal(run) && Exec(run) == View() && Inv(View())
    }

    /** The passthrough session as the escape detector sees it. */
    ghost function Typing(): Escape.Session
      reads this
    {
      Escape.Session(passthroughActive, passthroughTail, typed)
    }

    ghost function Now(): Course
      reads this, actors
    {
      Course(run, actors.schedule, rxIrqEnabled)
    }

    /** What the passthrough has shown is the text of all it delivered, or its trace. */
    ghost predicate ShownFaithfully()
      reads this
    {
      if passthroughDebugMode then Printers.Traced(shown, LastDelivered())
      else shown == Printers.Render(LastDelivered())
    }

    ghost predicate Valid()
      reads this
    {
      && Tracked()
      && (passthroughActive ==>
            && passthroughTail == Escape.TailOf(typed) && !Escape.HasPair(typed)
            && ShownFaithfully())
    }

    ghost function LastDelivered(): bytes
      reads this`sessions
    {
      if sessions == [] then [] else sessions[|sessions| - 1].delivered
    }

    ghost function Backlog(): nat
      reads this`modemUartRxRing, actors
    {
      |modemUartRxRing| + PendingBytes(actors.schedule)
    }

    constructor (uart: Uart, actors: Actors)
      ensures Valid() && this.uart == uart && this.actors == actors
      ensures View() == INIT && run == [] && !passthroughThreadStarted
    {
      this.uart := uart;
      this.actors := actors;
      modemUartRxOwner := Nobody;
      rxIrqEnabled, modemUartRxIrqConfigured, modemUartRxRing := false, false, [];
      passthroughActive, passthroughShell, passthroughTail := false, None, NUL;
      passthroughDebugMode, passthroughThreadStarted := false, false;
      pc, sessions, run, typed, shown := Ready, [], [], [], [];
    }

    /** Records the write just made as a step of the machine. */
    ghost method Note(before: State, step: Step)
      requires Legal(run) && Exec(run) == before && Inv(before)
      requires Enabled(before, step) && View() == Apply(before, step)
      modifies this`run
      ensures Tracked() && run == old(run) + [step]
    {
      Extend(run, step);
      StepKeepsInv(before, step);
      hide Exec, Legal, Apply, Enabled, Inv;
      run := run + [step];
    }

    // ----- The environment -----

    method RingPut(data: bytes)
      modifies this`modemUartRxRing
      ensures modemUartRxRing == old(modemUartRxRing) + Fitting(old(modemUartRxRing), data)
    {
      modemUartRxRing := modemUartRxRing + Fitting(modemUartRxRing, data);
    }

    method RingGet(size: nat) returns (data: bytes)
      modifies this`modemUartRxRing
      ensures data == old(modemUartRxRing)[..Min(size, |old(modemUartRxRing)|)]
      ensures modemUartRxRing == old(modemUartRxRing)[Min(size, |old(modemUartRxRing)|)..]
    {
      var n := Min(size, |modemUartRxRing|);
      data := modemUartRxRing[..n];
      modemUartRxRing := modemUartRxRing[n..];
    }

    /** One FIFO read of the handler goes to the ring. */
    method StoreRead(received: bytes)
      requires Valid() && rxIrqEnabled && 1 <= |received| <= CHUNK_SIZE
      modifies this`modemUartRxRing, this`sessions, this`run
      ensures Valid() && |sessions| == |old(sessions)|
      ensures run == old(run) + [Isr(received)]
      ensures LastDelivered() == old(LastDelivered())
      ensures |modemUartRxRing| <= |old(modemUartRxRing)| + |received|
    {
      hide Exec, Legal, Inv, Apply, Enabled, Printers.Render, Printers.Traced, Escape.HasPair;
      ghost var before := View();
      IsrStep(before, received);
      RingPut(received);
      sessions := Accept(sessions, Fitting(before.ring, received));
      Note(before, Isr(received));
    }

    /** The interrupt handler: store each FIFO read, up to 64 bytes at a time, until one is empty. */
    method IrqCallback(fifo: seq<bytes>)
      requires Valid() && rxIrqEnabled
      modifies this`modemUartRxRing, this`sessions, this`run
      ensures Valid() && |sessions| == |old(sessions)|
      ensures run == old(run) + IsrSteps(fifo)
      ensures LastDelivered() == old(LastDelivered())
      ensures |modemUartRxRing| <= |old(modemUartRxRing)| + |Flatten(fifo)|
    {
      hide Valid, LastDelivered, IsrSteps;
      var i := 0;
      assert fifo[..0] == [] && fifo[0..] == fifo;
      while i < |fifo|
        invariant 0 <= i <= |fifo|
        invariant Valid() && |sessions| == |old(sessions)|
        invariant run + IsrSteps(fifo[i..]) == old(run) + IsrSteps(fifo)
        invariant LastDelivered() == old(LastDelivered())
        invariant |modemUartRxRing| <= |old(modemUartRxRing)| + |Flatten(fifo[..i])|
      {
        var received := fifo[i][..Min(CHUNK_SIZE, |fifo[i]|)];
        FlattenPrefix(fifo, i);
        IsrStepsNext(fifo, i, run);
        if received == [] {
          return;
        }
        StoreRead(received);
        assert fifo[..i + 1][..i] == fifo[..i];
        i := i + 1;
      }
      IsrStepsNext(fifo, i, run);
      assert fifo[..|fifo|] == fifo;
    }

    /** One turn of the RX thread's loop. */
    method RxThreadTurn()
      requires Valid()
      modifies this`modemUartRxRing, this`sessions, this`run, this`shown
      ensures Valid() && |sessions| == |old(sessions)| && run == old(run) + [RxThread]
      ensures |modemUartRxRing| <= |old(modemUartRxRing)|
      ensures !passthroughActive ==>
                modemUartRxRing == old(modemUartRxRing) && sessions == old(sessions) && shown == old(shown)
      ensures passthroughActive ==>
                && old(LastDelivered()) <= LastDelivered()
                && shown == old(shown) + Shown(LastDelivered()[|old(LastDelivered())|..], passthroughDebugMode)
    {
      ActiveHasShell();
      hide Valid, Shown, LastDelivered;
      if !passthroughActive || passthroughShell == None {
        ThreadIdles();
        return;
      }
      ThreadTakes();
    }

    lemma {:induction false} ActiveHasShell()
      requires Valid()
      ensures passthroughActive ==> passthroughShell.Some?
    {}

    ghost method ThreadIdles()
      requires Valid() && !passthroughActive
      modifies this`run
      ensures Valid() && run == old(run) + [RxThread]
    {
      hide Exec, Legal, Inv;
      Note(View(), RxThread);
    }

    method ThreadTakes()
      requires Valid() && passthroughActive
      modifies this`modemUartRxRing, this`sessions, this`run, this`shown
      ensures Valid() && |sessions| == |old(sessions)| && run == old(run) + [RxThread]
      ensures |modemUartRxRing| <= |old(modemUartRxRing)|
      ensures old(LastDelivered()) <= LastDelivered()
      ensures shown == old(shown) + Shown(LastDelivered()[|old(LastDelivered())|..], passthroughDebugMode)
    {
      hide Exec, Legal, Inv, Printers.Render, Printers.Traced, Printers.TraceLine, Escape.HasPair;
      var data := TakeChunk();
      assert LastDelivered()[|old(LastDelivered())|..] == data;
      assert data == [] ==> LastDelivered() == old(LastDelivered());
      Printers.RenderConcat(old(LastDelivered()), data);
      Printers.RenderOfNothing();
      if |data| > 0 {
        if passthroughDebugMode {
          Printers.TracedGrows(shown, old(LastDelivered()), data);
        }
        var line := ShowChunk(data);
        shown := shown + line;
      }
    }

    /** The RX thread's ring_buf_get, handing its result to the passthrough session. */
    method TakeChunk() returns (data: bytes)
      requires Tracked() && passthroughActive
      modifies this`modemUartRxRing, this`sessions, this`run
      ensures Tracked() && |sessions| == |old(sessions)| > 0 && run == old(run) + [RxThread]
      ensures |data| <= CHUNK_SIZE && |modemUartRxRing| <= |old(modemUartRxRing)|
      ensures LastDelivered() == old(LastDelivered()) + data
    {
      hide Exec, Legal, Inv, Apply, Enabled;
      ghost var before := View();
      ghost var after := Apply(before, RxThread);
      ThreadStep(before);
      data := RingGet(CHUNK_SIZE);
      sessions := after.sessions;
      Note(before, RxThread);
    }

    method ShowChunk(data: bytes) returns (line: bytes)
      requires 1 <= |data| <= CHUNK_SIZE
      ensures line == Shown(data, passthroughDebugMode)
    {
      if passthroughDebugMode {
        line := Printers.TraceChunk(data);
      } else {
        line := Printers.PrintTextChunk(data);
      }
    }

    method RunBurst(burst: seq<EnvEvent>)
      requires Valid()
      modifies this`modemUartRxRing, this`sessions, this`run, this`shown
      ensures Valid() && |sessions| == |old(sessions)|
      ensures run == old(run) + BurstSteps(rxIrqEnabled, burst)
      ensures |modemUartRxRing| <= |old(modemUartRxRing)| + BurstBytes(burst)
      ensures !passthroughActive ==> LastDelivered() == old(LastDelivered())
      ensures !rxIrqEnabled && !passthroughActive ==>
                modemUartRxRing == old(modemUartRxRing) && sessions == old(sessions)
    {
      hide Valid, Flatten, LastDelivered, BurstSteps, IsrSteps;
      assert burst[0..] == burst;
      for i := 0 to |burst|
        invariant Valid() && |sessions| == |old(sessions)|
        invariant run + BurstSteps(rxIrqEnabled, burst[i..]) == old(run) + BurstSteps(rxIrqEnabled, burst)
        invariant |modemUartRxRing| + BurstBytes(burst[i..]) <= |old(modemUartRxRing)| + BurstBytes(burst)
        invariant !passthroughActive ==> LastDelivered() == old(LastDelivered())
        invariant !rxIrqEnabled && !passthroughActive ==>
                    modemUartRxRing == old(modemUartRxRing) && sessions == old(sessions)
      {
        assert burst[i..][1..] == burst[i + 1..];
        BurstStepsNext(rxIrqEnabled, burst, i, run);
        match burst[i] {
          case Interrupt(fifo) =>
            if rxIrqEnabled {
              IrqCallback(fifo);
            }
          case ThreadTurn =>
            RxThreadTurn();
        }
      }
      NoMoreSteps(rxIrqEnabled, burst, run);
    }

    /** Between two writes of the shell thread: one burst of the schedule. */
    method Preempt()
      requires Valid()
      modifies actors`schedule, this`modemUartRxRing, this`sessions, this`run, this`shown
      ensures Valid() && |sessions| == |old(sessions)| && Control() == old(Control())
      ensures run == old(run) + NextBurst(rxIrqEnabled, old(actors.schedule))
      ensures actors.schedule == Rest(old(actors.schedule), 1)
      ensures Backlog() <= old(Backlog())
      ensures !passthroughActive ==> LastDelivered() == old(LastDelivered())
      ensures !rxIrqEnabled && !passthroughActive ==>
                modemUartRxRing == old(modemUartRxRing) && sessions == old(sessions)
    {
      hide Valid, LastDelivered, BurstSteps, PendingBytes, BurstBytes, Rest;
      PendingStep(actors.schedule);
      if actors.schedule == [] {
        return;
      }
      var burst := actors.schedule[0];
      actors.schedule := actors.schedule[1..];
      RunBurst(burst);
    }

    // ----- Acquire, release, read -----

    method RxPrepare() returns (ret: int)
      requires Valid() && pc == Ready
      modifies this`modemUartRxIrqConfigured, actors`schedule, this`modemUartRxRing, this`sessions, this`run,
               this`shown, uart`answers
      ensures Valid() && Backlog() <= old(Backlog()) && |sessions| == |old(sessions)|
      ensures ret == if old(uart.ReadyNext()) then 0 else -ENODEV
      ensures uart.answers == Rest(old(uart.answers), 1)
      ensures Control() == if ret == 0 then old(Control()).(configured := true) else old(Control())
      ensures Now() == if ret == 0 then Walk(old(Now()), [Configure]) else old(Now())
      ensures Untouched(old(run), run)
    {
      hide Exec, Legal, Printers.Render, Printers.Traced, Escape.HasPair, PendingBytes, Walk, NextBurst, Untouched;
      WalkOne(Now(), Configure);
      ConfigureIsUntouched(Now());
      var ready := uart.IsReady();
      if !ready {
        return -ENODEV;
      }
      ghost var before := View();
      if !modemUartRxIrqConfigured {
        modemUartRxRing := [];
        modemUartRxIrqConfigured := true;
      }
      Note(before, Configure);
      hide Valid;
      Preempt();
      ret := 0;
    }

    /** The owner flag is written. */
    method WriteOwner(owner: Owner)
      requires Valid() && pc == Ready && modemUartRxIrqConfigured && modemUartRxOwner == Nobody != owner
      modifies this`modemUartRxOwner, this`pc, actors`schedule, this`modemUartRxRing, this`sessions,
               this`run, this`shown
      ensures Valid() && Backlog() <= old(Backlog())
      ensures Now() == Walk(old(Now()), [Claim(owner)])
      ensures Control() == old(Control()).(owner := owner, pc := Claimed)
      ensures |sessions| == |old(sessions)| + 1
      ensures LastDelivered() == []
    {
      hide Exec, Legal, Inv, PendingBytes, Printers.Render, Printers.Traced, Escape.HasPair, Walk, NextBurst;
      WalkOne(Now(), Claim(owner));
      FactsNow();
      ghost var before := View();
      modemUartRxOwner := owner;
      pc, sessions := Claimed, sessions + [Session(owner, [], [], {})];
      Note(before, Claim(owner));
      hide Valid;
      Preempt();
    }

    /** ring_buf_reset, wherever the shell thread does it. */
    method ResetRing(ghost next: Pc)
      requires Valid() && ResetStep(pc, next).Some?
      modifies this`pc, actors`schedule, this`modemUartRxRing, this`sessions, this`run, this`shown
      ensures Valid() && Backlog() <= old(Backlog())
      ensures Now() == Walk(old(Now()), [ResetStep(old(pc), next).value])
      ensures Control() == old(Control()).(pc := next)
      ensures !passthroughActive ==> LastDelivered() == old(LastDelivered())
      ensures |sessions| == |old(sessions)|
    {
      hide Exec, Legal, Inv, OwnershipInv, PendingBytes, BurstBytes, Printers.Render, Printers.Traced, Walk, NextBurst;
      WalkOne(Now(), ResetStep(pc, next).value);
      hide Escape.HasPair, Escape.TailOf;
      hide Enabled, Apply;
      ResetIsStep(View(), next);
      ghost var before := View();
      modemUartRxRing := [];
      ghost var step := ResetStep(pc, next).value;
      pc := next;
      Note(before, step);
      hide Valid;
      Preempt();
    }

    /** uart_irq_rx_enable, the last write of an acquire. */
    method EnableRxIrq()
      requires Valid() && pc == Cleared
      modifies this`rxIrqEnabled, this`pc, actors`schedule, this`modemUartRxRing, this`sessions,
               this`run, this`shown
      ensures Valid() && Backlog() <= old(Backlog())
      ensures Now() == Walk(old(Now()), [EnableIrq])
      ensures Control() == old(Control()).(irq := true,
                                           pc := if modemUartRxOwner == AtSession then Opened else Wired)
      ensures !passthroughActive ==> LastDelivered() == old(LastDelivered())
      ensures |sessions| == |old(sessions)|
    {
      hide Exec, Legal, Inv, PendingBytes, Printers.Render, Printers.Traced, Escape.HasPair, Walk, NextBurst;
      WalkOne(Now(), EnableIrq);
      FactsNow();
      ghost var before := View();
      rxIrqEnabled := true;
      pc := if modemUartRxOwner == AtSession then Opened else Wired;
      Note(before, EnableIrq);
      hide Valid;
      Preempt();
    }

    /** uart_irq_rx_disable, the first write of a release. */
    method DisableRxIrq()
      requires Valid() && (pc == Opened || pc == Quieted)
      modifies this`rxIrqEnabled, this`pc, actors`schedule, this`modemUartRxRing, this`sessions,
               this`run, this`shown
      ensures Valid() && Backlog() <= old(Backlog())
      ensures Now() == Walk(old(Now()), [MaskIrq])
      ensures Control() == old(Control()).(irq := false, pc := Masked)
      ensures !passthroughActive ==> LastDelivered() == old(LastDelivered())
      ensures |sessions| == |old(sessions)|
    {
      hide Exec, Legal, Inv, PendingBytes, Printers.Render, Printers.Traced, Escape.HasPair, Walk, NextBurst;
      WalkOne(Now(), MaskIrq);
      FactsNow();
      ghost var before := View();
      rxIrqEnabled := false;
      pc := Masked;
      Note(before, MaskIrq);
      hide Valid;
      Preempt();
    }

    /** The owner flag is cleared, the last write of a release. */
    method ClearOwner()
      requires Valid() && pc == Drained
      modifies this`modemUartRxOwner, this`pc, actors`schedule, this`modemUartRxRing, this`sessions,
               this`run, this`shown
      ensures Valid() && Backlog() <= old(Backlog())
      ensures Now() == Walk(old(Now()), [Disown])
      ensures Control() == old(Control()).(owner := Nobody,
                                           pc := if old(modemUartRxOwner) == AtSession then Ready else Released)
      ensures !passthroughActive ==> LastDelivered() == old(LastDelivered())
      ensures |sessions| == |old(sessions)|
    {
      hide Exec, Legal, Inv, PendingBytes, Printers.Render, Printers.Traced, Escape.HasPair, Walk, NextBurst;
      WalkOne(Now(), Disown);
      FactsNow();
      ghost var before := View();
      pc := if modemUartRxOwner == AtSession then Ready else Released;
      modemUartRxOwner := Nobody;
      Note(before, Disown);
      hide Valid;
      Preempt();
    }

    /** Takes the receive side for `owner` unless somebody has it. */
    method RxAcquire(owner: Owner) returns (ret: int)
      requires Valid() && pc == Ready && owner != Nobody
      modifies this`modemUartRxIrqConfigured, this`modemUartRxOwner, this`rxIrqEnabled, this`pc,
               actors`schedule, this`modemUartRxRing, this`sessions, this`run, this`shown, uart`answers
      ensures Valid() && Backlog() <= old(Backlog())
      ensures ret == if !old(uart.ReadyNext()) then -ENODEV
                     else if old(modemUartRxOwner) != Nobody then -EBUSY else 0
      ensures uart.answers == Rest(old(uart.answers), 1)
      ensures Now() == if !old(uart.ReadyNext()) then old(Now())
                       else Walk(old(Now()), [Configure] + (if ret == 0 then AcquireSteps(owner) else []))
      ensures ret == 0 ==>
                && Control() == old(Control()).(owner := owner, irq := true, configured := true,
                                                pc := if owner == AtSession then Opened else Wired)
                && |sessions| == |old(sessions)| + 1 && LastDelivered() == []
      ensures ret != 0 ==>
                && Control() == old(Control()) && |sessions| == |old(sessions)|
                && Untouched(old(run), run)
    {
      hide Valid, Tracked, OwnershipInv, PendingBytes, LastDelivered, Walk, Rest, Untouched;
      ghost var before := Now();
      FactsNow();
      ret := RxPrepare();
      if ret != 0 {
        return;
      }
      if modemUartRxOwner != Nobody {
        assert [Configure] + [] == [Configure];
        return -EBUSY;
      }
      TakeLine(owner);
      WalkConcat(before, [Configure], AcquireSteps(owner));
    }

    /** The writes of an acquire: the owner, the ring, the interrupt. */
    method TakeLine(owner: Owner)
      requires Valid() && pc == Ready && modemUartRxIrqConfigured && modemUartRxOwner == Nobody != owner
      modifies this`modemUartRxOwner, this`rxIrqEnabled, this`pc, actors`schedule, this`modemUartRxRing,
               this`sessions, this`run, this`shown
      ensures Valid() && Backlog() <= old(Backlog())
      ensures Now() == Walk(old(Now()), AcquireSteps(owner))
      ensures Control() == old(Control()).(owner := owner, irq := true,
                                           pc := if owner == AtSession then Opened else Wired)
      ensures |sessions| == |old(sessions)| + 1 && LastDelivered() == []
    {
      hide Valid, PendingBytes, LastDelivered, Walk, Rest, Untouched;
      WalkThree(Now(), Claim(owner), ClearRing, EnableIrq);
      NotActive();
      WriteOwner(owner);
      ResetRing(Cleared);
      EnableRxIrq();
    }

    lemma {:induction false} NotActive()
      requires Valid() && modemUartRxOwner == Nobody
      ensures !passthroughActive
    {
      hide Exec, Legal;
    }

    /** Gives the receive side back; a caller that does not own it changes nothing. */
    method RxRelease(owner: Owner)
      requires Valid() && owner != Nobody
      requires modemUartRxOwner == owner ==> pc == Opened || pc == Quieted
      modifies this`modemUartRxOwner, this`rxIrqEnabled, this`pc,
               actors`schedule, this`modemUartRxRing, this`sessions, this`run, this`shown
      ensures Valid() && Backlog() <= old(Backlog())
      ensures old(modemUartRxOwner) == owner ==> Now() == Walk(old(Now()), RELEASE_STEPS)
      ensures old(modemUartRxOwner) != owner ==> View() == old(View()) && run == old(run)
      ensures old(modemUartRxOwner) == owner ==>
                Control() == old(Control()).(owner := Nobody, irq := false,
                                             pc := if owner == AtSession then Ready else Released)
      ensures |sessions| == |old(sessions)|
      ensures !passthroughActive ==> LastDelivered() == old(LastDelivered())
    {
      hide Valid, Tracked, PendingBytes, LastDelivered, Walk;
      WalkThree(Now(), MaskIrq, DrainRing, Disown);
      if modemUartRxOwner != owner {
        return;
      }
      DisableRxIrq();
      ResetRing(Drained);
      ClearOwner();
    }

    /** The AT reader's turn: whatever has arrived, up to 64 bytes. */
    method RxRead() returns (data: bytes)
      requires Valid() && pc == Opened
      modifies actors`schedule, this`modemUartRxRing, this`sessions, this`run, this`shown
      ensures Valid() && |data| <= CHUNK_SIZE && Control() == old(Control())
      ensures data == ReadData(old(Now())) && Now() == ReadTurn(old(Now()))
      ensures Backlog() + |data| <= old(Backlog())
      ensures |sessions| == |old(sessions)|
      ensures LastDelivered() == old(LastDelivered()) + data
    {
      hide Exec, Legal, Inv, Printers.Render, Printers.Traced, Escape.HasPair, PendingBytes, NextBurst;
      FactsNow();
      Preempt();
      FactsNow();
      ghost var before := View();
      data := RingGet(CHUNK_SIZE);
      sessions := Deliver(sessions, data, AtSession);
      Note(before, AtRead);
    }

    // ----- The AT session -----

    method AtSessionOpen(response: array?<byte>, responseSize: nat) returns (ret: int)
      requires Valid() && pc == Ready
      requires response != null ==> responseSize <= response.Length
      modifies this`modemUartRxIrqConfigured, this`modemUartRxOwner, this`rxIrqEnabled, this`pc,
               actors`schedule, this`modemUartRxRing, this`sessions, this`run, this`shown, uart`answers, response
      ensures Valid() && Backlog() <= old(Backlog())
      ensures var valid := response != null && responseSize > 0;
              ret == if !valid then -EINVAL
                     else if !old(uart.ReadyNext()) then -ENODEV
                     else if old(modemUartRxOwner) != Nobody then -EBUSY else 0
      ensures Now() == if response == null || responseSize == 0 || !old(uart.ReadyNext()) then old(Now())
                       else Walk(old(Now()), [Configure] + (if ret == 0 then AcquireSteps(AtSession) else []))
      ensures uart.answers == if response == null || responseSize == 0 then old(uart.answers)
                              else Rest(old(uart.answers), 1)
      ensures ret == 0 ==>
                && Control() == old(Control()).(owner := AtSession, irq := true, configured := true, pc := Opened)
                && |sessions| == |old(sessions)| + 1 && LastDelivered() == []
                && response[..] == [NUL] + old(response[1..])
      ensures ret != 0 ==>
                && Control() == old(Control()) && |sessions| == |old(sessions)|
                && Untouched(old(run), run)
                && (response != null ==> response[..] == old(response[..]))
    {
      hide Valid, PendingBytes, Walk, Rest;
      if response == null || responseSize == 0 {
        return -EINVAL;
      }
      ret := RxAcquire(AtSession);
      if ret != 0 {
        return;
      }
      response[0] := NUL;
    }

    method AtSessionClose()
      requires Valid() && pc == Opened
      modifies this`modemUartRxOwner, this`rxIrqEnabled, this`pc, actors`schedule, this`modemUartRxRing,
               this`sessions, this`run, this`shown
      ensures Valid() && Backlog() <= old(Backlog())
      ensures Now() == Walk(old(Now()), RELEASE_STEPS)
      ensures Control() == old(Control()).(owner := Nobody, irq := false, pc := Ready)
      ensures |sessions| == |old(sessions)| && LastDelivered() == old(LastDelivered())
    {
      hide Valid, PendingBytes, LastDelivered, Walk;
      FactsNow();
      RxRelease(AtSession);
    }

    // ----- The passthrough -----

    /** Start: the shell that will receive the output. */
    method SetShell(sh: nat)
      requires Valid() && pc == Wired
      modifies this`passthroughShell, this`pc, actors`schedule, this`modemUartRxRing, this`sessions,
               this`run, this`shown
      ensures Valid() && Backlog() <= old(Backlog())
      ensures Now() == Walk(old(Now()), [RxMachine.SetShell])
      ensures Control() == old(Control()).(shell := true, pc := Addressed)
      ensures |sessions| == |old(sessions)|
      ensures passthroughShell == Some(sh)
    {
      hide Exec, Legal, Inv, PendingBytes, Printers.Render, Printers.Traced, Escape.HasPair, Walk, NextBurst;
      WalkOne(Now(), RxMachine.SetShell);
      FactsNow();
      ghost var before := View();
      passthroughShell := Some(sh);
      pc := Addressed;
      Note(before, RxMachine.SetShell);
      hide Valid;
      Preempt();
    }

    /** Start: no byte of an earlier session is remembered. */
    method ClearTail()
      requires Valid() && pc == Addressed
      modifies this`passthroughTail, this`pc, actors`schedule, this`modemUartRxRing, this`sessions,
               this`run, this`shown
      ensures Valid() && Backlog() <= old(Backlog())
      ensures Now() == Walk(old(Now()), [RxMachine.ClearTail])
      ensures Control() == old(Control()).(tail := NUL, pc := Untailed)
      ensures |sessions| == |old(sessions)|
    {
      hide Exec, Legal, Inv, PendingBytes, Printers.Render, Printers.Traced, Escape.HasPair, Walk, NextBurst;
      WalkOne(Now(), RxMachine.ClearTail);
      FactsNow();
      ghost var before := View();
      passthroughTail := NUL;
      pc := Untailed;
      Note(before, RxMachine.ClearTail);
      hide Valid;
      Preempt();
    }

    /** Start: text or trace output. */
    method SetMode(debug: bool)
      requires Valid() && pc == Untailed
      modifies this`passthroughDebugMode, this`pc, actors`schedule, this`modemUartRxRing, this`sessions,
               this`run, this`shown
      ensures Valid() && Backlog() <= old(Backlog())
      ensures Now() == Walk(old(Now()), [RxMachine.SetMode(debug)])
      ensures Control() == old(Control()).(debug := debug, pc := Moded)
      ensures |sessions| == |old(sessions)|
    {
      hide Exec, Legal, Inv, PendingBytes, Printers.Render, Printers.Traced, Escape.HasPair, Walk, NextBurst;
      WalkOne(Now(), RxMachine.SetMode(debug));
      FactsNow();
      ghost var before := View();
      passthroughDebugMode := debug;
      pc := Moded;
      Note(before, RxMachine.SetMode(debug));
      hide Valid;
      Preempt();
    }

    /** Start: from here on the RX thread reads and the callback forwards. */
    method Activate()
      requires Valid() && pc == Moded
      modifies this`passthroughActive, this`typed, this`pc, actors`schedule, this`modemUartRxRing,
               this`sessions, this`run, this`shown
      ensures Valid() && Backlog() <= old(Backlog())
      ensures Now() == Walk(old(Now()), [RxMachine.Activate])
      ensures Control() == old(Control()).(active := true, pc := Ready)
      ensures |sessions| == |old(sessions)|
      ensures typed == []
    {
      hide Exec, Legal, Inv, PendingBytes, Printers.Render, Printers.Traced, Escape.HasPair, Walk, NextBurst;
      WalkOne(Now(), RxMachine.Activate);
      FactsNow();
      ghost var before := View();
      NothingDelivered(before);
      passthroughActive := true;
      pc, typed, shown := Ready, [], [];
      Printers.RenderOfNothing();
      Printers.NothingTraced();
      Escape.NothingHasNoPair();
      Note(before, RxMachine.Activate);
      hide Valid;
      Preempt();
    }

    /** Stop: the RX thread and the callback fall silent. */
    method Deactivate()
      requires Valid() && pc == Ready && passthroughActive
      modifies this`passthroughActive, this`pc, actors`schedule, this`modemUartRxRing, this`sessions,
               this`run, this`shown
      ensures Valid() && Backlog() <= old(Backlog())
      ensures Now() == Walk(old(Now()), [RxMachine.Deactivate])
      ensures Control() == old(Control()).(active := false, pc := Quieted)
      ensures |sessions| == |old(sessions)|
    {
      hide Exec, Legal, Inv, PendingBytes, Printers.Render, Printers.Traced, Escape.HasPair, Walk, NextBurst;
      WalkOne(Now(), RxMachine.Deactivate);
      FactsNow();
      ghost var before := View();
      passthroughActive := false;
      pc := Quieted;
      Note(before, RxMachine.Deactivate);
      hide Valid;
      Preempt();
    }

    /** Stop: the shell is forgotten. */
    method UnsetShell()
      requires Valid() && pc == Released
      modifies this`passthroughShell, this`pc, actors`schedule, this`modemUartRxRing, this`sessions,
               this`run, this`shown
      ensures Valid() && Backlog() <= old(Backlog())
      ensures Now() == Walk(old(Now()), [RxMachine.UnsetShell])
      ensures Control() == old(Control()).(shell := false, pc := Unaddressed)
      ensures |sessions| == |old(sessions)|
    {
      hide Exec, Legal, Inv, PendingBytes, Printers.Render, Printers.Traced, Escape.HasPair, Walk, NextBurst;
      WalkOne(Now(), RxMachine.UnsetShell);
      FactsNow();
      ghost var before := View();
      passthroughShell := None;
      pc := Unaddressed;
      Note(before, RxMachine.UnsetShell);
      hide Valid;
      Preempt();
    }

    /** Stop: the remembered byte is forgotten. */
    method ResetTail()
      requires Valid() && pc == Unaddressed
      modifies this`passthroughTail, this`pc, actors`schedule, this`modemUartRxRing, this`sessions,
               this`run, this`shown
      ensures Valid() && Backlog() <= old(Backlog())
      ensures Now() == Walk(old(Now()), [RxMachine.ResetTail])
      ensures Control() == old(Control()).(tail := NUL, pc := Forgotten)
      ensures |sessions| == |old(sessions)|
    {
      hide Exec, Legal, Inv, PendingBytes, Printers.Render, Printers.Traced, Escape.HasPair, Walk, NextBurst;
      WalkOne(Now(), RxMachine.ResetTail);
      FactsNow();
      ghost var before := View();
      passthroughTail := NUL;
      pc := Forgotten;
      Note(before, RxMachine.ResetTail);
      hide Valid;
      Preempt();
    }

    /** Stop: back to text output. */
    method ResetMode()
      requires Valid() && pc == Forgotten
      modifies this`passthroughDebugMode, this`pc, actors`schedule, this`modemUartRxRing, this`sessions,
               this`run, this`shown
      ensures Valid() && Backlog() <= old(Backlog())
      ensures Now() == Walk(old(Now()), [RxMachine.ResetMode])
      ensures Control() == old(Control()).(debug := false, pc := Unmoded)
      ensures |sessions| == |old(sessions)|
    {
      hide Exec, Legal, Inv, PendingBytes, Printers.Render, Printers.Traced, Escape.HasPair, Walk, NextBurst;
      WalkOne(Now(), RxMachine.ResetMode);
      FactsNow();
      ghost var before := View();
      passthroughDebugMode := false;
      pc := Unmoded;
      Note(before, RxMachine.ResetMode);
      hide Valid;
      Preempt();
    }

    /** The writes of a stop after the release. */
    method PassthroughForget()
      requires Valid() && pc == Released
      modifies this`passthroughShell, this`passthroughTail, this`passthroughDebugMode, this`pc,
               actors`schedule, this`modemUartRxRing, this`sessions, this`run, this`shown
      ensures Valid() && Backlog() <= old(Backlog())
      ensures Now() == Walk(old(Now()), FORGET_STEPS)
      ensures Control() == old(Control()).(shell := false, tail := NUL, debug := false, pc := Ready)
      ensures |sessions| == |old(sessions)|
    {
      hide Valid, PendingBytes, Walk;
      WalkFour(Now(), RxMachine.UnsetShell, RxMachine.ResetTail, RxMachine.ResetMode, FinalReset);
      UnsetShell();
      ResetTail();
      ResetMode();
      ResetRing(Ready);
    }

    /** Ends the passthrough; does nothing when it is not active. */
    method PassthroughStop()
      requires Valid() && pc == Ready
      modifies this`passthroughActive, this`modemUartRxOwner, this`rxIrqEnabled, this`pc,
               this`passthroughShell,
               this`passthroughTail, this`passthroughDebugMode,
               actors`schedule, this`modemUartRxRing, this`sessions, this`run, this`shown
      ensures Valid() && Backlog() <= old(Backlog()) && pc == Ready
      ensures !old(passthroughActive) ==> View() == old(View()) && run == old(run)
      ensures Now() == Walk(old(Now()), if old(passthroughActive) then StopSteps() else [])
      ensures old(passthroughActive) ==>
                && Control() == INIT.(configured := true)
                && |sessions| == |old(sessions)|
    {
      hide Valid, PendingBytes;
      ghost var before := Now();
      if !passthroughActive {
        return;
      }
      FactsNow();
      hide OwnershipInv, Walk;
      Deactivate();
      RxRelease(Passthrough);
      PassthroughForget();
      WalkConcat(before, [RxMachine.Deactivate] + RELEASE_STEPS, FORGET_STEPS);
      WalkConcat(before, [RxMachine.Deactivate], RELEASE_STEPS);
    }

    /** The bytes the user typed, as the shell hands them over. An escape stops the passthrough
        and forwards nothing of the chunk; a failed write stops it too. */
    method BypassCallback(data: bytes)
      requires Valid() && pc == Ready
      modifies this, actors, uart`answers, uart`sent
      ensures Valid() && Backlog() <= old(Backlog()) && pc == Ready
      ensures data == [] || !old(passthroughActive) ==>
                && Typing() == old(Typing()) && uart.sent == old(uart.sent)
                && View() == old(View()) && run == old(run)
      ensures old(uart.ReadyNext()) ==>
                && Typing() == Escape.Feed(old(Typing()), data)
                && uart.sent == old(uart.sent) + typed[|old(typed)|..] && old(typed) <= typed
      ensures !old(uart.ReadyNext()) && data != [] && old(passthroughActive) ==>
                && !passthroughActive && modemUartRxOwner == Nobody
                && uart.sent == old(uart.sent) && typed == old(typed)
      ensures uart.answers == if data != [] && old(passthroughActive) && !Escape.Detects(old(passthroughTail), data)
                              then Rest(old(uart.answers), 1) else old(uart.answers)
      ensures data != [] && old(passthroughActive) ==>
                Now() == Walk(old(Now()),
                              if Escape.Detects(old(passthroughTail), data) then StopSteps()
                              else [Remember(data[|data| - 1])] + (if old(uart.ReadyNext()) then [] else StopSteps()))
      ensures old(passthroughActive) && !passthroughActive ==> Control() == INIT.(configured := true)
      ensures passthroughThreadStarted == old(passthroughThreadStarted)
    {
      hide Valid, PendingBytes, Escape.HasPair, Walk, Rest, StopSteps, LastDelivered;
      ghost var before := Now();
      var escape := false;
      if |data| == 0 || !passthroughActive {
        return;
      }
      if passthroughTail == Escape.PREFIX && data[0] == Escape.SUFFIX {
        escape := true;
      } else {
        escape := FindPair(data);
      }
      if escape {
        PassthroughStop();
        return;
      }
      var ret := Forward(data);
      if ret != 0 {
        PassthroughStop();
        ForgetTyped(old(typed));
        WalkConcat(before, [Remember(data[|data| - 1])], StopSteps());
      } else {
        assert [Remember(data[|data| - 1])] + [] == [Remember(data[|data| - 1])];
      }
    }

    /**
      The user's input of a whole session, however the shell splits it, empty chunks included and
      with any answers from the device. The chunks before the `n`-th reach the modem, and nothing
      else does; the session ends there because that chunk completes the escape or because it
      meets a device that is not ready.
     */
    method TypeSession(chunks: seq<bytes>) returns (ghost n: nat)
      requires Valid() && pc == Ready && Typing() == Escape.RunSession([])
      modifies this, actors, uart`answers, uart`sent
      ensures Valid() && pc == Ready && n <= Escape.StopAt(chunks)
      ensures uart.sent == old(uart.sent) + Flatten(chunks[..n]) && typed == Flatten(chunks[..n])
      ensures forall j | 0 <= j < n && chunks[j] != [] :: old(uart.ReadyAt(Escape.Writes(chunks[..j])))
      ensures n < Escape.StopAt(chunks) ==>
                chunks[n] != [] && !old(uart.ReadyAt(Escape.Writes(chunks[..n])))
      ensures passthroughActive <==> n == |chunks|
      ensures !passthroughActive ==> Control() == INIT.(configured := true)
    {
      hide Valid, Rest, PendingBytes, Flatten, Escape.RunSession, Escape.StopAt, Escape.Writes,
           Escape.Feed, Escape.Detects, Escape.HasPair;
      n := 0;
      RestOfNothing(uart.answers);
      SessionBegins(chunks);
      for i := 0 to |chunks|
        invariant Valid() && pc == Ready && n <= i && n <= Escape.StopAt(chunks)
        invariant uart.sent == old(uart.sent) + Flatten(chunks[..n]) && typed == Flatten(chunks[..n])
        invariant forall j | 0 <= j < n && chunks[j] != [] :: old(uart.ReadyAt(Escape.Writes(chunks[..j])))
        invariant passthroughActive ==>
                    && n == i && Typing() == Escape.RunSession(chunks[..i])
                    && uart.answers == Rest(old(uart.answers), Escape.Writes(chunks[..i]))
        invariant !passthroughActive ==>
                    && n < i && Control() == INIT.(configured := true)
                    && (n < Escape.StopAt(chunks) ==>
                          chunks[n] != [] && !old(uart.ReadyAt(Escape.Writes(chunks[..n]))))
      {
        if passthroughActive {
          FlattenNext(chunks, i);
          var went := TypeChunk(chunks, i, old(uart.answers));
          n := if went then i + 1 else i;
        } else {
          BypassCallback(chunks[i]);
        }
      }
    }

    /** The next chunk of a session that is still open; `script` are the device's answers since
        it began. */
    method TypeChunk(chunks: seq<bytes>, i: nat, ghost script: seq<bool>) returns (went: bool)
      requires Valid() && pc == Ready && passthroughActive && i < |chunks| && i <= Escape.StopAt(chunks)
      requires Typing() == Escape.RunSession(chunks[..i])
      requires uart.answers == Rest(script, Escape.Writes(chunks[..i]))
      modifies this, actors, uart`answers, uart`sent
      ensures Valid() && pc == Ready && went == passthroughActive
      ensures var ready := |script| <= Escape.Writes(chunks[..i]) || script[Escape.Writes(chunks[..i])];
              && (went ==>
                    && i < Escape.StopAt(chunks) && (chunks[i] != [] ==> ready)
                    && Typing() == Escape.RunSession(chunks[..i + 1])
                    && uart.answers == Rest(script, Escape.Writes(chunks[..i + 1]))
                    && uart.sent == old(uart.sent) + chunks[i] && typed == old(typed) + chunks[i])
              && (!went ==>
                    && uart.sent == old(uart.sent) && typed == old(typed) && Control() == INIT.(configured := true)
                    && (i < Escape.StopAt(chunks) ==> chunks[i] != [] && !ready))
    {
      hide Valid, Rest, PendingBytes, Flatten, Escape.RunSession, Escape.StopAt, Escape.Writes,
           Escape.Detects, Escape.HasPair;
      NextOfRest(script, Escape.Writes(chunks[..i]));
      RestAfter(script, Escape.Writes(chunks[..i]));
      Escape.OneMoreTyped(chunks, i);
      BypassCallback(chunks[i]);
      went := passthroughActive;
      assert chunks[i] == [] ==> uart.sent + chunks[i] == uart.sent && typed + chunks[i] == typed;
    }

    /** Outside a session the history of forwarded bytes may be corrected. */
    ghost method ForgetTyped(forwarded: bytes)
      requires Valid() && !passthroughActive
      modifies this`typed
      ensures Valid() && typed == forwarded
    {
      hide Exec, Legal, Inv;
      typed := forwarded;
    }

    /** The callback's scan for the pair inside one chunk. */
    method FindPair(data: bytes) returns (found: bool)
      ensures found <==> Escape.HasPair(data)
    {
      Escape.PairByBytes(data);
      found := false;
      var i := 0;
      while i + 1 < |data|
        invariant 0 <= i <= |data|
        invariant forall j :: 0 <= j < i && j + 1 < |data| ==>
                    !(data[j] == Escape.PREFIX && data[j + 1] == Escape.SUFFIX)
      {
        if data[i] == Escape.PREFIX && data[i + 1] == Escape.SUFFIX {
          return true;
        }
        i := i + 1;
      }
    }

    /** Remembers the last byte and writes the chunk to the modem. */
    method Forward(data: bytes) returns (ret: int)
      requires Valid() && pc == Ready && passthroughActive
      requires data != [] && !Escape.Detects(passthroughTail, data)
      modifies this`passthroughTail, this`typed, actors`schedule, this`modemUartRxRing, this`sessions,
               this`run, this`shown, uart`answers, uart`sent
      ensures Valid() && Backlog() <= old(Backlog())
      ensures Now() == Walk(old(Now()), [Remember(data[|data| - 1])])
      ensures ret == if old(uart.ReadyNext()) then 0 else -ENODEV
      ensures uart.answers == Rest(old(uart.answers), 1)
      ensures uart.sent == if ret == 0 then old(uart.sent) + data else old(uart.sent)
      ensures typed == old(typed) + data
      ensures Control() == old(Control()).(tail := data[|data| - 1])
      ensures |sessions| == |old(sessions)|
    {
      hide Exec, Legal, Inv, PendingBytes, Printers.Render, Printers.Traced, Escape.HasPair, Walk, NextBurst;
      WalkOne(Now(), Remember(data[|data| - 1]));
      FactsNow();
      Escape.DetectorIsExact(typed, data);
      ghost var before := View();
      passthroughTail := data[|data| - 1];
      typed := typed + data;
      Note(before, Remember(data[|data| - 1]));
      Preempt();
      ret := uart.Write(Some(data), |data|);
      assert data[..|data|] == data;
    }

    /** The start's writes after the acquire. */
    method PassthroughWire(sh: nat, debug: bool)
      requires Valid() && pc == Wired
      modifies this`passthroughShell, this`passthroughTail, this`passthroughDebugMode, this`passthroughActive,
               this`typed, this`pc, actors`schedule, this`modemUartRxRing, this`sessions, this`run, this`shown
      ensures Valid() && Backlog() <= old(Backlog())
      ensures Now() == Walk(old(Now()), WireSteps(debug))
      ensures Control() == old(Control()).(shell := true, tail := NUL, debug := debug, active := true, pc := Ready)
      ensures passthroughShell == Some(sh) && typed == []
      ensures |sessions| == |old(sessions)|
    {
      hide Valid, PendingBytes, Walk;
      WalkFour(Now(), RxMachine.SetShell, RxMachine.ClearTail, RxMachine.SetMode(debug), RxMachine.Activate);
      SetShell(sh);
      ClearTail();
      SetMode(debug);
      Activate();
    }

    /** modem passthrough [--debug]; `statusRet` and `railEn` are what the board reports. */
    method CmdPassthrough(sh: nat, args: seq<bytes>, statusRet: int, railEn: int) returns (ret: int)
      requires Valid() && pc == Ready
      modifies this, actors`schedule, uart`answers
      ensures Valid() && Backlog() <= old(Backlog()) && pc == Ready
      ensures ret == 0 ==>
                && old(modemUartRxOwner) == Nobody && statusRet == 0 && railEn == 1
                && passthroughThreadStarted && passthroughShell == Some(sh)
                && Control() == State(Passthrough, true, true, [], true, true, NUL, |args| >= 2, Ready, [])
                && Typing() == Escape.RunSession([]) && |sessions| == |old(sessions)| + 1
                && uart.answers == Rest(old(uart.answers), 3)
                && Now() == Walk(old(Now()), StartSteps(|args| >= 2))
      ensures ret != 0 ==>
                && Control() == old(Control()) && Typing() == old(Typing())
                && |sessions| == |old(sessions)| && Untouched(old(run), run)
      ensures |args| >= 2 && args[1] != DEBUG_OPTION ==> ret == -EINVAL
      ensures (|args| < 2 || args[1] == DEBUG_OPTION) ==>
                && (statusRet != 0 ==> ret == statusRet)
                && (statusRet == 0 && railEn != 1 ==> ret == -EHOSTDOWN)
                && (statusRet == 0 && railEn == 1 ==>
                      ret == if !old(uart.ReadyAt(0)) || !old(uart.ReadyAt(1)) then -ENODEV
                             else if old(modemUartRxOwner) != Nobody then -EBUSY
                             else if !old(uart.ReadyAt(2)) then -ENODEV else 0)
    {
      hide Valid, PendingBytes, Escape.HasPair, Walk, Untouched, StartSteps, LastDelivered, NextBurst, OwnershipInv;
      ConfigureIsUntouched(Now());
      FactsNow();
      var debugMode := false;
      if |args| >= 2 {
        if args[1] == DEBUG_OPTION {
          debugMode := true;
        } else {
          return -EINVAL;
        }
      }
      if statusRet != 0 {
        return statusRet;
      }
      if railEn != 1 {
        return -EHOSTDOWN;
      }
      var ready := uart.IsReady();
      if ready {
        ready := uart.IsReady();
      }
      if !ready {
        return -ENODEV;
      }
      if passthroughActive {
        return -EBUSY;
      }
      if modemUartRxOwner != Nobody {
        return -EBUSY;
      }
      StartThread();
      ret := Enter(sh, debugMode);
    }

    /** Takes the line and starts the session on it. */
    method Enter(sh: nat, debug: bool) returns (ret: int)
      requires Valid() && pc == Ready && modemUartRxOwner == Nobody
      modifies this, actors`schedule, uart`answers
      ensures Valid() && Backlog() <= old(Backlog()) && pc == Ready
      ensures ret == if old(uart.ReadyNext()) then 0 else -ENODEV
      ensures uart.answers == Rest(old(uart.answers), 1)
      ensures passthroughThreadStarted == old(passthroughThreadStarted)
      ensures ret == 0 ==>
                && passthroughShell == Some(sh)
                && Control() == State(Passthrough, true, true, [], true, true, NUL, debug, Ready, [])
                && Typing() == Escape.RunSession([]) && |sessions| == |old(sessions)| + 1
                && Now() == Walk(old(Now()), StartSteps(debug))
      ensures ret != 0 ==>
                && Control() == old(Control()) && Typing() == old(Typing())
                && |sessions| == |old(sessions)| && Untouched(old(run), run)
    {
      hide Valid, PendingBytes, Escape.HasPair, Walk, Untouched, Rest;
      ghost var before := Now();
      FactsNow();
      ret := RxAcquire(Passthrough);
      if ret != 0 {
        return;
      }
      PassthroughWire(sh, debug);
      WalkConcat(before, [Configure] + AcquireSteps(Passthrough), WireSteps(debug));
    }

    method StartThread()
      requires Valid()
      modifies this`passthroughThreadStarted
      ensures Valid() && passthroughThreadStarted
    {
      hide Exec, Legal, Inv;
      if !passthroughThreadStarted {
        passthroughThreadStarted := true;
      }
    }

    /** What the invariant says about the present state. */
    lemma {:induction false} FactsNow()
      requires Valid()
      ensures OwnershipInv(View()) && Exec(run) == View()
      ensures modemUartRxOwner != Nobody ==> sessions != [] && modemUartRxIrqConfigured
      ensures modemUartRxOwner == Nobody ==> !rxIrqEnabled && modemUartRxRing == []
      ensures passthroughActive ==> modemUartRxOwner == Passthrough
    {}
  }

  lemma {:induction false} PendingStep(schedule: seq<seq<EnvEvent>>)
    ensures schedule == [] ==> Rest(schedule, 1) == []
    ensures schedule != [] ==>
              && Rest(schedule, 1) == schedule[1..]
              && PendingBytes(schedule) == BurstBytes(schedule[0]) + PendingBytes(schedule[1..])
  {}

  lemma {:induction false} IsrStepsAreEnv(fifo: seq<bytes>)
    ensures forall step | step in IsrSteps(fifo) :: EnvStep(step)
    decreases |fifo|
  {
    if fifo != [] && fifo[0] != [] {
      IsrStepsAreEnv(fifo[1..]);
    }
  }

  lemma {:induction false} BurstStepsAreEnv(irq: bool, burst: seq<EnvEvent>)
    ensures forall step | step in BurstSteps(irq, burst) :: EnvStep(step)
    decreases |burst|
  {
    if burst != [] {
      if burst[0].Interrupt? {
        IsrStepsAreEnv(burst[0].fifo);
      }
      BurstStepsAreEnv(irq, burst[1..]);
    }
  }

  lemma {:induction false} GapIsEnv(irq: bool, schedule: seq<seq<EnvEvent>>)
    ensures forall step | step in NextBurst(irq, schedule) :: EnvStep(step)
  {
    if schedule != [] {
      BurstStepsAreEnv(irq, schedule[0]);
    }
  }

  /** A configuration and a gap change nothing the shell thread owns. */
  lemma {:induction false} ConfigureIsUntouched(c: Course)
    ensures Untouched(c.run, Walk(c, [Configure]).run) && Untouched(c.run, c.run)
  {
    WalkOne(c, Configure);
    GapIsEnv(c.irq, c.schedule);
    hide NextBurst, Walk;
    var more := [Configure] + NextBurst(c.irq, c.schedule);
    assert Walk(c, [Configure]).run == c.run + more;
    assert forall i | 0 <= i < |more| :: EnvStep(more[i]) || more[i].Configure?;
  }

  /** What an interrupt reads from the FIFO. */
  function Received(fifo: seq<bytes>): bytes {
    if fifo == [] || fifo[0] == [] then []
    else fifo[0][..Min(64, |fifo[0]|)] + Received(fifo[1..])
  }

  lemma {:induction false} StoredInTwo(s: State, chunk: bytes, more: bytes)
    requires Inv(s) && s.irq && 1 <= |chunk| <= CHUNK_SIZE
    ensures |s.ring| <= 512
    ensures var t := Apply(s, Isr(chunk));
            var k, m := Min(|chunk + more|, 512 - |s.ring|), Min(|more|, 512 - |t.ring|);
            && |t.ring| <= 512
            && t.ring + more[..m] == s.ring + (chunk + more)[..k]
            && t.(ring := t.ring + more[..m], sessions := Accept(t.sessions, more[..m]))
                 == s.(ring := s.ring + (chunk + more)[..k], sessions := Accept(s.sessions, (chunk + more)[..k]))
  {
    var t := Apply(s, Isr(chunk));
    var fits := Fitting(s.ring, chunk);
    var k, m := Min(|chunk + more|, 512 - |s.ring|), Min(|more|, 512 - |t.ring|);
    assert fits + more[..m] == (chunk + more)[..k];
    var n := |s.sessions| - 1;
    assert s.sessions[n].accepted + fits + more[..m] == s.sessions[n].accepted + (fits + more[..m]);
    assert s.ring + fits + more[..m] == s.ring + (fits + more[..m]);
  }

  /** An interrupt that is enabled stores everything the FIFO gives, for the session that owns the
      line, up to the 512 bytes the ring holds; only what comes after that is lost. */
  lemma {:induction false} InterruptStores(run: seq<Step>, fifo: seq<bytes>)
    requires Legal(run) && Exec(run).irq
    ensures Legal(run + IsrSteps(fifo)) && |Exec(run).ring| <= 512 && Exec(run).sessions != []
    ensures var s, data := Exec(run), Received(fifo);
            var stored := data[..Min(|data|, 512 - |s.ring|)];
            Exec(run + IsrSteps(fifo)) == s.(ring := s.ring + stored, sessions := Accept(s.sessions, stored))
    decreases |fifo|
  {
    hide Exec, Legal, Apply, Inv, Accept, Fitting, Enabled;
    RunsKeepInv(run);
    var s := Exec(run);
    if fifo == [] || fifo[0] == [] {
      assert run + [] == run;
      NothingStored(s);
    } else {
      var chunk := fifo[0][..Min(64, |fifo[0]|)];
      Extend(run, Isr(chunk));
      assert run + IsrSteps(fifo) == run + [Isr(chunk)] + IsrSteps(fifo[1..]);
      StoredInTwo(s, chunk, Received(fifo[1..]));
      StillInterrupting(s, chunk);
      InterruptStores(run + [Isr(chunk)], fifo[1..]);
    }
  }

  /** An interrupt scheduled for the gap before a read is what that read gets: the bytes the FIFO
      gave, behind those already waiting, up to 64 of them. */
  lemma {:induction false} ScheduledInterruptIsRead(c: Course, fifo: seq<bytes>)
    requires Legal(c.run) && Exec(c.run).irq && c.irq
    requires c.schedule != [] && c.schedule[0] == [Interrupt(fifo)]
    ensures |Exec(c.run).ring| <= 512
    ensures var ring, data := Exec(c.run).ring, Received(fifo);
            var waiting := ring + data[..Min(|data|, 512 - |ring|)];
            ReadData(c) == waiting[..Min(64, |waiting|)]
  {
    hide Exec, Legal, IsrSteps, Received;
    InterruptStores(c.run, fifo);
    OneInterrupt(fifo);
  }

  lemma {:induction false} OneInterrupt(fifo: seq<bytes>)
    ensures BurstSteps(true, [Interrupt(fifo)]) == IsrSteps(fifo)
  {
    assert [Interrupt(fifo)][1..] == [];
  }

  lemma {:induction false} NothingStored(s: State)
    requires Inv(s) && s.irq
    ensures |s.ring| <= 512 && s.sessions != []
    ensures s.(ring := s.ring + [], sessions := Accept(s.sessions, [])) == s
  {
    assert s.ring + [] == s.ring;
    var n := |s.sessions| - 1;
    assert s.sessions[n].accepted + [] == s.sessions[n].accepted;
  }

  lemma {:induction false} StillInterrupting(s: State, chunk: bytes)
    requires Inv(s) && s.irq && 1 <= |chunk| <= CHUNK_SIZE
    ensures Enabled(s, Isr(chunk)) && Apply(s, Isr(chunk)).irq && s.sessions != []
  {}

  lemma {:induction false} IsrStepsNext(fifo: seq<bytes>, i: nat, run: seq<Step>)
    requires i <= |fifo|
    ensures var rest := run + IsrSteps(fifo[i..]);
            if i == |fifo| || fifo[i] == [] then rest == run
            else rest == run + [Isr(fifo[i][..Min(CHUNK_SIZE, |fifo[i]|)])] + IsrSteps(fifo[i + 1..])
  {
    assert i < |fifo| ==> fifo[i..][1..] == fifo[i + 1..];
  }

  lemma {:induction false} BurstStepsNext(irq: bool, burst: seq<EnvEvent>, i: nat, run: seq<Step>)
    requires i < |burst|
    ensures run + BurstSteps(irq, burst[i..]) == run + EventSteps(irq, burst[i]) + BurstSteps(irq, burst[i + 1..])
  {
    hide EventSteps;
    assert burst[i..][1..] == burst[i + 1..];
    assert BurstSteps(irq, burst[i..]) == EventSteps(irq, burst[i]) + BurstSteps(irq, burst[i + 1..]);
  }

  lemma {:induction false} NoMoreSteps(irq: bool, burst: seq<EnvEvent>, run: seq<Step>)
    ensures run + BurstSteps(irq, burst[|burst|..]) == run
  {}

  lemma {:induction false} NothingDelivered(s: State)
    requires Inv(s) && s.pc == Moded
    ensures s.sessions != [] && s.sessions[|s.sessions| - 1].delivered == []
  {}

  lemma {:induction false} SessionBegins(chunks: seq<bytes>)
    ensures chunks[..0] == [] && Flatten([]) == [] && Escape.Writes([]) == 0
    ensures Escape.RunSession([]).active && Escape.RunSession([]).written == []
  {}

  lemma {:induction false} FlattenNext(chunks: seq<bytes>, i: nat)
    requires i < |chunks|
    ensures Flatten(chunks[..i + 1]) == Flatten(chunks[..i]) + chunks[i]
  {
    assert chunks[..i + 1][..i] == chunks[..i];
  }

  /** The step a ring reset is, by the shell thread's program point before and after it. */
  function ResetStep(before: Pc, after: Pc): Option<Step> {
    if before == Claimed && after == Cleared then Some(ClearRing)
    else if before == Masked && after == Drained then Some(DrainRing)
    else if before == Unmoded && after == Ready then Some(FinalReset)
    else None
  }

  lemma {:induction false} ResetIsStep(s: State, next: Pc)
    requires Inv(s) && ResetStep(s.pc, next).Some?
    ensures !s.active && Enabled(s, ResetStep(s.pc, next).value)
    ensures Apply(s, ResetStep(s.pc, next).value) == s.(ring := [], pc := next)
  {}

  /** The longer run adds no write of the shell thread but a repeated configuration. */
  ghost predicate Untouched(before: seq<Step>, after: seq<Step>) {
    before <= after && forall i | |before| <= i < |after| :: EnvStep(after[i]) || after[i].Configure?
  }

  lemma {:induction false} IsrStep(s: State, chunk: bytes)
    requires Inv(s) && s.irq && 1 <= |chunk| <= CHUNK_SIZE
    ensures Enabled(s, Isr(chunk)) && s.sessions != []
    ensures |Fitting(s.ring, chunk)| <= |chunk|
    ensures Apply(s, Isr(chunk)) ==
              s.(ring := s.ring + Fitting(s.ring, chunk), sessions := Accept(s.sessions, Fitting(s.ring, chunk)))
    ensures var t := Apply(s, Isr(chunk));
            && |t.sessions| == |s.sessions|
            && t.sessions[|s.sessions| - 1].delivered == s.sessions[|s.sessions| - 1].delivered
  {}

  /** The RX thread's turn while the passthrough is active, as a step. */
  lemma {:induction false} ThreadStep(s: State)
    requires Inv(s) && s.active
    ensures Enabled(s, RxThread) && s.shell && s.sessions != []
    ensures var n := Min(CHUNK_SIZE, |s.ring|);
            var t := Apply(s, RxThread);
            && t == s.(ring := s.ring[n..], sessions := t.sessions)
            && |t.sessions| == |s.sessions|
            && t.sessions[|t.sessions| - 1].delivered == s.sessions[|s.sessions| - 1].delivered + s.ring[..n]
  {}
}

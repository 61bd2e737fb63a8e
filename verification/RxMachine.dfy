/**
  Ownership of the modem UART's receive side as a state machine.

  Three actors share it: the shell thread, cut into its single writes; the interrupt handler,
  which may run between any two of them while the RX interrupt is enabled; and the passthrough
  RX thread, whose loop body is one step. A run is any legal sequence of their steps.
 */
module RxMachine {
  import opened ByteText

  const RING_SIZE: nat := 512
  const CHUNK_SIZE: nat := 64

  datatype Owner = Nobody | AtSession | Passthrough

  /** Where the shell thread stands: after which write of which operation. */
  datatype Pc =
    | Ready                                   // between operations
    | Claimed | Cleared | Opened              // acquire: owner written, ring reset, interrupt on
    | Wired | Addressed | Untailed | Moded    // passthrough start: interrupt on, shell, tail, mode
    | Quieted                                 // passthrough stop: active cleared
    | Masked | Drained                        // release: interrupt off, ring reset
    | Released | Unaddressed | Forgotten | Unmoded  // stop, after the release

  /** History of one ownership session: what the handler stored for it, what was handed out,
      and to whom. */
  datatype Session = Session(owner: Owner, accepted: bytes, delivered: bytes, readers: set<Owner>)

  datatype State = State(
    owner: Owner, irq: bool, configured: bool, ring: bytes,
    active: bool, shell: bool, tail: byte, debug: bool,
    pc: Pc, sessions: seq<Session>)

  datatype Step =
    | Configure | Claim(owner: Owner) | ClearRing | EnableIrq | AtRead
    | SetShell | ClearTail | SetMode(debug: bool) | Activate | Remember(last: byte)
    | Deactivate | MaskIrq | DrainRing | Disown | UnsetShell | ResetTail | ResetMode | FinalReset
    | Isr(chunk: bytes) | RxThread

  const INIT: State :=
    State(Nobody, false, false, [], false, false, NUL, false, Ready, [])

  predicate EnvStep(step: Step) {
    step.Isr? || step.RxThread?
  }

  predicate Enabled(s: State, step: Step) {
    match step
    case Configure => s.pc == Ready
    case Claim(o) => s.pc == Ready && s.configured && s.owner == Nobody && o != Nobody
    case ClearRing => s.pc == Claimed
    case EnableIrq => s.pc == Cleared
    case AtRead => s.pc == Opened
    case SetShell => s.pc == Wired
    case ClearTail => s.pc == Addressed
    case SetMode(_) => s.pc == Untailed
    case Activate => s.pc == Moded
    case Remember(_) => s.pc == Ready && s.active
    case Deactivate => s.pc == Ready && s.active
    case MaskIrq => s.pc == Opened || s.pc == Quieted
    case DrainRing => s.pc == Masked
    case Disown => s.pc == Drained
    case UnsetShell => s.pc == Released
    case ResetTail => s.pc == Unaddressed
    case ResetMode => s.pc == Forgotten
    case FinalReset => s.pc == Unmoded
    case Isr(chunk) => s.irq && 1 <= |chunk| <= CHUNK_SIZE
    case RxThread => true
  }

  /** ring_buf_put stores what fits. */
  function Fitting(ring: bytes, chunk: bytes): bytes {
    chunk[..if |ring| + |chunk| <= RING_SIZE then |chunk| else if |ring| < RING_SIZE then RING_SIZE - |ring| else 0]
  }

  lemma {:induction false} BytesAreLostOnlyWhenFull(ring: bytes, chunk: bytes)
    requires |ring| <= RING_SIZE
    ensures Fitting(ring, chunk) <= chunk
    ensures Fitting(ring, chunk) != chunk ==> |ring + Fitting(ring, chunk)| == RING_SIZE
  {}

  function Accept(sessions: seq<Session>, data: bytes): seq<Session> {
    if sessions == [] then []
    else
      var n := |sessions| - 1;
      sessions[n := sessions[n].(accepted := sessions[n].accepted + data)]
  }

  function Deliver(sessions: seq<Session>, data: bytes, reader: Owner): seq<Session> {
    if sessions == [] || data == [] then sessions
    else
      var n := |sessions| - 1;
      sessions[n := sessions[n].(delivered := sessions[n].delivered + data, readers := sessions[n].readers + {reader})]
  }

  /** ring_buf_get of one chunk, by the given reader. */
  function Get(s: State, reader: Owner): State {
    var n := Min(CHUNK_SIZE, |s.ring|);
    s.(ring := s.ring[n..], sessions := Deliver(s.sessions, s.ring[..n], reader))
  }

  function Apply(s: State, step: Step): State {
    match step
    case Configure => if s.configured then s else s.(configured := true, ring := [])
    case Claim(o) => s.(owner := o, pc := Claimed, sessions := s.sessions + [Session(o, [], [], {})])
    case ClearRing => s.(ring := [], pc := Cleared)
    case EnableIrq => s.(irq := true, pc := if s.owner == AtSession then Opened else Wired)
    case AtRead => Get(s, AtSession)
    case SetShell => s.(shell := true, pc := Addressed)
    case ClearTail => s.(tail := NUL, pc := Untailed)
    case SetMode(debug) => s.(debug := debug, pc := Moded)
    case Activate => s.(active := true, pc := Ready)
    case Remember(last) => s.(tail := last)
    case Deactivate => s.(active := false, pc := Quieted)
    case MaskIrq => s.(irq := false, pc := Masked)
    case DrainRing => s.(ring := [], pc := Drained)
    case Disown => s.(owner := Nobody, pc := if s.owner == AtSession then Ready else Released)
    case UnsetShell => s.(shell := false, pc := Unaddressed)
    case ResetTail => s.(tail := NUL, pc := Forgotten)
    case ResetMode => s.(debug := false, pc := Unmoded)
    case FinalReset => s.(ring := [], pc := Ready)
    case Isr(chunk) =>
      var stored := Fitting(s.ring, chunk);
      s.(ring := s.ring + stored, sessions := Accept(s.sessions, stored))
    case RxThread => if s.active && s.shell then Get(s, Passthrough) else s
  }

  /** The state after a run from power-up. */
  function Exec(run: seq<Step>): State {
    if run == [] then INIT else Apply(Exec(run[..|run| - 1]), run[|run| - 1])
  }

  /** Every step of the run was enabled when it was taken. */
  predicate Legal(run: seq<Step>) {
    run == [] || (Legal(run[..|run| - 1]) && Enabled(Exec(run[..|run| - 1]), run[|run| - 1]))
  }

  // ----- The invariant -----

  /** What each program point of the shell thread knows. */
  ghost predicate AtPc(s: State) {
    match s.pc
    case Ready =>
      if s.active then s.owner == Passthrough && s.irq && s.shell
      else s.owner == Nobody && !s.shell && s.tail == NUL && !s.debug
    case Claimed => s.owner != Nobody && !s.irq && s.ring == [] && !s.shell
    case Cleared => s.owner != Nobody && !s.irq && s.ring == [] && !s.shell
    case Opened => s.owner == AtSession && s.irq
    case Wired => s.owner == Passthrough && s.irq && !s.shell
    case Addressed => s.owner == Passthrough && s.irq && s.shell
    case Untailed => s.owner == Passthrough && s.irq && s.shell && s.tail == NUL
    case Moded => s.owner == Passthrough && s.irq && s.shell && s.tail == NUL
    case Quieted => s.owner == Passthrough && s.irq && s.shell
    case Masked => s.owner != Nobody && !s.irq
    case Drained => s.owner != Nobody && !s.irq && s.ring == []
    case Released => s.owner == Nobody
    case Unaddressed => s.owner == Nobody && !s.shell
    case Forgotten => s.owner == Nobody && !s.shell && s.tail == NUL
    case Unmoded => s.owner == Nobody && !s.shell && s.tail == NUL && !s.debug
  }

  ghost predicate OwnershipInv(s: State) {
    && AtPc(s)
    && |s.ring| <= RING_SIZE
    && (s.owner == Nobody ==> s.ring == [] && !s.irq)
    && (s.owner != Nobody ==> s.configured)
    && (s.owner == AtSession ==> !s.shell && s.tail == NUL && !s.debug)
    && (s.active ==> s.pc == Ready)
  }

  /** The acquire and start operations are under way: nobody has read anything yet. */
  predicate Starting(pc: Pc) {
    pc in {Claimed, Cleared, Wired, Addressed, Untailed, Moded}
  }

  /** The books of every session that ever was: nothing is delivered that was not accepted for
      that very session, in order, and only its owner reads it. */
  ghost predicate SessionInv(x: Session) {
    x.owner != Nobody && x.delivered <= x.accepted && x.readers <= {x.owner}
  }

  ghost predicate BooksInv(s: State) {
    && (forall i | 0 <= i < |s.sessions| :: SessionInv(s.sessions[i]))
    && (s.owner != Nobody ==>
          && s.sessions != []
          && s.sessions[|s.sessions| - 1].owner == s.owner
          && (s.pc != Drained ==>
                s.sessions[|s.sessions| - 1].delivered + s.ring == s.sessions[|s.sessions| - 1].accepted)
          && (Starting(s.pc) ==> s.sessions[|s.sessions| - 1].delivered == []))
  }

  ghost predicate Inv(s: State) {
    OwnershipInv(s) && BooksInv(s)
  }

  lemma {:induction false} OwnershipKept(s: State, step: Step)
    requires Inv(s) && Enabled(s, step)
    ensures OwnershipInv(Apply(s, step))
  {}

  lemma {:induction false} BooksKeptByGet(s: State, reader: Owner)
    requires Inv(s) && s.owner == reader != Nobody && s.pc != Drained && !Starting(s.pc)
    ensures BooksInv(Get(s, reader))
  {}

  lemma {:induction false} BooksKeptByIsr(s: State, chunk: bytes)
    requires Inv(s) && s.irq
    ensures BooksInv(Apply(s, Isr(chunk)))
  {}

  lemma {:induction false} BooksKeptByClaim(s: State, owner: Owner)
    requires Inv(s) && s.owner == Nobody != owner
    ensures BooksInv(Apply(s, Claim(owner)))
  {}

  lemma {:induction false} BooksKeptByDrain(s: State)
    requires Inv(s) && s.pc == Masked
    ensures BooksInv(Apply(s, DrainRing))
  {}

  /** The steps that move no byte. */
  predicate Silent(step: Step) {
    !(step.AtRead? || step.RxThread? || step.Isr? || step.Claim? || step.DrainRing?)
  }

  lemma {:induction false} BooksKeptInSilence(s: State, step: Step)
    requires Inv(s) && Enabled(s, step) && Silent(step)
    ensures BooksInv(Apply(s, step))
  {}

  lemma {:induction false} BooksKept(s: State, step: Step)
    requires Inv(s) && Enabled(s, step)
    ensures BooksInv(Apply(s, step))
  {
    hide BooksInv, Accept, Deliver, Fitting;
    match step {
      case AtRead => BooksKeptByGet(s, AtSession);
      case RxThread =>
        if s.active {
          BooksKeptByGet(s, Passthrough);
        }
      case Isr(chunk) => BooksKeptByIsr(s, chunk);
      case Claim(owner) => BooksKeptByClaim(s, owner);
      case DrainRing => BooksKeptByDrain(s);
      case _ => BooksKeptInSilence(s, step);
    }
  }

  lemma {:induction false} StepKeepsInv(s: State, step: Step)
    requires Inv(s) && Enabled(s, step)
    ensures Inv(Apply(s, step))
  {
    OwnershipKept(s, step);
    BooksKept(s, step);
  }

  lemma {:induction false} Extend(run: seq<Step>, step: Step)
    ensures Legal(run + [step]) <==> Legal(run) && Enabled(Exec(run), step)
    ensures Exec(run + [step]) == Apply(Exec(run), step)
  {}

  /** Every state of every run satisfies the invariant. */
  lemma {:induction false} RunsKeepInv(run: seq<Step>)
    requires Legal(run)
    ensures Inv(Exec(run))
    decreases |run|
  {
    if run != [] {
      RunsKeepInv(run[..|run| - 1]);
      StepKeepsInv(Exec(run[..|run| - 1]), run[|run| - 1]);
    }
  }

  // ----- What the invariant says -----

  /** The ownership discipline on every reachable state, however the actors interleave. */
  lemma {:induction false} OwnershipDiscipline(run: seq<Step>)
    requires Legal(run)
    ensures var s := Exec(run);
            && (s.irq ==> s.owner != Nobody)
            && (s.owner == Nobody ==> s.ring == [] && !s.irq)
            && (s.owner != Nobody ==> s.configured)
            && (s.active ==> s.owner == Passthrough && s.shell && s.irq)
            && (s.pc == Ready ==> (s.active <==> s.owner == Passthrough) && s.owner != AtSession)
            && |s.ring| <= 512
  {
    RunsKeepInv(run);
  }

  /** Conservation, session by session: while a session owns the line, what its consumer got,
      followed by what waits in the ring, is what the handler stored since the acquire. */
  lemma {:induction false} Conservation(run: seq<Step>)
    requires Legal(run) && Exec(run).owner != Nobody && Exec(run).pc != Drained
    ensures var s := Exec(run);
            && s.sessions != []
            && var x := s.sessions[|s.sessions| - 1];
            && x.owner == s.owner && x.delivered + s.ring == x.accepted
  {
    RunsKeepInv(run);
  }

  /** Isolation: every session that ever was received a prefix of its own bytes, and only its
      own consumer read them. */
  lemma {:induction false} Isolation(run: seq<Step>, i: nat)
    requires Legal(run) && i < |Exec(run).sessions|
    ensures var x := Exec(run).sessions[i]; x.delivered <= x.accepted && x.readers <= {x.owner}
  {
    RunsKeepInv(run);
  }

  /** The bytes a later part of a run makes the handler store in session `i`. */
  function StoredFor(run: seq<Step>, more: seq<Step>, i: nat): bytes {
    if more == [] then []
    else
      var before := more[..|more| - 1];
      var s := Exec(run + before);
      var step := more[|more| - 1];
      StoredFor(run, before, i)
        + (if step.Isr? && i + 1 == |s.sessions| then Fitting(s.ring, step.chunk) else [])
  }

  lemma {:induction false} StepTouchesLast(s: State, step: Step, i: nat)
    requires Inv(s) && Enabled(s, step) && i < |s.sessions|
    ensures var t := Apply(s, step);
            && |s.sessions| <= |t.sessions|
            && t.sessions[i].owner == s.sessions[i].owner
            && t.sessions[i].accepted == s.sessions[i].accepted
                 + (if step.Isr? && i + 1 == |s.sessions| then Fitting(s.ring, step.chunk) else [])
            && s.sessions[i].delivered <= t.sessions[i].delivered
            && (i + 1 < |s.sessions| || s.owner == Nobody ==> t.sessions[i] == s.sessions[i])
            && (s.owner == Nobody && |t.sessions| == |s.sessions| ==> t.owner == Nobody)
  {}

  /** A session that is over: the line is free, or another session has begun. */
  predicate Over(s: State, i: nat) {
    i + 1 < |s.sessions| || s.owner == Nobody
  }

  /** What a session is credited with is exactly what the handler stored while it was the
      current one; once it is over it never changes. */
  lemma {:induction false} SessionsGrowAlone(run: seq<Step>, more: seq<Step>, i: nat)
    requires Legal(run + more) && i < |Exec(run).sessions|
    ensures i < |Exec(run + more).sessions|
    ensures var x, y := Exec(run).sessions[i], Exec(run + more).sessions[i];
            && y.owner == x.owner
            && y.accepted == x.accepted + StoredFor(run, more, i)
            && x.delivered <= y.delivered
            && (Over(Exec(run), i) ==> Over(Exec(run + more), i) && y == x)
    decreases |more|
  {
    hide Exec, Legal, Apply, Enabled, Inv, Fitting;
    if more == [] {
      assert run + more == run;
    } else {
      var before, step := more[..|more| - 1], more[|more| - 1];
      assert run + more == run + before + [step];
      Extend(run + before, step);
      SessionsGrowAlone(run, before, i);
      RunsKeepInv(run + before);
      StepTouchesLast(Exec(run + before), step, i);
    }
  }
}

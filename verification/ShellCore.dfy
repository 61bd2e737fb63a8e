/**
  The shell commands that talk AT: sender selection, the power commands with their sleep
  disabling afterwards, and `modem at`, down to the board and the UART.
 */
module ShellCore {
  import opened ByteText
  import opened Platform
  import opened AtCommandLine
  import opened ModemAtIrq
  import ModemAt
  import PollText
  import Board
  import ModemShell
  import RxMachine

  const SYNC_RETRIES: nat := 3
  const BOOT_DELAY_MS: nat := 10000
  const RESPONSE_SIZE: nat := 256
  const SYNC_COMMAND: bytes := [65, 84] // "AT"
  const DISABLE_SLEEP_COMMAND: bytes := [65, 84, 43, 75, 83, 76, 69, 69, 80, 61, 50] // "AT+KSLEEP=2"
  const ON: bytes := [111, 110]
  const OFF: bytes := [111, 102, 102]
  const CYCLE: bytes := [99, 121, 99, 108, 101]

  /** What some function does when it is called as a sender: its answer, the bytes it writes to
      the modem, and how long it takes. */
  datatype Answer = Answer(ret: int, writes: bytes, ms: nat)

  /** A sender that behaves as written down; it answers 0 at once when that is exhausted. */
  class ScriptedSender {
    var answers: seq<Answer>

    constructor (answers: seq<Answer>)
      ensures this.answers == answers
    {
      this.answers := answers;
    }

    method Send(uart: Uart, clock: Clock) returns (ret: int)
      modifies this, uart`sent, clock
      ensures old(clock.now) <= clock.now
      ensures old(answers) == [] ==> ret == 0 && answers == [] && clock.When() == old(clock.When())
      ensures old(answers) != [] ==>
                && ret == old(answers)[0].ret && answers == old(answers)[1..]
                && clock.When() == Tick(old(clock.When()), old(answers)[0].ms)
      ensures uart.sent == if old(answers) == [] then old(uart.sent) else old(uart.sent) + old(answers)[0].writes
    {
      ret := 0;
      if answers != [] {
        ret := answers[0].ret;
        uart.sent := uart.sent + answers[0].writes;
        clock.Sleep(answers[0].ms);
        answers := answers[1..];
      }
    }
  }

  /** What a sender pointer points to: some function, whatever it answers, writes and waits; the
      polling AT call; or the interrupt-fed one. */
  datatype Sender =
    | AnySender(script: ScriptedSender)
    | PollSender(modem: ModemAt.Modem)
    | IrqSender(transport: Transport)

  datatype Mode = Runtime | PowerOn

  datatype Kind = Other | Polling | InterruptFed

  /** The state of the world a sender meets and leaves: what its transport or its script will do,
      the UART, and the clock. */
  datatype Moment = Moment(src: Source, script: seq<Answer>, answers: seq<bool>, polls: seq<Poll>,
                           sent: bytes, time: Time)

  function WireOf(m: Moment): Wire {
    Wire(m.src, m.answers, m.sent, m.time)
  }

  /** A command given to a sender, its answer, and the moments before and after. */
  datatype Attempt = Attempt(command: bytes, ret: int, before: Moment, after: Moment)

  /** The answer is the sender's own, and so is everything that changed meanwhile: what an unknown
      function has written down, the outcome of the polling AT call, or that of the interrupt-fed
      one, run from the moment before. */
  ghost predicate Genuine(kind: Kind, responseSize: nat, a: Attempt)
    requires responseSize > 0
  {
    match kind
    case Other => ByScript(a)
    case Polling => ByPolling(responseSize, a)
    case InterruptFed => ByInterrupt(responseSize, a)
  }

  ghost predicate ByScript(a: Attempt) {
    var m := a.before;
    if m.script == [] then a.ret == 0 && a.after == m
    else
      && a.ret == m.script[0].ret
      && a.after == m.(script := m.script[1..], sent := m.sent + m.script[0].writes,
                       time := Tick(m.time, m.script[0].ms))
  }

  ghost predicate ByPolling(responseSize: nat, a: Attempt)
    requires responseSize > 0
  {
    var m, m' := a.before, a.after;
    if !ReadyAt(m.answers, 0) then a.ret == -ENODEV && m' == m.(answers := Rest(m.answers, 1))
    else
      && m' == m.(answers := Rest(m.answers, 1), polls := m'.polls, sent := m.sent + a.command + [CR], time := m'.time)
      && exists log, flushed, deadline, d, buffer :: Polled(responseSize, a, log, flushed, deadline, d, buffer)
  }

  ghost predicate Polled(responseSize: nat, a: Attempt, log: seq<ModemAt.Pass>, flushed: nat, deadline: int,
                         d: ModemAt.Diagnostics, buffer: bytes)
    requires responseSize > 0
  {
    var reason := ModemAt.LoopReason(d.exitReason);
    && |buffer| == responseSize
    && ModemAt.SentAt(a.before.polls, a.before.time, flushed, deadline, log, a.after.time, reason)
    && ModemAt.Ended(log, Rest(a.before.polls, flushed), a.after.polls, responseSize, deadline, a.after.time.now,
                     reason)
    && ModemAt.Accounted(a.ret, d, ModemAt.Heard(log), responseSize, buffer)
  }

  ghost predicate ByInterrupt(responseSize: nat, a: Attempt)
    requires responseSize > 0
  {
    && a.after.polls == a.before.polls && a.after.script == a.before.script
    && exists turns :: Called(a.command, responseSize, WireOf(a.before), turns, a.ret, WireOf(a.after))
  }

  /** What a sender answers, and the moment it leaves, are determined by the command and the
      moment it meets. */
  lemma {:induction false} AttemptIsDetermined(kind: Kind, responseSize: nat, a: Attempt, b: Attempt)
    requires responseSize > 0 && Genuine(kind, responseSize, a) && Genuine(kind, responseSize, b)
    requires a.command == b.command && a.before == b.before
    ensures a == b
  {
    match kind {
      case Other =>
      case Polling => PollingIsDetermined(responseSize, a, b);
      case InterruptFed =>
        hide Called;
        var one :| Called(a.command, responseSize, WireOf(a.before), one, a.ret, WireOf(a.after));
        var other :| Called(b.command, responseSize, WireOf(b.before), other, b.ret, WireOf(b.after));
        CallIsDetermined(a.command, responseSize, WireOf(a.before), one, a.ret, WireOf(a.after),
                         other, b.ret, WireOf(b.after));
    }
  }

  lemma {:induction false} PollingIsDetermined(responseSize: nat, a: Attempt, b: Attempt)
    requires responseSize > 0 && ByPolling(responseSize, a) && ByPolling(responseSize, b)
    requires a.command == b.command && a.before == b.before
    ensures a == b
  {
    hide Polled, Rest;
    if ReadyAt(a.before.answers, 0) {
      var log, flushed, deadline, d, buffer :| Polled(responseSize, a, log, flushed, deadline, d, buffer);
      var log', flushed', deadline', d', buffer' :| Polled(responseSize, b, log', flushed', deadline', d', buffer');
      PolledIsDetermined(responseSize, a, log, flushed, deadline, d, buffer, b, log', flushed', deadline', d', buffer');
    }
  }

  lemma {:induction false} PolledIsDetermined(responseSize: nat, a: Attempt, log: seq<ModemAt.Pass>, flushed: nat,
                                              deadline: int, d: ModemAt.Diagnostics, buffer: bytes,
                                              b: Attempt, log': seq<ModemAt.Pass>, flushed': nat,
                                              deadline': int, d': ModemAt.Diagnostics, buffer': bytes)
    requires responseSize > 0 && a.before == b.before
    requires Polled(responseSize, a, log, flushed, deadline, d, buffer)
    requires Polled(responseSize, b, log', flushed', deadline', d', buffer')
    ensures a.ret == b.ret && a.after.polls == b.after.polls && a.after.time == b.after.time
  {
    hide ModemAt.Ended, ModemAt.Clocked, ModemAt.Flushed, Tick, Rest, ModemAt.Heard,
         PollText.Stored, PollText.Trimmed, PollText.StripCr;
    var quiet := ModemAt.Flushed(a.before.polls, Tick(a.before.time, 0), Tick(a.before.time, 0).now + 50).1;
    ModemAt.ReceiveIsDetermined(log, log', Rest(a.before.polls, flushed), a.after.polls, b.after.polls, responseSize,
                                Tick(quiet, 0), deadline, ModemAt.LoopReason(d.exitReason),
                                ModemAt.LoopReason(d'.exitReason));
  }

  function MomentAfter(from: Moment, log: seq<Attempt>, n: nat): Moment
    requires n <= |log|
  {
    if n == 0 then from else log[n - 1].after
  }

  /** The attempts were made one right after the other, from one moment to another. */
  ghost predicate Chained(kind: Kind, log: seq<Attempt>, from: Moment, to: Moment) {
    && (forall i | 0 <= i < |log| :: Genuine(kind, 256, log[i]) && log[i].before == MomentAfter(from, log, i))
    && to == MomentAfter(from, log, |log|)
  }

  lemma {:induction false} ChainGrows(kind: Kind, log: seq<Attempt>, from: Moment, to: Moment, a: Attempt)
    requires Chained(kind, log, from, to) && Genuine(kind, 256, a) && a.before == to
    ensures Chained(kind, log + [a], from, a.after)
  {
    hide Genuine, MomentAfter;
    var more := log + [a];
    forall i | 0 <= i < |more|
      ensures Genuine(kind, 256, more[i]) && more[i].before == MomentAfter(from, more, i)
    {
      SameMoment(from, log, a, i);
      assert more[i] == if i < |log| then log[i] else a;
    }
    LastMoment(from, log, a);
  }

  lemma {:induction false} SameMoment(from: Moment, log: seq<Attempt>, a: Attempt, i: nat)
    requires i <= |log|
    ensures MomentAfter(from, log + [a], i) == MomentAfter(from, log, i)
  {}

  lemma {:induction false} LastMoment(from: Moment, log: seq<Attempt>, a: Attempt)
    ensures MomentAfter(from, log + [a], |log + [a]|) == a.after
  {}

  /** One to three "AT" attempts, of which only the last may have succeeded. */
  ghost predicate SyncAttempts(log: seq<Attempt>) {
    && 1 <= |log| <= 3
    && (forall i | 0 <= i < |log| :: log[i].command == [65, 84])
    && (forall i | 0 <= i < |log| - 1 :: log[i].ret != 0)
  }

  /** What the power-on flow sends and returns: every attempt failed, or one succeeded and was
      followed by the single "AT+KSLEEP=2" that disables sleep. */
  ghost predicate FlowLog(log: seq<Attempt>, ret: int) {
    var n := |log|;
    || (n == 3 && SyncAttempts(log) && log[n - 1].ret == ret != 0)
    || (n >= 2 && SyncAttempts(log[..n - 1]) && log[n - 2].ret == 0
        && log[n - 1].command == [65, 84, 43, 75, 83, 76, 69, 69, 80, 61, 50] && log[n - 1].ret == ret)
  }

  /** The flow returns 0 exactly when one "AT" and the "AT+KSLEEP=2" were answered with 0. */
  lemma {:induction false} FlowSucceedsExactly(log: seq<Attempt>, ret: int)
    requires FlowLog(log, ret)
    ensures ret == 0 <==>
              && (exists a | a in log :: a.command == [65, 84] && a.ret == 0)
              && (exists a | a in log :: a.command == [65, 84, 43, 75, 83, 76, 69, 69, 80, 61, 50] && a.ret == 0)
    ensures |log| <= 4
    ensures forall i | 0 <= i < |log| && log[i].command == [65, 84] && log[i].ret == 0 :: i >= |log| - 2
  {
    var n := |log|;
    assert [65, 84] != [65, 84, 43, 75, 83, 76, 69, 69, 80, 61, 50];
    if n >= 2 && SyncAttempts(log[..n - 1]) && log[n - 2].ret == 0 {
      var sync := log[..n - 1];
      assert forall i | 0 <= i < n - 1 :: log[i] == sync[i];
      assert log[n - 2] in log && log[n - 1] in log;
    }
  }

  /** After `n` failed attempts: what they added to the log, and the last of their answers. */
  ghost predicate Failing(before: seq<Attempt>, log: seq<Attempt>, n: nat, ret: int) {
    && |log| == |before| + n && before <= log
    && (forall i | |before| <= i < |log| :: log[i].command == SYNC_COMMAND && log[i].ret != 0)
    && (n > 0 ==> log[|log| - 1].ret == ret)
  }

  lemma {:induction false} NoFailureYet(log: seq<Attempt>)
    ensures Failing(log, log, 0, -ETIMEDOUT)
  {}

  lemma {:induction false} OneMoreFailure(before: seq<Attempt>, log: seq<Attempt>, n: nat, last: int, a: Attempt)
    requires Failing(before, log, n, last) && a.ret != 0 && a.command == SYNC_COMMAND
    ensures Failing(before, log + [a], n + 1, a.ret)
  {}

  lemma {:induction false} AllFailed(before: seq<Attempt>, log: seq<Attempt>, ret: int)
    requires Failing(before, log, 3, ret)
    ensures before <= log && FlowLog(log[|before|..], ret)
  {}

  lemma {:induction false} OneSucceeded(before: seq<Attempt>, log: seq<Attempt>, n: nat, last: int, a: Attempt,
                                        b: Attempt)
    requires Failing(before, log, n, last) && n < 3
    requires a.command == SYNC_COMMAND && a.ret == 0 && b.command == DISABLE_SLEEP_COMMAND
    ensures var all := log + [a] + [b]; before <= all && FlowLog(all[|before|..], b.ret)
  {
    var added := (log + [a] + [b])[|before|..];
    var sync := added[..|added| - 1];
    assert |added| == n + 2;
    assert forall i | 0 <= i < n :: sync[i] == log[|before| + i];
    assert sync[n] == a && added[n] == a && added[n + 1] == b;
  }

  /** No attempt beyond the first `n` found the receive side taken. */
  ghost predicate NeverBusy(n: nat, log: seq<Attempt>) {
    forall i | n <= i < |log| :: log[i].ret != -EBUSY
  }

  lemma {:induction false} NobodyBusyYet(log: seq<Attempt>)
    ensures NeverBusy(|log|, log)
  {}

  lemma {:induction false} StillNeverBusy(n: nat, log: seq<Attempt>, a: Attempt)
    requires NeverBusy(n, log) && a.ret != -EBUSY
    ensures NeverBusy(n, log + [a])
  {}

  function CallOf(op: bytes): Option<Board.Call> {
    if op == ON then Some(Board.PowerOn)
    else if op == OFF then Some(Board.PowerOff)
    else if op == CYCLE then Some(Board.PowerCycle)
    else None
  }

  /** The words of `modem power`: "on", "off", "cycle". */
  lemma {:induction false} PowerWords(op: bytes)
    ensures CallOf(op) == Some(Board.PowerOn) <==> op == [111, 110]
    ensures CallOf(op) == Some(Board.PowerOff) <==> op == [111, 102, 102]
    ensures CallOf(op) == Some(Board.PowerCycle) <==> op == [99, 121, 99, 108, 101]
    ensures CallOf(op) != Some(Board.ResetPulse)
  {}

  lemma {:induction false} ChainStarts(kind: Kind, log: seq<Attempt>, now: Moment)
    ensures Chained(kind, log[|log|..], now, now)
  {}

  lemma {:induction false} LogGrows(before: seq<Attempt>, log: seq<Attempt>, a: Attempt)
    requires before <= log
    ensures before <= log + [a] && (log + [a])[|before|..] == log[|before|..] + [a]
    ensures (log + [a])[|log|] == a && (log + [a])[..|log|] == log
  {}

  /** What any interrupt-fed call can answer. */
  lemma {:induction false} AnswersOf(command: bytes, responseSize: nat, w: Wire, turns: seq<Turn>, ret: int, v: Wire)
    requires responseSize > 0 && Called(command, responseSize, w, turns, ret, v)
    ensures ret == 0 ==> v.sent == w.sent + command + [CR]
    ensures OpenRet(w) in {0, -ENODEV} ==> ret != -EBUSY
  {
    hide Collected, Opened, Closed, Rest, Tick, SourceAtEnd, TimeAtEnd;
    if OpenRet(w) == 0 {
      var end :| Exchanged(command, responseSize, Asked(w), turns, ret, end) && v == end.(src := Closed(end.src));
      if ReadyAt(Asked(w).answers, 0) && ReadyAt(Asked(w).answers, 1) {
        CollectedAnswers(turns, Asked(w).src, Tick(w.time, 0), responseSize, ret);
      }
    }
  }

  lemma {:induction false} CollectedAnswers(turns: seq<Turn>, src: Source, t0: Time, responseSize: nat, ret: int)
    requires responseSize > 0 && Collected(turns, src, t0, responseSize, ret)
    ensures ret in {0, -EIO, -ETIMEDOUT}
  {}

  class ShellOps {
    const board: Board.Ops
    const uart: Uart
    const clock: Clock
    const send: Option<Sender>
    const sendRuntime: Option<Sender>
    const sendPowerOn: Option<Sender>
    ghost var sentLog: seq<Attempt>  // every command given to a sender, and its answer

    constructor (board: Board.Ops, uart: Uart, clock: Clock, send: Option<Sender>,
                 sendRuntime: Option<Sender>, sendPowerOn: Option<Sender>)
      ensures this.board == board && this.uart == uart && this.clock == clock && this.send == send
      ensures this.sendRuntime == sendRuntime && this.sendPowerOn == sendPowerOn && sentLog == []
    {
      this.board, this.uart, this.clock := board, uart, clock;
      this.send, this.sendRuntime, this.sendPowerOn := send, sendRuntime, sendPowerOn;
      sentLog := [];
    }

    /** Power-on prefers its own sender; both fall back to the runtime one, then to the plain one. */
    function Select(mode: Mode): Option<Sender> {
      if mode == PowerOn && sendPowerOn.Some? then sendPowerOn
      else if sendRuntime.Some? then sendRuntime
      else send
    }

    /** Who answers: power-on falls back from its own sender to the runtime one to the plain one,
        and the runtime commands from the second to the third. */
    lemma {:induction false} SenderOrder(mode: Mode)
      ensures mode == PowerOn && sendPowerOn.Some? ==> Select(mode) == sendPowerOn
      ensures (mode == Runtime || sendPowerOn.None?) && sendRuntime.Some? ==> Select(mode) == sendRuntime
      ensures (mode == Runtime || sendPowerOn.None?) && sendRuntime.None? ==> Select(mode) == send
    {}

    ghost function KindOf(mode: Mode): Kind {
      match Select(mode)
      case Some(PollSender(_)) => Polling
      case Some(IrqSender(_)) => InterruptFed
      case _ => Other
    }

    ghost function Now(mode: Mode): Moment
      reads SenderObjects(mode), clock, uart
    {
      var s := Select(mode);
      Moment(if s.Some? && s.value.IrqSender? then s.value.transport.Src() else FromScript(0, []),
             if s.Some? && s.value.AnySender? then s.value.script.answers else [],
             uart.answers, uart.polls, uart.sent, clock.When())
    }

    ghost function SenderObjects(mode: Mode): set<object> {
      match Select(mode)
      case None => {}
      case Some(AnySender(script)) => {script, uart}
      case Some(PollSender(modem)) => {modem, uart}
      case Some(IrqSender(transport)) => transport.Objects() + {uart}
    }

    /** The sender can be called, and shares nothing with the rest of this object. */
    ghost predicate SenderReady(mode: Mode)
      reads SenderObjects(mode)
    {
      var s := Select(mode);
      && clock !in SenderObjects(mode) && board !in SenderObjects(mode) && this !in SenderObjects(mode)
      && (s.Some? && s.value.PollSender? ==> s.value.modem.uart == uart && s.value.modem.clock == clock)
      && (s.Some? && s.value.IrqSender? ==>
            && s.value.transport.AtRest()
            && (s.value.transport.target.UartSession? ==> s.value.transport.target.shell.uart == uart))
    }

    lemma {:induction false} SenderIsApart(mode: Mode)
      requires SenderReady(mode)
      ensures clock !in SenderObjects(mode) && board !in SenderObjects(mode) && this !in SenderObjects(mode)
    {}

    /** The sender is one of the two AT calls. */
    predicate ByAtCall(mode: Mode) {
      Select(mode).Some? && !Select(mode).value.AnySender?
    }

    ghost predicate OverUart(mode: Mode) {
      Select(mode).Some? && Select(mode).value.IrqSender?
      && Select(mode).value.transport.target.UartSession?
    }

    /** Who owns the receive side, for a sender that goes through the UART session. */
    ghost function RxOwner(mode: Mode): RxMachine.Owner
      reads SenderObjects(mode)
    {
      if OverUart(mode) then Select(mode).value.transport.Control().owner else RxMachine.Nobody
    }

    method RunAtCommand(mode: Mode, command: bytes, response: array<byte>, responseSize: nat) returns (ret: int)
      requires SenderReady(mode) && NulFree(command) && 0 < responseSize <= response.Length
      requires response !in SenderObjects(mode)
      modifies this`sentLog, SenderObjects(mode), clock, response
      ensures SenderReady(mode) && RxOwner(mode) == old(RxOwner(mode)) && old(clock.now) <= clock.now
      ensures Select(mode) == None ==> ret == -ENOSYS && sentLog == old(sentLog) && Now(mode) == old(Now(mode))
      ensures Select(mode) != None ==>
                var a := Attempt(command, ret, old(Now(mode)), Now(mode));
                sentLog == old(sentLog) + [a] && Genuine(KindOf(mode), responseSize, a)
      ensures OverUart(mode) && old(RxOwner(mode)) == RxMachine.Nobody ==> ret != -EBUSY
      ensures ByAtCall(mode) && ret == 0 ==> uart.sent == old(uart.sent) + command + [CR]
    {
      hide ModemShell.Shell.Valid, Transport.Backlog, Transport.Delivered, Holding, ReadUntil, Flatten;
      hide ModemShell.Untouched, Genuine, ModemAt.SentAt, ModemAt.Ended, ModemAt.Accounted, Rest, Tick;
      match Select(mode) {
        case None => return -ENOSYS;
        case Some(AnySender(script)) => ret := AskOther(mode, script, command, responseSize);
        case Some(PollSender(modem)) => ret := AskPolling(mode, modem, command, response, responseSize);
        case Some(IrqSender(transport)) => ret := AskInterruptFed(mode, transport, command, response, responseSize);
      }
      sentLog := sentLog + [Attempt(command, ret, old(Now(mode)), Now(mode))];
    }

    method AskOther(mode: Mode, script: ScriptedSender, ghost command: bytes, ghost responseSize: nat)
      returns (ret: int)
      requires SenderReady(mode) && Select(mode) == Some(AnySender(script)) && responseSize > 0
      modifies SenderObjects(mode), clock
      ensures SenderReady(mode) && old(clock.now) <= clock.now
      ensures Genuine(KindOf(mode), responseSize, Attempt(command, ret, old(Now(mode)), Now(mode)))
    {
      hide Tick;
      ret := script.Send(uart, clock);
    }

    method AskPolling(mode: Mode, modem: ModemAt.Modem, command: bytes, response: array<byte>, responseSize: nat)
      returns (ret: int)
      requires SenderReady(mode) && Select(mode) == Some(PollSender(modem)) && NulFree(command)
      requires 0 < responseSize <= response.Length && response !in SenderObjects(mode)
      modifies SenderObjects(mode), clock, response
      ensures SenderReady(mode) && old(clock.now) <= clock.now
      ensures Genuine(KindOf(mode), responseSize, Attempt(command, ret, old(Now(mode)), Now(mode)))
      ensures ret == 0 ==> uart.sent == old(uart.sent) + command + [CR]
    {
      hide ModemAt.SentAt, ModemAt.Ended, ModemAt.Accounted, ModemAt.Heard, Rest, Tick;
      ghost var before := Now(mode);
      ghost var log, flushed, deadline;
      ret, log, flushed, deadline := modem.Send(Some(command), response, responseSize);
      ghost var a := Attempt(command, ret, before, Now(mode));
      assert ReadyAt(before.answers, 0) ==>
          Polled(responseSize, a, log, flushed, deadline, modem.lastDiagnostics, response[..responseSize]);
    }

    method AskInterruptFed(mode: Mode, transport: Transport, command: bytes, response: array<byte>,
                           responseSize: nat) returns (ret: int)
      requires SenderReady(mode) && Select(mode) == Some(IrqSender(transport)) && NulFree(command)
      requires 0 < responseSize <= response.Length && response !in SenderObjects(mode)
      modifies SenderObjects(mode), clock, response
      ensures SenderReady(mode) && RxOwner(mode) == old(RxOwner(mode)) && old(clock.now) <= clock.now
      ensures Genuine(KindOf(mode), responseSize, Attempt(command, ret, old(Now(mode)), Now(mode)))
      ensures OverUart(mode) && old(RxOwner(mode)) == RxMachine.Nobody ==> ret != -EBUSY
      ensures ret == 0 ==> uart.sent == old(uart.sent) + command + [CR]
    {
      hide ModemShell.Shell.Valid, Transport.Backlog, Transport.Delivered, Called, Answered, Flatten;
      hide RxMachine.Exec, RxMachine.OwnershipInv;
      if transport.target.UartSession? {
        transport.target.shell.FactsNow();
      }
      ghost var before := Now(mode);
      ghost var turns;
      ret, turns := SendIrq(Some(command), response, responseSize, Some(transport), uart, clock);
      ghost var w := WireOf(before);
      assert WireOf(Now(mode)) == Wire(transport.Src(), uart.answers, uart.sent, clock.When());
      assert Called(command, responseSize, w, turns, ret, WireOf(Now(mode)));
      AnswersOf(command, responseSize, w, turns, ret, WireOf(Now(mode)));
    }

    /** Up to three AT attempts. */
    method Synchronise(response: array<byte>)
      returns (ret: int, ghost tries: nat, ghost was: seq<Attempt>, ghost last: int)
      requires SenderReady(PowerOn) && response.Length == RESPONSE_SIZE && response !in SenderObjects(PowerOn)
      modifies this`sentLog, SenderObjects(PowerOn), clock, response
      ensures SenderReady(PowerOn) && RxOwner(PowerOn) == old(RxOwner(PowerOn)) && old(clock.now) <= clock.now
      ensures Select(PowerOn) == None ==>
                ret == -ENOSYS && sentLog == old(sentLog) && Now(PowerOn) == old(Now(PowerOn))
      ensures Select(PowerOn) != None ==>
                && old(sentLog) <= sentLog
                && Chained(KindOf(PowerOn), sentLog[|old(sentLog)|..], old(Now(PowerOn)), Now(PowerOn))
      ensures Select(PowerOn) != None && ret != 0 ==> Failing(old(sentLog), sentLog, 3, ret)
      ensures Select(PowerOn) != None && ret == 0 ==>
                && tries < 3 && Failing(old(sentLog), was, tries, last)
                && |sentLog| == |was| + 1 && was == sentLog[..|was|]
                && sentLog[|was|].command == SYNC_COMMAND && sentLog[|was|].ret == 0
      ensures OverUart(PowerOn) && old(RxOwner(PowerOn)) == RxMachine.Nobody ==>
                NeverBusy(|old(sentLog)|, sentLog)
    {
      hide SenderReady, SenderObjects, RxOwner, OverUart, Failing, Select, KindOf, Now, Genuine, Chained, NeverBusy,
           ByAtCall;
      NoFailureYet(sentLog);
      NobodyBusyYet(sentLog);
      ChainStarts(KindOf(PowerOn), sentLog, Now(PowerOn));
      ghost var before := sentLog;
      ret := -ETIMEDOUT;
      was, last := sentLog, ret;
      tries := 0;
      var attempt := 0;
      while attempt < SYNC_RETRIES
        invariant 0 <= attempt == tries <= SYNC_RETRIES && ret != 0 && before <= sentLog
        invariant SenderReady(PowerOn) && RxOwner(PowerOn) == old(RxOwner(PowerOn)) && old(clock.now) <= clock.now
        invariant Select(PowerOn) == None ==>
                    sentLog == before && Now(PowerOn) == old(Now(PowerOn)) && (attempt > 0 ==> ret == -ENOSYS)
        invariant Select(PowerOn) != None ==>
                    && Failing(before, sentLog, attempt, ret)
                    && Chained(KindOf(PowerOn), sentLog[|before|..], old(Now(PowerOn)), Now(PowerOn))
        invariant OverUart(PowerOn) && old(RxOwner(PowerOn)) == RxMachine.Nobody ==> NeverBusy(|before|, sentLog)
      {
        was, last := sentLog, ret;
        ghost var now := Now(PowerOn);
        ret := RunAtCommand(PowerOn, SYNC_COMMAND, response, RESPONSE_SIZE);
        ghost var a := Attempt(SYNC_COMMAND, ret, now, Now(PowerOn));
        LogGrows(before, was, a);
        if Select(PowerOn) != None {
          ChainGrows(KindOf(PowerOn), was[|before|..], old(Now(PowerOn)), now, a);
        }
        if OverUart(PowerOn) && old(RxOwner(PowerOn)) == RxMachine.Nobody && Select(PowerOn) != None {
          StillNeverBusy(|before|, was, a);
        }
        if ret == 0 {
          break;
        }
        if Select(PowerOn) != None {
          OneMoreFailure(before, was, attempt, last, a);
        }
        attempt, tries := attempt + 1, tries + 1;
      }
    }

    /** Waits for the boot, synchronises, disables sleep. */
    method DisableSleepAfterPowerOn() returns (ret: int)
      requires SenderReady(PowerOn)
      modifies this`sentLog, SenderObjects(PowerOn), clock
      ensures SenderReady(PowerOn) && RxOwner(PowerOn) == old(RxOwner(PowerOn)) && old(sentLog) <= sentLog
      ensures FlowRan(old(sentLog), old(Now(PowerOn)), ret)
      ensures OverUart(PowerOn) && old(RxOwner(PowerOn)) == RxMachine.Nobody ==>
                NeverBusy(|old(sentLog)|, sentLog)
    {
      SenderIsApart(PowerOn);
      var response := new byte[RESPONSE_SIZE];
      Wait();
      ret := Flow(response);
    }

    method Wait()
      requires SenderReady(PowerOn)
      modifies clock
      ensures SenderReady(PowerOn) && RxOwner(PowerOn) == old(RxOwner(PowerOn))
      ensures Now(PowerOn) == old(Now(PowerOn)).(time := Tick(old(clock.When()), 10000))
    {
      SenderIsApart(PowerOn);
      hide ModemShell.Shell.Valid, Transport.AtRest, Tick;
      clock.Sleep(BOOT_DELAY_MS);
    }

    method Flow(response: array<byte>) returns (ret: int)
      requires SenderReady(PowerOn) && response.Length == RESPONSE_SIZE && response !in SenderObjects(PowerOn)
      modifies this`sentLog, SenderObjects(PowerOn), clock, response
      ensures SenderReady(PowerOn) && RxOwner(PowerOn) == old(RxOwner(PowerOn)) && old(sentLog) <= sentLog
      ensures if Select(PowerOn) == None then
                ret == -ENOSYS && sentLog == old(sentLog) && Now(PowerOn) == old(Now(PowerOn))
              else FlowLog(sentLog[|old(sentLog)|..], ret)
                   && Chained(KindOf(PowerOn), sentLog[|old(sentLog)|..], old(Now(PowerOn)), Now(PowerOn))
      ensures OverUart(PowerOn) && old(RxOwner(PowerOn)) == RxMachine.Nobody ==>
                NeverBusy(|old(sentLog)|, sentLog)
    {
      hide SenderReady, SenderObjects, RxOwner, OverUart, FlowLog, Failing, Select, NeverBusy, KindOf, Now, Genuine,
           Chained, ByAtCall;
      ghost var tries, was, last;
      ret, tries, was, last := Synchronise(response);
      if ret != 0 {
        if Select(PowerOn) != None {
          AllFailed(old(sentLog), sentLog, ret);
        }
        return;
      }
      ghost var log, now := sentLog, Now(PowerOn);
      ret := RunAtCommand(PowerOn, DISABLE_SLEEP_COMMAND, response, RESPONSE_SIZE);
      ghost var a, b := log[|was|], Attempt(DISABLE_SLEEP_COMMAND, ret, now, Now(PowerOn));
      assert log == was + [a];
      LogGrows(old(sentLog), log, b);
      OneSucceeded(old(sentLog), was, tries, last, a, b);
      ChainGrows(KindOf(PowerOn), log[|old(sentLog)|..], old(Now(PowerOn)), now, b);
      if OverUart(PowerOn) && old(RxOwner(PowerOn)) == RxMachine.Nobody {
        StillNeverBusy(|old(sentLog)|, log, b);
      }
    }

    /** What the power-on flow amounts to: ten seconds for the boot, then the attempts, each
        answered by the selected sender itself. */
    ghost predicate FlowRan(logBefore: seq<Attempt>, before: Moment, ret: int)
      requires logBefore <= sentLog
      reads this`sentLog, SenderObjects(PowerOn), clock, uart
    {
      var booted := before.(time := Tick(before.time, 10000));
      if Select(PowerOn) == None then ret == -ENOSYS && sentLog == logBefore && Now(PowerOn) == booted
      else
        && FlowLog(sentLog[|logBefore|..], ret)
        && Chained(KindOf(PowerOn), sentLog[|logBefore|..], booted, Now(PowerOn))
    }

    /** modem_shell_cmd_power_core. `ev` is what the board was driven through, `boardRet` its answer. */
    method CmdPower(args: seq<bytes>) returns (ret: int, ghost ev: seq<Board.Event>, ghost boardRet: int)
      requires SenderReady(PowerOn)
      modifies this`sentLog, board, SenderObjects(PowerOn), clock
      ensures SenderReady(PowerOn) && RxOwner(PowerOn) == old(RxOwner(PowerOn))
      ensures board.trace == old(board.trace) + ev && (old(board.Faithful()) ==> board.Faithful())
      ensures old(sentLog) <= sentLog
      ensures |args| < 2 || CallOf(args[1]) == None ==> ret == -EINVAL && ev == [] && sentLog == old(sentLog)
      ensures |args| >= 2 && CallOf(args[1]) != None ==>
                PowerRan(args[1], old(sentLog), old(Now(PowerOn)), ev, boardRet, ret)
      ensures OverUart(PowerOn) && old(RxOwner(PowerOn)) == RxMachine.Nobody ==>
                NeverBusy(|old(sentLog)|, sentLog)
    {
      SenderIsApart(PowerOn);
      NobodyBusyYet(sentLog);
      hide SenderReady, SenderObjects, RxOwner, OverUart, FlowLog, Select, Now, FlowRan, NeverBusy, CallOf, PowerRan;
      hide Board.CallTrace, Board.OnTrace, Board.OffTrace, Board.CycleTrace, Board.Ops.Faithful;
      ev, boardRet := [], 0;
      if |args| < 2 {
        return -EINVAL, ev, boardRet;
      }
      var known, shouldDisableSleep;
      known, ret, shouldDisableSleep, ev := DriveBoard(args[1]);
      boardRet := ret;
      if !known {
        return -EINVAL, ev, boardRet;
      }
      if ret == 0 && shouldDisableSleep {
        ret := DisableSleepAfterPowerOn();
      }
      PowerHasRun(args[1], old(sentLog), old(Now(PowerOn)), ev, boardRet, ret);
    }

    /** The board call the word stands for, if it is one, and whether the flow is to follow. */
    method DriveBoard(op: bytes) returns (known: bool, ret: int, shouldDisableSleep: bool, ghost ev: seq<Board.Event>)
      modifies board
      ensures known == (CallOf(op) != None) && board.trace == old(board.trace) + ev
      ensures old(board.Faithful()) ==> board.Faithful()
      ensures !known ==> ev == []
      ensures known ==> Board.CallTrace(CallOf(op).value, ev, ret) && shouldDisableSleep == (op != OFF)
    {
      hide Board.OnTrace, Board.OffTrace, Board.CycleTrace, Board.Ops.Faithful;
      known, ret, shouldDisableSleep, ev := true, 0, false, [];
      if op == ON {
        ret, ev := board.PowerOnCore();
        shouldDisableSleep := true;
      } else if op == OFF {
        ret, ev := board.PowerOffCore();
      } else if op == CYCLE {
        ret, ev := board.PowerCycleCore();
        shouldDisableSleep := true;
      } else {
        known := false;
      }
    }

    lemma {:induction false} PowerHasRun(op: bytes, logBefore: seq<Attempt>, before: Moment, ev: seq<Board.Event>,
                                         boardRet: int, ret: int)
      requires logBefore <= sentLog && CallOf(op) != None && Board.CallTrace(CallOf(op).value, ev, boardRet)
      requires boardRet != 0 || op == OFF ==> ret == boardRet && sentLog == logBefore && Now(PowerOn) == before
      requires boardRet == 0 && op != OFF ==> FlowRan(logBefore, before, ret)
      ensures PowerRan(op, logBefore, before, ev, boardRet, ret)
    {
      hide Now, FlowRan, Board.CallTrace, CallOf;
    }

    /** What `modem power` amounts to: the board call, and for on and cycle, once that succeeded,
        the boot delay and the flow that disables sleep. */
    ghost predicate PowerRan(op: bytes, logBefore: seq<Attempt>, before: Moment,
                             ev: seq<Board.Event>, boardRet: int, ret: int)
      requires logBefore <= sentLog && CallOf(op) != None
      reads this`sentLog, SenderObjects(PowerOn), clock, uart
    {
      && Board.CallTrace(CallOf(op).value, ev, boardRet)
      && if boardRet != 0 || op == OFF then ret == boardRet && sentLog == logBefore && Now(PowerOn) == before
         else FlowRan(logBefore, before, ret)
    }

    /** The string the parser points to, which is what a sender reads. */
    method CommandString(argv: seq<array<byte>>) returns (command: Option<bytes>, debugRequested: bool)
      requires AreStrings(argv)
      modifies if |argv| == 2 then {argv[1]} else {}
      ensures command == Parse(old(Args(argv))).command && debugRequested == Parse(old(Args(argv))).debug
      ensures command.Some? ==> NulFree(command.value)
    {
      hide CStr, Parse;
      var pointer;
      pointer, debugRequested := ParseAtCommand(argv);
      command := match pointer case None => None case Some(t) => Some(CStr(t.buffer[t.at..]));
    }

    /** The checks before the command is sent, and the one attempt. */
    method Attempted(command: Option<bytes>, statusRet: int, railEn: int, response: array<byte>) returns (ret: int)
      requires SenderReady(Runtime) && (command.Some? ==> NulFree(command.value))
      requires response.Length == RESPONSE_SIZE && response !in SenderObjects(Runtime)
      modifies this`sentLog, SenderObjects(Runtime), clock, response
      ensures SenderReady(Runtime) && RxOwner(Runtime) == old(RxOwner(Runtime))
      ensures CommandRan(command, statusRet, railEn, old(sentLog), old(Now(Runtime)), ret)
      ensures OverUart(Runtime) && old(RxOwner(Runtime)) == RxMachine.Nobody ==>
                NeverBusy(|old(sentLog)|, sentLog)
    {
      hide SenderReady, SenderObjects, RxOwner, OverUart, Now, KindOf, Genuine, ByAtCall, NeverBusy, Select;
      NobodyBusyYet(sentLog);
      SentNow(Runtime);
      if command == None {
        return -EINVAL;
      }
      if statusRet != 0 {
        return statusRet;
      }
      if railEn != 1 {
        return -EHOSTDOWN;
      }
      ghost var log, before := sentLog, Now(Runtime);
      ret := RunAtCommand(Runtime, command.value, response, RESPONSE_SIZE);
      SentNow(Runtime);
      if Select(Runtime) != None && ret != -EBUSY {
        StillNeverBusy(|log|, log, Attempt(command.value, ret, before, Now(Runtime)));
      }
    }

    lemma {:induction false} SentNow(mode: Mode)
      ensures Now(mode).sent == uart.sent
    {}

    /** modem_shell_cmd_at_core; `statusRet` and `railEn` are what the board reports. */
    method CmdAt(argv: seq<array<byte>>, statusRet: int, railEn: int) returns (ret: int, debugRequested: bool)
      requires SenderReady(Runtime) && AreStrings(argv)
      requires forall a: array<byte> | a in argv :: a !in SenderObjects(Runtime)
      modifies this`sentLog, SenderObjects(Runtime), clock, if |argv| == 2 then {argv[1]} else {}
      ensures SenderReady(Runtime) && RxOwner(Runtime) == old(RxOwner(Runtime))
      ensures debugRequested == Parse(old(Args(argv))).debug
      ensures CommandRan(Parse(old(Args(argv))).command, statusRet, railEn, old(sentLog), old(Now(Runtime)), ret)
      ensures OverUart(Runtime) && old(RxOwner(Runtime)) == RxMachine.Nobody ==>
                NeverBusy(|old(sentLog)|, sentLog)
    {
      hide CStr, Args, AreStrings, Parse, SenderReady, RxOwner, OverUart, CommandRan, Now, NeverBusy;
      assert |argv| == 2 ==> argv[1] in argv && argv[1] !in SenderObjects(Runtime);
      var response := new byte[RESPONSE_SIZE];
      response[0] := NUL;
      var command;
      command, debugRequested := CommandString(argv);
      ret := Attempted(command, statusRet, railEn, response);
    }

    /** What `modem at` amounts to for the parsed command: refused, or exactly one attempt with
        exactly that command, answered by the selected sender itself; an AT call has it on the wire
        when the answer is 0. */
    ghost predicate CommandRan(command: Option<bytes>, statusRet: int, railEn: int, logBefore: seq<Attempt>,
                               before: Moment, ret: int)
      reads this`sentLog, SenderObjects(Runtime), clock, uart
    {
      if command == None || statusRet != 0 || railEn != 1 || Select(Runtime) == None then
        && ret == (if command == None then -EINVAL
                   else if statusRet != 0 then statusRet
                   else if railEn != 1 then -EHOSTDOWN else -ENOSYS)
        && sentLog == logBefore && Now(Runtime) == before
      else
        var a := Attempt(command.value, ret, before, Now(Runtime));
        && sentLog == logBefore + [a] && Genuine(KindOf(Runtime), 256, a)
        && (ByAtCall(Runtime) && ret == 0 ==> Now(Runtime).sent == before.sent + command.value + [CR])
    }
  }

  /** The shell's table: both senders run the AT call over the shell's own UART session. */
  ghost predicate WiredTo(ops: ShellOps, shell: ModemShell.Shell) {
    && ops.sendRuntime == ops.sendPowerOn && ops.sendRuntime.Some? && ops.sendRuntime.value.IrqSender?
    && ops.sendRuntime.value.transport.target == UartSession(shell)
  }

  lemma {:induction false} WiredFacts(ops: ShellOps, shell: ModemShell.Shell, mode: Mode)
    requires WiredTo(ops, shell)
    ensures ops.Select(mode) != None && ops.OverUart(mode) && ops.RxOwner(mode) == shell.modemUartRxOwner
    ensures ops.SenderObjects(Runtime) == ops.SenderObjects(PowerOn)
    ensures shell in ops.SenderObjects(mode)
    ensures ops.SenderReady(mode) ==> shell.Valid() && shell.pc == RxMachine.Ready && shell.uart == ops.uart
  {}

  /** modem power: on and cycle are refused while the receive side is owned; the command leaves
      the ownership as it found it, and its own attempts never find the receive side taken. */
  method CmdModemPower(ops: ShellOps, shell: ModemShell.Shell, args: seq<bytes>)
    returns (ret: int, ghost ev: seq<Board.Event>, ghost boardRet: int)
    requires WiredTo(ops, shell) && ops.SenderReady(PowerOn)
    modifies ops`sentLog, ops.board, ops.SenderObjects(PowerOn), ops.clock
    ensures ops.SenderReady(PowerOn) && shell.modemUartRxOwner == old(shell.modemUartRxOwner)
    ensures ops.board.trace == old(ops.board.trace) + ev && (old(ops.board.Faithful()) ==> ops.board.Faithful())
    ensures old(ops.sentLog) <= ops.sentLog
    ensures |args| < 2 || CallOf(args[1]) == None ==> ret == -EINVAL && ev == [] && ops.sentLog == old(ops.sentLog)
    ensures |args| >= 2 && args[1] in {ON, CYCLE} && old(shell.modemUartRxOwner) != RxMachine.Nobody ==>
              && ret == -EBUSY && ev == [] && ops.sentLog == old(ops.sentLog)
              && shell.View() == old(shell.View()) && ops.uart.sent == old(ops.uart.sent)
    ensures |args| >= 2 && CallOf(args[1]) != None
            && (args[1] == OFF || old(shell.modemUartRxOwner) == RxMachine.Nobody) ==>
              ops.PowerRan(args[1], old(ops.sentLog), old(ops.Now(PowerOn)), ev, boardRet, ret)
    ensures NeverBusy(|old(ops.sentLog)|, ops.sentLog)
  {
    WiredFacts(ops, shell, PowerOn);
    hide WiredTo, ShellOps.PowerRan, ShellOps.SenderReady, ModemShell.Shell.Valid;
    ev, boardRet := [], 0;
    if |args| >= 2 && (args[1] == ON || args[1] == CYCLE) && shell.modemUartRxOwner != RxMachine.Nobody {
      return -EBUSY, ev, boardRet;
    }
    ret, ev, boardRet := ops.CmdPower(args);
    WiredFacts(ops, shell, PowerOn);
  }

  /** modem at: refused while the receive side is owned; otherwise one attempt at most, started
      and ended with nobody owning it, and the shell logs exactly when the parser says debug. */
  method CmdModemAt(ops: ShellOps, shell: ModemShell.Shell, argv: seq<array<byte>>, statusRet: int, railEn: int)
    returns (ret: int, logging: bool, debugRequested: bool)
    requires WiredTo(ops, shell) && ops.SenderReady(Runtime) && AreStrings(argv)
    requires forall a: array<byte> | a in argv :: a !in ops.SenderObjects(Runtime)
    modifies ops`sentLog, ops.SenderObjects(Runtime), ops.clock, if |argv| == 2 then {argv[1]} else {}
    ensures ops.SenderReady(Runtime) && shell.modemUartRxOwner == old(shell.modemUartRxOwner)
    ensures old(shell.modemUartRxOwner) != RxMachine.Nobody ==>
              && ret == -EBUSY && ops.sentLog == old(ops.sentLog)
              && shell.View() == old(shell.View()) && ops.uart.sent == old(ops.uart.sent)
    ensures old(shell.modemUartRxOwner) == RxMachine.Nobody ==>
              && logging == debugRequested == Parse(old(Args(argv))).debug
              && ops.CommandRan(Parse(old(Args(argv))).command, statusRet, railEn,
                                old(ops.sentLog), old(ops.Now(Runtime)), ret)
    ensures NeverBusy(|old(ops.sentLog)|, ops.sentLog)
  {
    WiredFacts(ops, shell, Runtime);
    hide WiredTo, ShellOps.CommandRan, ShellOps.SenderReady, ModemShell.Shell.Valid, Parse, DebugRequested, Args,
         AreStrings;
    logging, debugRequested := false, false;
    if shell.modemUartRxOwner != RxMachine.Nobody {
      return -EBUSY, logging, debugRequested;
    }
    ScanAgreesWithParser(Args(argv));
    logging := AtDebugRequested(argv);
    ret, debugRequested := ops.CmdAt(argv, statusRet, railEn);
    WiredFacts(ops, shell, Runtime);
  }
}

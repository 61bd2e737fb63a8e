/**
  The polling AT receiver: flush, send the command, collect the response byte by byte, trim
  it in place, and account for how the call ended.
 */
module ModemAt {
  import opened ByteText
  import opened Platform
  import opened PollText
  import IrqVerdict

  const RESPONSE_TIMEOUT_MS: int := 5000
  const INTER_CHAR_TIMEOUT_MS: int := 1000
  const PRE_SEND_FLUSH_MS: int := 50
  const IDLE_SLEEP_MS: nat := 10

  datatype ExitReason = NoReason | MatchOk | MatchError | InterCharTimeout
                      | OverallTimeout | BufferFull | UartError

  datatype Diagnostics =
    Diagnostics(bytesReceived: nat, sawAnyByte: bool, exitReason: ExitReason, lastUartRet: int)

  /** One pass of the receive loop: the clock reading that let it start, what the UART
      returned, the last clock reading of the pass, and the time when it was over. */
  datatype Pass = Pass(at: int, poll: Poll, stamp: int, after: Time)

  function UartRet(p: Poll): int {
    match p
    case Got(_) => 0
    case Idle => -1
    case Fault(code) => code
  }

  /** The last result of uart_poll_in that was recorded; 0 if there was none. */
  function LastUartRet(log: seq<Pass>): int {
    if log == [] then 0 else UartRet(log[|log| - 1].poll)
  }

  /** The bytes received during the passes, CRs included. */
  function Heard(log: seq<Pass>): bytes {
    if log == [] then []
    else
      var rest := Heard(log[..|log| - 1]);
      if log[|log| - 1].poll.Got? then rest + [log[|log| - 1].poll.b] else rest
  }

  /** When the last byte arrived. */
  function LastByteAt(log: seq<Pass>): Option<int> {
    if log == [] then None
    else if log[|log| - 1].poll.Got? then Some(log[|log| - 1].stamp)
    else LastByteAt(log[..|log| - 1])
  }

  /** The passes drew their results from the script, in order. */
  ghost predicate Drew(log: seq<Pass>, script: seq<Poll>, left: seq<Poll>) {
    && left == Rest(script, |log|)
    && forall i | 0 <= i < |log| :: log[i].poll == if i < |script| then script[i] else Idle
  }

  /** No pass starts at or after the deadline, and time never runs backwards. */
  ghost predicate Timely(log: seq<Pass>, deadline: int, now: int) {
    && (forall i | 0 <= i < |log| :: log[i].at < deadline && log[i].at <= log[i].stamp <= now)
    && (forall i, j | 0 <= i < j < |log| :: log[i].stamp <= log[j].at)
  }

  ghost predicate NoFault(log: seq<Pass>) {
    forall i | 0 <= i < |log| :: !log[i].poll.Fault?
  }

  /** No idle pass found the last byte to be 1000 ms old. */
  ghost predicate Patient(log: seq<Pass>) {
    forall i | 0 <= i < |log| && log[i].poll.Idle? && LastByteAt(log[..i]).Some? ::
      log[i].stamp < LastByteAt(log[..i]).value + 1000
  }

  /** A pass begun at time `t`, the last byte having arrived at `last`: every reading of the clock
      it makes, and the 10 ms an idle pass sleeps unless the last byte is 1000 ms old. */
  ghost predicate PassTimed(t: Time, last: Option<int>, p: Pass) {
    var t1 := Tick(t, 0);
    && p.at == t1.now
    && match p.poll
       case Got(_) => p.after == Tick(t1, 0) && p.stamp == p.after.now
       case Fault(_) => p.after == t1 && p.stamp == t1.now
       case Idle =>
         var t2 := if last.Some? then Tick(t1, 0) else t1;
         && p.stamp == t2.now
         && p.after == if last.Some? && t2.now >= last.value + 1000 then t2 else Tick(t2, 10)
  }

  /** The time after the passes of a loop entered at `t0`. */
  function TimeAfter(t0: Time, log: seq<Pass>): Time {
    if log == [] then t0 else log[|log| - 1].after
  }

  /** All the time that went by since `t0` went by in these passes. */
  ghost predicate Clocked(log: seq<Pass>, t0: Time) {
    forall i | 0 <= i < |log| :: PassTimed(TimeAfter(t0, log[..i]), LastByteAt(log[..i]), log[i])
  }

  /** The time when the loop is left: one more reading when it is the deadline that ends it. */
  function TimeAtEnd(t0: Time, log: seq<Pass>, reason: ExitReason): Time {
    if reason == NoReason then Tick(TimeAfter(t0, log), 0) else TimeAfter(t0, log)
  }

  /** How a receive loop that left with `reason` must have ended. */
  ghost predicate EndsBecause(log: seq<Pass>, responseSize: nat, deadline: int, now: int, reason: ExitReason)
    requires responseSize > 0
  {
    var heard := Heard(log);
    var scan := PollScan(heard, responseSize);
    && (log != [] ==> PollScan(Heard(log[..|log| - 1]), responseSize) == Listening
                      && NoFault(log[..|log| - 1]) && Patient(log[..|log| - 1]))
    && match reason
       case NoReason => scan == Listening && NoFault(log) && Patient(log) && now >= deadline
       case MatchOk => scan == FoundOk
       case MatchError => scan == FoundError
       case BufferFull => scan == Full
       case UartError => scan == Listening && log != [] && log[|log| - 1].poll.Fault?
       case InterCharTimeout =>
         && scan == Listening && NoFault(log) && LastByteAt(log).Some?
         && log[|log| - 1].poll.Idle?
         && log[|log| - 1].stamp >= LastByteAt(log).value + 1000
       case OverallTimeout => false
  }

  lemma {:induction false} LastByteExists(log: seq<Pass>)
    ensures LastByteAt(log).Some? <==> Heard(log) != []
  {
    if log != [] {
      LastByteExists(log[..|log| - 1]);
    }
  }

  /** How many polls the flush makes from time `t` to its deadline, and when it is done. */
  function Flushed(script: seq<Poll>, t: Time, deadline: int): (r: (nat, Time))
    decreases |script|, if t.now < deadline then deadline - t.now else 0
  {
    var t1 := Tick(t, 0);
    if t1.now >= deadline then (0, t1)
    else
      var heard := script != [] && script[0].Got?;
      var (n, end) := Flushed(Rest(script, 1), if heard then t1 else Tick(t1, 1), deadline);
      (n + 1, end)
  }

  lemma {:induction false} FlushStep(script: seq<Poll>, t: Time, deadline: int)
    ensures var t1 := Tick(t, 0);
            Flushed(script, t, deadline) ==
              if t1.now >= deadline then (0, t1)
              else
                var heard := script != [] && script[0].Got?;
                var (n, end) := Flushed(Rest(script, 1), if heard then t1 else Tick(t1, 1), deadline);
                (n + 1, end)
    ensures script != [] ==> |Rest(script, 1)| < |script|
    ensures script == [] ==> Rest(script, 1) == []
  {}

  function Moved(s: bytes, to: nat, from: nat, n: nat): (r: bytes)
    requires to + n <= |s| && from + n <= |s|
    ensures |r| == |s|
  {
    s[..to] + s[from..from + n] + s[to + n..]
  }

  /** memmove within one array, by its C contract. */
  method MemMove(a: array<byte>, to: nat, from: nat, n: nat)
    requires to + n <= a.Length && from + n <= a.Length
    modifies a
    ensures a[..] == Moved(old(a[..]), to, from, n)
  {
    forall i | 0 <= i < n {
      a[to + i] := a[from + i];
    }
  }

  /** What memmove(buffer, buffer + 1, strlen(buffer)) leaves in the buffer. */
  function Shifted(buffer: bytes): bytes
    requires |CStr(buffer)| < |buffer|
  {
    Moved(buffer, 0, 1, |CStr(buffer)|)
  }

  lemma {:induction false} TrimLeadingStep(text: bytes)
    requires text != [] && Blank(text[0])
    ensures TrimLeading(text) == TrimLeading(text[1..])
  {}

  lemma {:induction false} MovedDown(buffer: bytes, n: nat)
    requires 0 < n < |buffer|
    ensures var after := Moved(buffer, 0, 1, n);
            && |after| == |buffer| && after[..n - 1] == buffer[1..n] && after[n - 1] == buffer[n]
            && forall i | n < i < |buffer| :: after[i] == buffer[i]
  {}

  lemma {:induction false} ShiftedOut(buffer: bytes)
    requires 0 < |buffer| && Blank(buffer[0]) && |CStr(buffer)| < |buffer|
    ensures |Shifted(buffer)| == |buffer|
    ensures CStr(buffer) != [] && CStr(Shifted(buffer)) == CStr(buffer)[1..]
    ensures TrimLeading(CStr(Shifted(buffer))) == TrimLeading(CStr(buffer))
    ensures forall i | |CStr(buffer)| < i < |buffer| :: Shifted(buffer)[i] == buffer[i]
  {
    hide CStr, TrimLeading, Moved;
    var text, after := CStr(buffer), Shifted(buffer);
    assert text != [] && text[0] == buffer[0];
    TrimLeadingStep(text);
    MovedDown(buffer, |text|);
    assert text == buffer[..|text|];
    assert after[..|text| - 1] == text[1..];
    assert NulFree(text[1..]);
    CStrUnique(after, |text| - 1);
  }

  class Modem {
    const uart: Uart
    const clock: Clock
    var lastDiagnostics: Diagnostics

    constructor (uart: Uart, clock: Clock)
      ensures this.uart == uart && this.clock == clock
      ensures lastDiagnostics == Diagnostics(0, false, NoReason, 0)
    {
      this.uart := uart;
      this.clock := clock;
      lastDiagnostics := Diagnostics(0, false, NoReason, 0);
    }

    /** Discards what comes in for 50 ms, sleeping 1 ms whenever nothing does. */
    method FlushRx() returns (ghost drawn: nat)
      modifies uart`polls, clock
      ensures var start := Tick(old(clock.When()), 0);
              (drawn, clock.When()) == Flushed(old(uart.polls), start, start.now + 50)
      ensures uart.polls == Rest(old(uart.polls), drawn) && old(clock.now) + 50 <= clock.now
    {
      hide Flushed, Tick, Rest;
      var start := clock.Uptime();
      var deadline := start + PRE_SEND_FLUSH_MS;
      drawn := 0;
      RestOfNothing(uart.polls);
      while true
        invariant uart.polls == Rest(old(uart.polls), drawn)
        invariant deadline >= old(clock.now) + 50
        invariant var (n, end) := Flushed(uart.polls, clock.When(), deadline);
                  Flushed(old(uart.polls), Tick(old(clock.When()), 0), deadline) == (drawn + n, end)
        decreases |uart.polls|, if clock.now < deadline then deadline - clock.now else 0
      {
        FlushStep(uart.polls, clock.When(), deadline);
        var t := clock.Uptime();
        if t >= deadline {
          break;
        }
        RestAfter(old(uart.polls), drawn);
        var p := uart.PollIn();
        drawn := drawn + 1;
        if !p.Got? {
          clock.Sleep(1);
        }
      }
    }

    /** Appends one byte, or reports a full buffer and stores nothing. */
    method ResponseAppend(response: array<byte>, responseSize: nat, length: nat, ch: byte)
      returns (ret: int, newLength: nat)
      requires length < responseSize <= response.Length
      modifies response, this`lastDiagnostics
      ensures ret == if length + 1 >= responseSize then -ENOSPC else 0
      ensures ret != 0 ==>
                && newLength == length && response[..] == old(response[..])
                && lastDiagnostics == old(lastDiagnostics).(exitReason := BufferFull)
      ensures ret == 0 ==>
                && newLength == length + 1 < responseSize
                && response[..newLength] == old(response[..length]) + [ch] && response[newLength] == NUL
                && (forall i | responseSize <= i < response.Length :: response[i] == old(response[i]))
                && lastDiagnostics == old(lastDiagnostics).(bytesReceived := newLength)
    {
      if length + 1 >= responseSize {
        lastDiagnostics := lastDiagnostics.(exitReason := BufferFull);
        return -ENOSPC, length;
      }
      response[length] := ch;
      newLength := length + 1;
      response[newLength] := NUL;
      lastDiagnostics := lastDiagnostics.(bytesReceived := newLength);
      ret := 0;
    }

    /** What the receive loop does with one byte: drop a CR, append anything else, and look
        for a terminator. The loop goes on while no exit reason has been recorded. */
    method TakeByte(response: array<byte>, responseSize: nat, length: nat, ch: byte)
      returns (ret: int, newLength: nat)
      requires length < responseSize <= response.Length && response[length] == NUL
      requires lastDiagnostics.bytesReceived == length && lastDiagnostics.exitReason == NoReason
      requires !HoldsOk(response[..length]) && !HoldsError(response[..length])
      modifies response, this`lastDiagnostics
      ensures newLength < responseSize && response[newLength] == NUL
      ensures response[..newLength] == old(response[..length])
                + (if ch == CR || length + 1 >= responseSize then [] else [ch])
      ensures forall i | responseSize <= i < response.Length :: response[i] == old(response[i])
      ensures ret == (if ch != CR && length + 1 >= responseSize then -ENOSPC else 0)
      ensures lastDiagnostics == old(lastDiagnostics).(
                bytesReceived := newLength,
                exitReason := if ret != 0 then BufferFull
                              else if HoldsOk(response[..newLength]) then MatchOk
                              else if HoldsError(response[..newLength]) then MatchError
                              else NoReason)
    {
      ret, newLength := 0, length;
      if ch == CR {
        return;
      }
      ret, newLength := ResponseAppend(response, responseSize, length, ch);
      if ret != 0 {
        return;
      }
      CStrOfTerminated(response[..], newLength);
      assert response[..][..newLength] == response[..newLength];
      if Holds(IrqVerdict.LF_OK_LF, response[..]) {
        lastDiagnostics := lastDiagnostics.(exitReason := MatchOk);
      } else if Holds(POLL_ERROR, response[..]) {
        lastDiagnostics := lastDiagnostics.(exitReason := MatchError);
      }
    }

    /** One pass of the receive loop after its clock test, with the loop's variables in and out. */
    method OnePass(response: array<byte>, responseSize: nat, length: nat, sawAnyByte: bool,
                   interCharDeadline: int, ghost heard: bytes, ghost t: Time, ghost last: Option<int>)
      returns (ret: int, newLength: nat, saw: bool, newDeadline: int, ghost pass: Pass)
      requires 0 < responseSize <= response.Length && clock.When() == Tick(t, 0)
      requires last == if sawAnyByte then Some(interCharDeadline - INTER_CHAR_TIMEOUT_MS) else None
      requires PollScan(heard, responseSize) == Listening
      requires length < responseSize && response[length] == NUL && response[..length] == StripCr(heard)
      requires lastDiagnostics.bytesReceived == length && lastDiagnostics.exitReason == NoReason
      requires lastDiagnostics.sawAnyByte == sawAnyByte
      modifies response, this`lastDiagnostics, uart`polls, clock
      ensures pass.at == old(clock.now) <= pass.stamp <= clock.now
      ensures PassTimed(t, last, pass) && clock.When() == pass.after
      ensures pass.poll == if old(uart.polls) == [] then Idle else old(uart.polls)[0]
      ensures uart.polls == Rest(old(uart.polls), 1)
      ensures old(uart.polls) == [] && lastDiagnostics.exitReason == NoReason ==> clock.now > old(clock.now)
      ensures newLength < responseSize && response[newLength] == NUL
      ensures forall i | responseSize <= i < response.Length :: response[i] == old(response[i])
      ensures var more := heard + (if pass.poll.Got? then [pass.poll.b] else []);
              && response[..newLength] == Stored(more, responseSize)
              && (pass.poll.Got? ==> lastDiagnostics.exitReason == ReasonOf(PollScan(more, responseSize)))
      ensures saw == (sawAnyByte || pass.poll.Got?)
      ensures newDeadline == if pass.poll.Got? then pass.stamp + 1000 else interCharDeadline
      ensures pass.poll.Idle? ==>
                lastDiagnostics.exitReason ==
                  (if sawAnyByte && pass.stamp >= interCharDeadline then InterCharTimeout else NoReason)
      ensures pass.poll.Fault? ==> lastDiagnostics.exitReason == UartError
      ensures ret == RetOf(lastDiagnostics.exitReason)
      ensures lastDiagnostics == Diagnostics(newLength, saw, lastDiagnostics.exitReason, UartRet(pass.poll))
    {
      hide PollScan, StripCr, CStr, HoldsOk, HoldsError, Tick;
      ret, newLength, saw, newDeadline := 0, length, sawAnyByte, interCharDeadline;
      ghost var at := clock.now;
      var p := uart.PollIn();
      pass := Pass(at, p, at, clock.When());
      lastDiagnostics := lastDiagnostics.(lastUartRet := UartRet(p));
      ListeningStoresAll(heard, responseSize);
      assert heard + [] == heard;
      match p {
        case Got(ch) =>
          saw := true;
          lastDiagnostics := lastDiagnostics.(sawAnyByte := true);
          var now := clock.Uptime();
          pass := Pass(at, p, now, clock.When());
          newDeadline := now + INTER_CHAR_TIMEOUT_MS;
          ScanStep(heard, ch, responseSize);
          ret, newLength := TakeByte(response, responseSize, length, ch);
        case Idle =>
          if sawAnyByte {
            var now := clock.Uptime();
            pass := Pass(at, p, now, clock.When());
            if now >= interCharDeadline {
              lastDiagnostics := lastDiagnostics.(exitReason := InterCharTimeout);
              return;
            }
          }
          clock.Sleep(IDLE_SLEEP_MS);
          pass := pass.(after := clock.When());
        case Fault(_) =>
          lastDiagnostics := lastDiagnostics.(exitReason := UartError);
          ret := -EIO;
      }
    }

    /** The receive loop. `ret` is 0 when the loop was left normally and the caller goes on
        to trim, and the error the call returns otherwise. */
    method Receive(response: array<byte>, responseSize: nat)
      returns (ret: int, length: nat, ghost log: seq<Pass>, ghost deadline: int)
      requires 0 < responseSize <= response.Length && response[0] == NUL
      requires lastDiagnostics == Diagnostics(0, false, NoReason, 0)
      modifies response, this`lastDiagnostics, uart`polls, clock
      ensures old(clock.now) <= clock.now
      ensures var t0 := Tick(old(clock.When()), 0);
              && deadline == t0.now + 5000 && Clocked(log, t0)
              && clock.When() == TimeAtEnd(t0, log, lastDiagnostics.exitReason)
      ensures Ended(log, old(uart.polls), uart.polls, responseSize, deadline, clock.now, lastDiagnostics.exitReason)
      ensures ret == RetOf(lastDiagnostics.exitReason)
      ensures length < responseSize && response[length] == NUL
      ensures response[..length] == Stored(Heard(log), responseSize)
      ensures forall i | responseSize <= i < response.Length :: response[i] == old(response[i])
      ensures lastDiagnostics.bytesReceived == length
      ensures lastDiagnostics.sawAnyByte == (Heard(log) != [])
      ensures lastDiagnostics.lastUartRet == LastUartRet(log)
    {
      hide PollScan, StripCr, Stored, Receiving, Ended, Heard, LastByteAt, Tick, Clocked, TimeAfter, PassTimed;
      ret, length, log := 0, 0, [];
      var sawAnyByte := false;
      var start := clock.Uptime();
      ghost var t0 := clock.When();
      NoPassYet(t0);
      var limit := start + RESPONSE_TIMEOUT_MS;
      var interCharDeadline := limit;
      deadline := limit;
      ghost var heard: bytes := [];
      ReceivingStarts(uart.polls, responseSize, limit, clock.now);

      while true
        invariant ret == 0 && deadline == limit && old(clock.now) <= clock.now
        invariant Clocked(log, t0) && clock.When() == TimeAfter(t0, log)
        invariant Receiving(log, old(uart.polls), uart.polls, responseSize, limit, clock.now)
        invariant length < responseSize && response[length] == NUL
        invariant heard == Heard(log)
        invariant response[..length] == StripCr(heard)
        invariant forall i | responseSize <= i < response.Length :: response[i] == old(response[i])
        invariant lastDiagnostics.bytesReceived == length
        invariant sawAnyByte == lastDiagnostics.sawAnyByte == (heard != [])
        invariant lastDiagnostics.exitReason == NoReason
        invariant LastByteAt(log) == if sawAnyByte then Some(interCharDeadline - INTER_CHAR_TIMEOUT_MS) else None
        invariant lastDiagnostics.lastUartRet == LastUartRet(log)
        decreases |uart.polls|, if clock.now < limit then limit - clock.now else 0
      {
        ghost var before := clock.now;
        var t := clock.Uptime();
        TimePasses(log, old(uart.polls), uart.polls, responseSize, limit, before, t);
        assert PollScan(heard, responseSize) == Listening;
        if t >= limit {
          StopsAtDeadline(log, old(uart.polls), uart.polls, responseSize, limit, clock.now);
          break;
        }
        ghost var polls := uart.polls;
        ghost var last := LastByteAt(log);
        ghost var pass: Pass;
        ret, length, sawAnyByte, interCharDeadline, pass :=
          OnePass(response, responseSize, length, sawAnyByte, interCharDeadline, heard, TimeAfter(t0, log), last);
        ClockedStep(log, pass, t0);
        PassAdded(log, pass, old(uart.polls), polls, uart.polls, responseSize, limit, clock.now,
                  lastDiagnostics.exitReason);
        log, heard := log + [pass], heard + (if pass.poll.Got? then [pass.poll.b] else []);
        if lastDiagnostics.exitReason != NoReason {
          break;
        }
      }
    }

    /** The first trimming loop: blanks at the end are overwritten with NUL. */
    method TrimEnd(response: array<byte>, responseSize: nat, length: nat)
      requires length < responseSize <= response.Length && response[length] == NUL
      modifies response
      ensures CStr(response[..]) == CStr(TrimTrailing(old(response[..length])))
      ensures |CStr(response[..])| < responseSize
      ensures forall i | responseSize <= i < response.Length :: response[i] == old(response[i])
    {
      hide CStr;
      var n: nat := length;
      while n > 0 && Blank(response[n - 1])
        invariant n < responseSize && response[n] == NUL
        invariant TrimTrailing(response[..n]) == TrimTrailing(old(response[..length]))
        invariant forall i | responseSize <= i < response.Length :: response[i] == old(response[i])
      {
        assert response[..n][..n - 1] == response[..n - 1];
        response[n - 1] := NUL;
        n := n - 1;
      }
      CStrOfTerminated(response[..], n);
      assert response[..][..n] == response[..n];
    }

    /** The second trimming loop: blanks at the front are shifted out one at a time. */
    method TrimFront(response: array<byte>, responseSize: nat)
      requires |CStr(response[..])| < responseSize <= response.Length
      modifies response
      ensures CStr(response[..]) == TrimLeading(CStr(old(response[..])))
      ensures |CStr(response[..])| < responseSize
      ensures forall i | responseSize <= i < response.Length :: response[i] == old(response[i])
    {
      hide CStr, Moved;
      while Blank(response[0])
        invariant TrimLeading(CStr(response[..])) == TrimLeading(CStr(old(response[..])))
        invariant |CStr(response[..])| < responseSize
        invariant forall i | responseSize <= i < response.Length :: response[i] == old(response[i])
        decreases |CStr(response[..])|
      {
        ghost var before := response[..];
        assert Blank(before[0]);
        ShiftedOut(before);
        MemMove(response, 0, 1, |CStr(response[..])|);
        assert response[..] == Shifted(before);
      }
      assert CStr(response[..]) != [] ==> CStr(response[..])[0] == response[..][0];
    }

    method Trim(response: array<byte>, responseSize: nat, length: nat)
      requires length < responseSize <= response.Length && response[length] == NUL
      modifies response
      ensures CStr(response[..]) == CStr(response[..responseSize]) == Trimmed(old(response[..length]))
      ensures |CStr(response[..])| < responseSize
      ensures forall i | responseSize <= i < response.Length :: response[i] == old(response[i])
    {
      hide CStr, TrimLeading, TrimTrailing;
      TrimEnd(response, responseSize, length);
      TrimFront(response, responseSize);
      CStrOfPrefix(response[..], responseSize);
      assert response[..][..responseSize] == response[..responseSize];
      assert CStr(response[..])[..|CStr(response[..])|] == CStr(response[..]);
    }

    /** modem_at_send. The ghost results are the passes of the receive loop, how many polls
        the flush discarded before it, and its deadline. */
    method Send(command: Option<bytes>, response: array?<byte>, responseSize: nat)
      returns (ret: int, ghost log: seq<Pass>, ghost flushed: nat, ghost deadline: int)
      requires command.Some? ==> NulFree(command.value)
      requires response != null ==> responseSize <= response.Length
      modifies response, this`lastDiagnostics, uart, clock
      ensures old(clock.now) <= clock.now
      ensures var valid := command.Some? && response != null && responseSize > 0;
              && (!valid ==> ret == -EINVAL)
              && (valid && !old(uart.ReadyNext()) ==> ret == -ENODEV)
              && uart.answers == (if valid then Rest(old(uart.answers), 1) else old(uart.answers))
              && (!valid || !old(uart.ReadyNext()) ==>
                    && clock.When() == old(clock.When())
                    && lastDiagnostics == old(lastDiagnostics) && uart.sent == old(uart.sent)
                    && uart.polls == old(uart.polls)
                    && (response != null ==> response[..] == old(response[..])))
      ensures command.Some? && response != null && responseSize > 0 && old(uart.ReadyNext()) ==>
                && uart.sent == old(uart.sent) + command.value + [CR]
                && SentAt(old(uart.polls), old(clock.When()), flushed, deadline, log, clock.When(),
                          LoopReason(lastDiagnostics.exitReason))
                && Ended(log, Rest(old(uart.polls), flushed), uart.polls, responseSize, deadline, clock.now,
                         LoopReason(lastDiagnostics.exitReason))
                && Accounted(ret, lastDiagnostics, Heard(log), responseSize, response[..responseSize])
                && lastDiagnostics.lastUartRet == LastUartRet(log)
                && (forall i | responseSize <= i < response.Length :: response[i] == old(response[i]))
    {
      hide Ended, Accounted, SentAt, Heard, Tick, LastUartRet;
      log, flushed, deadline := [], 0, 0;
      if command == None || response == null || responseSize == 0 {
        return -EINVAL, log, flushed, deadline;
      }
      var ready := uart.IsReady();
      if !ready {
        return -ENODEV, log, flushed, deadline;
      }
      ret, log, flushed, deadline := Talk(command.value, response, responseSize);
    }

    /** The call once its arguments and the device are found in order. */
    method Talk(command: bytes, response: array<byte>, responseSize: nat)
      returns (ret: int, ghost log: seq<Pass>, ghost flushed: nat, ghost deadline: int)
      requires 0 < responseSize <= response.Length
      modifies response, this`lastDiagnostics, uart`polls, uart`sent, clock
      ensures old(clock.now) <= clock.now
      ensures uart.sent == old(uart.sent) + command + [CR]
      ensures SentAt(old(uart.polls), old(clock.When()), flushed, deadline, log, clock.When(),
                     LoopReason(lastDiagnostics.exitReason))
      ensures Ended(log, Rest(old(uart.polls), flushed), uart.polls, responseSize, deadline, clock.now,
                    LoopReason(lastDiagnostics.exitReason))
      ensures Accounted(ret, lastDiagnostics, Heard(log), responseSize, response[..responseSize])
      ensures lastDiagnostics.lastUartRet == LastUartRet(log)
      ensures forall i | responseSize <= i < response.Length :: response[i] == old(response[i])
    {
      hide Ended, Accounted, SentAt, Clocked, Flushed, Tick, TimeAfter, Heard, Stored, StripCr, LastUartRet,
           RetOf, Rest;
      lastDiagnostics := Diagnostics(0, false, NoReason, 0);
      response[0] := NUL;
      flushed := FlushRx();
      ghost var quiet := clock.When();
      Transmit(command);
      var length;
      ret, length, log, deadline := Receive(response, responseSize);
      WhenSent(old(uart.polls), old(clock.When()), quiet, flushed, deadline, log, clock.When(),
               lastDiagnostics.exitReason);
      ret := Conclude(response, responseSize, ret, length, log, Rest(old(uart.polls), flushed), deadline);
    }

    /** The command and its terminating CR, byte by byte. */
    method Transmit(command: bytes)
      modifies uart`sent
      ensures uart.sent == old(uart.sent) + command + [CR]
    {
      for i := 0 to |command|
        invariant uart.sent == old(uart.sent) + command[..i]
      {
        uart.PollOut(command[i]);
      }
      assert command[..|command|] == command;
      uart.PollOut(CR);
    }

    /** What modem_at_send does once its receive loop is over. */
    method Conclude(response: array<byte>, responseSize: nat, loopRet: int, length: nat,
                    ghost log: seq<Pass>, ghost script: seq<Poll>, ghost deadline: int)
      returns (ret: int)
      requires 0 < responseSize <= response.Length
      requires Ended(log, script, uart.polls, responseSize, deadline, clock.now, lastDiagnostics.exitReason)
      requires loopRet == RetOf(lastDiagnostics.exitReason)
      requires length < responseSize && response[length] == NUL
      requires response[..length] == Stored(Heard(log), responseSize)
      requires lastDiagnostics.bytesReceived == length
      requires lastDiagnostics.sawAnyByte == (Heard(log) != [])
      modifies response, this`lastDiagnostics
      ensures LoopReason(lastDiagnostics.exitReason) == old(lastDiagnostics.exitReason)
      ensures Ended(log, script, uart.polls, responseSize, deadline, clock.now,
                    LoopReason(lastDiagnostics.exitReason))
      ensures Accounted(ret, lastDiagnostics, Heard(log), responseSize, response[..responseSize])
      ensures lastDiagnostics.lastUartRet == old(lastDiagnostics.lastUartRet)
      ensures forall i | responseSize <= i < response.Length :: response[i] == old(response[i])
    {
      ghost var reason, heard := lastDiagnostics.exitReason, Heard(log);
      AccountsForEnd(log, responseSize, deadline, clock.now, reason);
      hide Ended, Accounted, Stored, StripCr, Heard, CStr, Trimmed;
      assert response[..responseSize][..length] == response[..length];
      if loopRet != 0 {
        AccountedError(loopRet, lastDiagnostics, heard, responseSize, response[..responseSize], reason);
        return loopRet;
      }
      if !lastDiagnostics.sawAnyByte {
        lastDiagnostics := lastDiagnostics.(exitReason := OverallTimeout);
        AccountedError(-ETIMEDOUT, lastDiagnostics, heard, responseSize, response[..responseSize], reason);
        return -ETIMEDOUT;
      }
      if lastDiagnostics.exitReason == NoReason {
        lastDiagnostics := lastDiagnostics.(exitReason := OverallTimeout);
      }
      Trim(response, responseSize, length);
      lastDiagnostics := lastDiagnostics.(bytesReceived := |CStr(response[..])|);
      AccountedSuccess(lastDiagnostics, heard, responseSize, response[..responseSize], reason);
      ret := 0;
    }
  }

  lemma {:induction false} AccountedError(ret: int, d: Diagnostics, heard: bytes, responseSize: nat,
                                          buffer: bytes, loopReason: ExitReason)
    requires responseSize == |buffer| > 0 && d.bytesReceived < responseSize
    requires buffer[..d.bytesReceived] == Stored(heard, responseSize) && buffer[d.bytesReceived] == NUL
    requires d.sawAnyByte == (heard != [])
    requires loopReason == BufferFull ==>
               ret == -ENOSPC && d.exitReason == BufferFull && heard != []
               && |Stored(heard, responseSize)| == responseSize - 1
    requires loopReason == UartError ==> ret == -EIO && d.exitReason == UartError
    requires loopReason !in {BufferFull, UartError} ==>
               ret == -ETIMEDOUT && d.exitReason == OverallTimeout && heard == []
    ensures Accounted(ret, d, heard, responseSize, buffer)
  {}

  lemma {:induction false} AccountedSuccess(d: Diagnostics, heard: bytes, responseSize: nat,
                                            buffer: bytes, loopReason: ExitReason)
    requires responseSize == |buffer| > 0 && d.bytesReceived == |CStr(buffer)| < responseSize
    requires d.sawAnyByte && heard != [] && CStr(buffer) == Trimmed(StripCr(heard))
    requires loopReason !in {BufferFull, UartError}
    requires d.exitReason == if loopReason == NoReason then OverallTimeout else loopReason
    ensures Accounted(0, d, heard, responseSize, buffer)
  {}

  /** When everything happened in a call that began at `t`: 50 ms of flushing that made `flushed`
      polls, then the receive loop with its deadline 5000 ms later, and nothing besides. */
  ghost predicate SentAt(script: seq<Poll>, t: Time, flushed: nat, deadline: int, log: seq<Pass>, end: Time,
                         reason: ExitReason)
  {
    var begun := Tick(t, 0);
    var (n, quiet) := Flushed(script, begun, begun.now + 50);
    var t0 := Tick(quiet, 0);
    && flushed == n && deadline == t0.now + 5000
    && Clocked(log, t0) && end == TimeAtEnd(t0, log, reason)
  }

  lemma {:induction false} WhenSent(script: seq<Poll>, t: Time, quiet: Time, flushed: nat, deadline: int,
                                    log: seq<Pass>, end: Time, reason: ExitReason)
    requires var begun := Tick(t, 0); (flushed, quiet) == Flushed(script, begun, begun.now + 50)
    requires var t0 := Tick(quiet, 0);
             deadline == t0.now + 5000 && Clocked(log, t0) && end == TimeAtEnd(t0, log, reason)
    ensures SentAt(script, t, flushed, deadline, log, end, reason)
  {}

  /** The loop itself records no reason when the deadline ends it. */
  function LoopReason(reason: ExitReason): ExitReason {
    if reason == OverallTimeout then NoReason else reason
  }

  /** The books of a call that got as far as receiving: return value, diagnostics and buffer. */
  ghost predicate Accounted(ret: int, d: Diagnostics, heard: bytes, responseSize: nat, buffer: bytes)
    requires responseSize == |buffer| > 0
  {
    && d.exitReason != NoReason
    && d.sawAnyByte == (heard != [])
    && (ret == -ENOSPC <==> d.exitReason == BufferFull)
    && (ret == -EIO <==> d.exitReason == UartError)
    && (ret == -ETIMEDOUT <==> heard == [] && d.exitReason != UartError)
    && (ret == -ETIMEDOUT ==> d.exitReason == OverallTimeout)
    && ret in {0, -ENOSPC, -EIO, -ETIMEDOUT}
    && (ret == 0 ==>
          && CStr(buffer) == Trimmed(StripCr(heard))
          && d.bytesReceived == |CStr(buffer)| < responseSize)
    && (ret != 0 ==>
          && d.bytesReceived == |Stored(heard, responseSize)| < responseSize
          && buffer[..d.bytesReceived] == Stored(heard, responseSize) && buffer[d.bytesReceived] == NUL)
    && (ret == -ENOSPC ==> d.bytesReceived == responseSize - 1)
  }

  lemma {:induction false} AccountsForEnd(log: seq<Pass>, responseSize: nat, deadline: int, now: int,
                                          reason: ExitReason)
    requires responseSize > 0 && EndsBecause(log, responseSize, deadline, now, reason)
    ensures reason == BufferFull ==> |Stored(Heard(log), responseSize)| == responseSize - 1
    ensures reason in {BufferFull, MatchOk, MatchError, InterCharTimeout} ==> Heard(log) != []
    ensures reason !in {BufferFull} ==> Stored(Heard(log), responseSize) == StripCr(Heard(log))
  {
    var heard := Heard(log);
    LastByteExists(log);
    PollExact(heard, responseSize);
    if reason in {MatchOk, MatchError} {
      assert heard != [];
      HeardStep(log);
      MatchStopsAtShortestPrefix(heard, responseSize);
    } else if reason != BufferFull {
      ListeningStoresAll(heard, responseSize);
    }
  }

  lemma {:induction false} HeardStep(log: seq<Pass>)
    requires log != [] && log[|log| - 1].poll.Got?
    ensures Heard(log) != [] && Heard(log)[..|Heard(log)| - 1] == Heard(log[..|log| - 1])
  {}

  function RetOf(reason: ExitReason): int {
    match reason
    case BufferFull => -ENOSPC
    case UartError => -EIO
    case _ => 0
  }

  /** The receive loop between two passes. */
  ghost predicate Receiving(log: seq<Pass>, script: seq<Poll>, left: seq<Poll>, responseSize: nat,
                            deadline: int, now: int)
    requires responseSize > 0
  {
    && Drew(log, script, left) && Timely(log, deadline, now) && NoFault(log) && Patient(log)
    && PollScan(Heard(log), responseSize) == Listening
  }

  function ReasonOf(scan: Scan): ExitReason {
    match scan
    case Listening => NoReason
    case FoundOk => MatchOk
    case FoundError => MatchError
    case Full => BufferFull
  }

  /** The receive loop after it was left. */
  ghost predicate Ended(log: seq<Pass>, script: seq<Poll>, left: seq<Poll>, responseSize: nat,
                        deadline: int, now: int, reason: ExitReason)
    requires responseSize > 0
  {
    && Drew(log, script, left) && Timely(log, deadline, now)
    && EndsBecause(log, responseSize, deadline, now, reason)
  }

  lemma {:induction false} ReceivingStarts(script: seq<Poll>, responseSize: nat, deadline: int, now: int)
    requires responseSize > 0
    ensures Receiving([], script, script, responseSize, deadline, now)
    ensures Heard([]) == StripCr([]) == [] && LastByteAt([]) == None
  {}

  lemma {:induction false} TimePasses(log: seq<Pass>, script: seq<Poll>, left: seq<Poll>, responseSize: nat,
                                      deadline: int, now: int, later: int)
    requires responseSize > 0 && Receiving(log, script, left, responseSize, deadline, now) && now <= later
    ensures Receiving(log, script, left, responseSize, deadline, later)
    ensures PollScan(Heard(log), responseSize) == Listening
  {}

  lemma {:induction false} LogStep(log: seq<Pass>, pass: Pass)
    ensures var more := log + [pass];
            && more[..|log|] == log
            && Heard(more) == Heard(log) + (if pass.poll.Got? then [pass.poll.b] else [])
            && LastByteAt(more) == (if pass.poll.Got? then Some(pass.stamp) else LastByteAt(log))
            && (NoFault(log) && !pass.poll.Fault? ==> NoFault(more))
  {}

  lemma {:induction false} DrewStep(log: seq<Pass>, pass: Pass, script: seq<Poll>, before: seq<Poll>)
    requires Drew(log, script, before) && pass.poll == if before == [] then Idle else before[0]
    ensures Drew(log + [pass], script, Rest(before, 1))
  {}

  lemma {:induction false} TimelyStep(log: seq<Pass>, pass: Pass, deadline: int, now: int)
    requires Timely(log, deadline, pass.at) && pass.at < deadline && pass.at <= pass.stamp <= now
    ensures Timely(log + [pass], deadline, now)
  {}

  lemma {:induction false} PatientStep(log: seq<Pass>, pass: Pass)
    requires Patient(log)
    requires pass.poll.Idle? && LastByteAt(log).Some? ==>
               pass.stamp < LastByteAt(log).value + 1000
    ensures Patient(log + [pass])
  {
    hide LastByteAt;
    var more := log + [pass];
    assert more[..|log|] == log;
    assert forall i | 0 <= i < |log| :: more[..i] == log[..i];
  }

  lemma {:induction false} NoPassYet(t0: Time)
    ensures Clocked([], t0) && TimeAfter(t0, []) == t0
  {}

  lemma {:induction false} ClockedStep(log: seq<Pass>, pass: Pass, t0: Time)
    requires Clocked(log, t0) && PassTimed(TimeAfter(t0, log), LastByteAt(log), pass)
    ensures Clocked(log + [pass], t0) && TimeAfter(t0, log + [pass]) == pass.after
  {
    hide LastByteAt, PassTimed;
    var more := log + [pass];
    assert more[..|log|] == log;
    assert forall i | 0 <= i < |log| :: more[..i] == log[..i];
  }

  lemma {:induction false} PassAdded(log: seq<Pass>, pass: Pass, script: seq<Poll>, before: seq<Poll>,
                                     left: seq<Poll>, responseSize: nat, deadline: int, now: int,
                                     reason: ExitReason)
    requires responseSize > 0 && Receiving(log, script, before, responseSize, deadline, pass.at)
    requires left == Rest(before, 1) && pass.poll == if before == [] then Idle else before[0]
    requires pass.at < deadline && pass.at <= pass.stamp <= now
    requires pass.poll.Got? ==> reason == ReasonOf(PollScan(Heard(log) + [pass.poll.b], responseSize))
    requires pass.poll.Fault? ==> reason == UartError
    requires pass.poll.Idle? ==>
               || (reason == NoReason
                   && (LastByteAt(log).Some? ==> pass.stamp < LastByteAt(log).value + 1000))
               || (reason == InterCharTimeout && LastByteAt(log).Some?
                   && pass.stamp >= LastByteAt(log).value + 1000)
    ensures var more := log + [pass];
            && Heard(more) == Heard(log) + (if pass.poll.Got? then [pass.poll.b] else [])
            && LastByteAt(more) == (if pass.poll.Got? then Some(pass.stamp) else LastByteAt(log))
            && (if reason == NoReason then Receiving(more, script, left, responseSize, deadline, now)
                else Ended(more, script, left, responseSize, deadline, now, reason))
            && (reason == NoReason ==> Stored(Heard(more), responseSize) == StripCr(Heard(more)))
  {
    LogStep(log, pass);
    DrewStep(log, pass, script, before);
    TimelyStep(log, pass, deadline, now);
    if reason == NoReason {
      PatientStep(log, pass);
    }
    hide PollScan, StripCr, Heard, LastByteAt, Drew, Timely, Stored, NoFault, Patient;
    var more := log + [pass];
    assert Heard(log) + [] == Heard(log);
    if reason == NoReason {
      ListeningStoresAll(Heard(more), responseSize);
    }
  }

  lemma {:induction false} StopsAtDeadline(log: seq<Pass>, script: seq<Poll>, left: seq<Poll>, responseSize: nat,
                        deadline: int, now: int)
    requires responseSize > 0 && Receiving(log, script, left, responseSize, deadline, now)
    requires now >= deadline
    ensures Ended(log, script, left, responseSize, deadline, now, NoReason)
    ensures Stored(Heard(log), responseSize) == StripCr(Heard(log))
  {
    ListeningStoresAll(Heard(log), responseSize);
    EarlierListening(log, responseSize);
    PatientBefore(log);
  }

  lemma {:induction false} PatientBefore(log: seq<Pass>)
    requires Patient(log)
    ensures log != [] ==> Patient(log[..|log| - 1])
  {
    hide LastByteAt;
    if log != [] {
      assert forall i | 0 <= i < |log| - 1 :: log[..|log| - 1][..i] == log[..i];
    }
  }

  lemma {:induction false} EarlierListening(log: seq<Pass>, responseSize: nat)
    requires responseSize > 0 && PollScan(Heard(log), responseSize) == Listening
    ensures log != [] ==> PollScan(Heard(log[..|log| - 1]), responseSize) == Listening
  {}

  // ----- Whole calls -----

  /** A call that matched reads as a response ending in "OK" or "ERROR", and its last byte
      completed the shortest prefix of the CR-free stream with a terminator in it. */
  lemma {:induction false} MatchedCall(log: seq<Pass>, responseSize: nat, deadline: int, now: int,
                                       reason: ExitReason)
    requires responseSize > 0 && reason in {MatchOk, MatchError}
    requires EndsBecause(log, responseSize, deadline, now, reason)
    ensures var text := StripCr(Heard(log));
            var r := Trimmed(text);
            && (forall n | 0 <= n < |text| :: !HoldsOk(text[..n]) && !HoldsError(text[..n]))
            && (reason == MatchOk ==> HoldsOk(text) && 2 <= |r| && r[|r| - 2..] == [79, 75])
            && (reason == MatchError ==> HoldsError(text) && 5 <= |r| && r[|r| - 5..] == [69, 82, 82, 79, 82])
  {
    var heard := Heard(log);
    assert log != [] && log[|log| - 1].poll.Got?;
    HeardStep(log);
    ScanStep(heard[..|heard| - 1], heard[|heard| - 1], responseSize);
    assert heard == heard[..|heard| - 1] + [heard[|heard| - 1]];
    hide PollScan, StripCr, Heard, HoldsOk, HoldsError, Trimmed, Patient;
    MatchStopsAtShortestPrefix(heard, responseSize);
    MatchedResponseEnds(heard, responseSize);
  }

  /** The UART hands over the stream without a gap. */
  ghost predicate GapFree(script: seq<Poll>, stream: bytes) {
    |stream| <= |script| && forall i | 0 <= i < |stream| :: script[i] == Got(stream[i])
  }

  lemma {:induction false} HeardOfGapFree(log: seq<Pass>, script: seq<Poll>, left: seq<Poll>, stream: bytes)
    requires Drew(log, script, left) && GapFree(script, stream) && |log| <= |stream|
    ensures Heard(log) == stream[..|log|]
    decreases |log|
  {
    if log != [] {
      var init := log[..|log| - 1];
      HeardOfGapFree(init, script, Rest(script, |init|), stream);
    }
  }

  lemma {:induction false} HeardPrefix(log: seq<Pass>, n: nat)
    requires n <= |log|
    ensures Heard(log[..n]) <= Heard(log)
    decreases |log|
  {
    if n < |log| {
      assert log[..|log| - 1][..n] == log[..n];
      HeardPrefix(log[..|log| - 1], n);
    } else {
      assert log[..n] == log;
    }
  }

  lemma {:induction false} DrewPrefix(log: seq<Pass>, script: seq<Poll>, left: seq<Poll>, n: nat)
    requires Drew(log, script, left) && n <= |log|
    ensures Drew(log[..n], script, Rest(script, n))
  {}

  /** The deadline, not the stream, ended the call: the clock had passed the deadline before all
      of the stream was heard. */
  ghost predicate CutOff(log: seq<Pass>, stream: bytes, deadline: int, now: int, reason: ExitReason) {
    reason == NoReason && now >= deadline && |log| < |stream|
  }

  /** A polling call fed without a gap a stream on which the scan decides ends as that scan says,
      unless the clock passed the deadline before the stream was heard; so on a call that is over
      before its deadline the scan always decides. */
  lemma {:induction false} GapFreeCallFollowsScan(log: seq<Pass>, script: seq<Poll>, left: seq<Poll>,
                                                  responseSize: nat, deadline: int, now: int,
                                                  reason: ExitReason, stream: bytes)
    requires responseSize > 0 && Ended(log, script, left, responseSize, deadline, now, reason)
    requires GapFree(script, stream) && PollScan(stream, responseSize) != Listening
    ensures reason == ReasonOf(PollScan(stream, responseSize)) || CutOff(log, stream, deadline, now, reason)
    ensures now < deadline ==> reason == ReasonOf(PollScan(stream, responseSize))
  {
    hide PollScan, StripCr, Heard, Timely, Patient;
    if |log| > |stream| || (|log| == |stream| && reason == NoReason) {
      var n := |stream|;
      DrewPrefix(log, script, left, n);
      HeardOfGapFree(log[..n], script, Rest(script, n), stream);
      var earlier := if |log| > n then log[..|log| - 1] else log;
      assert earlier[..n] == log[..n];
      HeardPrefix(earlier, n);
      assert Heard(earlier)[..n] == stream;
      ScanLatches(Heard(earlier), n, responseSize);
      assert false;
    }
    HeardOfGapFree(log, script, left, stream);
    if reason != NoReason {
      assert log != [] ==> log[|log| - 1].poll == script[|log| - 1];
      assert PollScan(stream[..|log|], responseSize) != Listening;
      ScanLatches(stream, |log|, responseSize);
    }
  }

  /**
    The two receivers agree on success: if some cutting of the stream makes the interrupt
    receiver answer 0, a gap-free polling call of the same buffer size that its deadline does
    not cut off matches OK, unless "\nERROR\n" completes earlier in the CR-free stream, and
    then it matches ERROR.
   */
  lemma {:induction false} CallsAgree(log: seq<Pass>, script: seq<Poll>, left: seq<Poll>,
                                      responseSize: nat, deadline: int, now: int,
                                      reason: ExitReason, chunks: seq<bytes>)
    requires responseSize > 0 && Ended(log, script, left, responseSize, deadline, now, reason)
    requires GapFree(script, Flatten(chunks))
    requires IrqVerdict.RunVerdict(chunks, responseSize) == IrqVerdict.Success
    ensures var text := StripCr(Flatten(chunks));
            var agreed := if ErrorLength(text) < OkLength(text) then MatchError else MatchOk;
            && (reason == agreed || CutOff(log, Flatten(chunks), deadline, now, reason))
            && (now < deadline ==> reason == agreed)
  {
    hide PollScan, StripCr, Heard, Timely, Ended, OkLength, ErrorLength;
    ReceiversAgree(chunks, responseSize);
    GapFreeCallFollowsScan(log, script, left, responseSize, deadline, now, reason, Flatten(chunks));
  }

  // ----- Where the time goes -----

  /** How many idle passes were slept out: all but one that found the last byte 1000 ms old. */
  function SleptOut(log: seq<Pass>): nat {
    if log == [] then 0
    else
      var init, p := log[..|log| - 1], log[|log| - 1];
      var overdue := LastByteAt(init).Some? && p.stamp >= LastByteAt(init).value + 1000;
      SleptOut(init) + (if p.poll.Idle? && !overdue then 1 else 0)
  }

  /** The books of the clock: the loop lets no time pass but 10 ms for each idle pass, besides the
      lag that its own readings meet. */
  lemma {:induction false} TimeIsSleptOut(log: seq<Pass>, t0: Time)
    requires Clocked(log, t0)
    ensures Horizon(TimeAfter(t0, log)) == Horizon(t0) + 10 * SleptOut(log)
    decreases |log|
  {
    if log != [] {
      var n := |log| - 1;
      var init, p := log[..n], log[n];
      assert forall i | 0 <= i < n :: init[i] == log[i] && init[..i] == log[..i];
      TimeIsSleptOut(init, t0);
      hide Clocked, SleptOut, LastByteAt, Tick, Horizon;
      var t := TimeAfter(t0, init);
      assert PassTimed(t, LastByteAt(init), p) by { PassOf(log, t0, n); }
      TickMovesHorizon(t, 0);
      TickMovesHorizon(Tick(t, 0), 0);
      TickMovesHorizon(Tick(t, 0), 10);
      TickMovesHorizon(Tick(Tick(t, 0), 0), 10);
      SleptOutStep(log);
    }
  }

  lemma {:induction false} PassOf(log: seq<Pass>, t0: Time, i: nat)
    requires Clocked(log, t0) && i < |log|
    ensures PassTimed(TimeAfter(t0, log[..i]), LastByteAt(log[..i]), log[i])
  {}

  lemma {:induction false} SleptOutStep(log: seq<Pass>)
    requires log != []
    ensures var init, p := log[..|log| - 1], log[|log| - 1];
            var overdue := LastByteAt(init).Some? && p.stamp >= LastByteAt(init).value + 1000;
            SleptOut(log) == SleptOut(init) + (if p.poll.Idle? && !overdue then 1 else 0)
  {}

  lemma {:induction false} NothingSleptOut(log: seq<Pass>)
    requires forall i | 0 <= i < |log| :: log[i].poll.Got?
    ensures SleptOut(log) == 0
    decreases |log|
  {
    if log != [] {
      NothingSleptOut(log[..|log| - 1]);
    }
  }

  /** A gap-free call meeting less than 5000 ms of lag is never cut off: it ends as the scan of
      the stream says. */
  lemma {:induction false} GapFreeCallDecides(log: seq<Pass>, script: seq<Poll>, left: seq<Poll>,
                                              responseSize: nat, t0: Time, reason: ExitReason, stream: bytes)
    requires responseSize > 0 && Clocked(log, t0) && Total(t0.lag) < 5000
    requires Ended(log, script, left, responseSize, t0.now + 5000, TimeAtEnd(t0, log, reason).now, reason)
    requires GapFree(script, stream) && PollScan(stream, responseSize) != Listening
    ensures reason == ReasonOf(PollScan(stream, responseSize))
  {
    hide PollScan, Clocked, Heard, Timely, EndsBecause, SleptOut, Tick, Total;
    GapFreeCallFollowsScan(log, script, left, responseSize, t0.now + 5000, TimeAtEnd(t0, log, reason).now, reason,
                           stream);
    if |log| < |stream| {
      NothingSleptOut(log);
      TimeIsSleptOut(log, t0);
      TickMovesHorizon(TimeAfter(t0, log), 0);
    }
  }

  /** The agreement of the two receivers without a cut-off: the polling call meets less than
      5000 ms of lag. */
  lemma {:induction false} CallsAgreeInTime(log: seq<Pass>, script: seq<Poll>, left: seq<Poll>, responseSize: nat,
                                            t0: Time, reason: ExitReason, chunks: seq<bytes>)
    requires responseSize > 0 && Clocked(log, t0) && Total(t0.lag) < 5000
    requires Ended(log, script, left, responseSize, t0.now + 5000, TimeAtEnd(t0, log, reason).now, reason)
    requires GapFree(script, Flatten(chunks))
    requires IrqVerdict.RunVerdict(chunks, responseSize) == IrqVerdict.Success
    ensures var text := StripCr(Flatten(chunks));
            reason == if ErrorLength(text) < OkLength(text) then MatchError else MatchOk
  {
    hide PollScan, StripCr, Heard, Ended, Clocked, OkLength, ErrorLength;
    ReceiversAgree(chunks, responseSize);
    GapFreeCallDecides(log, script, left, responseSize, t0, reason, Flatten(chunks));
  }

  /** The flush of a quiet line, on a clock that does not lag: 50 polls, 50 ms. */
  lemma {:induction false} QuietFlush(script: seq<Poll>, t: Time, deadline: int)
    requires t.now <= deadline && Total(t.lag) == 0
    requires forall i | 0 <= i < deadline - t.now && i < |script| :: !script[i].Got?
    ensures var (n, end) := Flushed(script, t, deadline);
            n == deadline - t.now && end.now == deadline && Total(end.lag) == 0
    decreases deadline - t.now
  {
    FlushStep(script, t, deadline);
    NoLag(t, 0);
    if t.now < deadline {
      NoLag(Tick(t, 0), 1);
      hide Flushed;
      QuietFlush(Rest(script, 1), Tick(Tick(t, 0), 1), deadline);
    }
  }

  lemma {:induction false} NoLag(t: Time, ms: nat)
    requires Total(t.lag) == 0
    ensures Tick(t, ms).now == t.now + ms && Total(Tick(t, ms).lag) == 0
  {}

  /** The whole call, on a clock that does not lag: the line is quiet for the 50 ms of the flush,
      and then a stream comes without a gap on which the scan decides; the call ends with that
      decision. */
  lemma {:induction false} PromptCall(polls: seq<Poll>, t: Time, flushed: nat, deadline: int, log: seq<Pass>,
                                      end: Time, left: seq<Poll>, responseSize: nat, reason: ExitReason,
                                      stream: bytes)
    requires responseSize > 0 && SentAt(polls, t, flushed, deadline, log, end, reason)
    requires Ended(log, Rest(polls, flushed), left, responseSize, deadline, end.now, reason)
    requires Total(t.lag) == 0 && forall i | 0 <= i < 50 && i < |polls| :: !polls[i].Got?
    requires GapFree(Rest(polls, 50), stream) && PollScan(stream, responseSize) != Listening
    ensures flushed == 50 && reason == ReasonOf(PollScan(stream, responseSize))
  {
    hide PollScan, Clocked, Ended, Total, GapFree, Flushed, Rest, Tick;
    var begun := Tick(t, 0);
    NoLag(t, 0);
    QuietFlush(polls, begun, begun.now + 50);
    var quiet := Flushed(polls, begun, begun.now + 50).1;
    NoLag(quiet, 0);
    GapFreeCallDecides(log, Rest(polls, 50), left, responseSize, Tick(quiet, 0), reason, stream);
  }

  // ----- One outcome only -----

  lemma {:induction false} PassIsDetermined(t: Time, last: Option<int>, p: Pass, q: Pass)
    requires PassTimed(t, last, p) && PassTimed(t, last, q) && p.poll == q.poll
    ensures p == q
  {}

  /** Two logs of loops entered at the same time on the same script agree as far as both go. */
  lemma {:induction false} LogsAgree(one: seq<Pass>, other: seq<Pass>, script: seq<Poll>, leftOne: seq<Poll>,
                                     leftOther: seq<Poll>, t0: Time, n: nat)
    requires Clocked(one, t0) && Clocked(other, t0)
    requires Drew(one, script, leftOne) && Drew(other, script, leftOther)
    requires n <= |one| && n <= |other|
    ensures one[..n] == other[..n]
    decreases n
  {
    hide Clocked, PassTimed, LastByteAt, TimeAfter;
    if n > 0 {
      LogsAgree(one, other, script, leftOne, leftOther, t0, n - 1);
      PassOf(one, t0, n - 1);
      PassOf(other, t0, n - 1);
      PassIsDetermined(TimeAfter(t0, one[..n - 1]), LastByteAt(one[..n - 1]), one[n - 1], other[n - 1]);
      assert one[..n] == one[..n - 1] + [one[n - 1]];
      assert other[..n] == other[..n - 1] + [other[n - 1]];
    }
  }

  /** A loop that went on after its first `n` passes had heard no terminator in them, met no
      fault, and found no last byte too old. */
  lemma {:induction false} WentOn(log: seq<Pass>, n: nat, responseSize: nat, deadline: int, reason: ExitReason,
                                  now: int)
    requires responseSize > 0 && n < |log| && EndsBecause(log, responseSize, deadline, now, reason)
    ensures PollScan(Heard(log[..n]), responseSize) == Listening
    ensures forall i | 0 <= i < n :: !log[..n][i].poll.Fault?
    ensures n > 0 && log[..n][n - 1].poll.Idle? && LastByteAt(log[..n]).Some? ==>
              log[..n][n - 1].stamp < LastByteAt(log[..n]).value + 1000
  {
    hide PollScan, Heard, LastByteAt;
    var earlier, init := log[..n], log[..|log| - 1];
    assert init[..n] == earlier;
    HeardPrefix(init, n);
    assert Heard(init)[..|Heard(earlier)|] == Heard(earlier);
    if PollScan(Heard(earlier), responseSize) != Listening {
      ScanLatches(Heard(init), |Heard(earlier)|, responseSize);
    }
    if n > 0 && !earlier[n - 1].poll.Got? {
      LastByteStays(earlier);
      assert init[n - 1] == earlier[n - 1] && init[..n - 1] == earlier[..n - 1];
    }
  }

  lemma {:induction false} NoByteYet()
    ensures LastByteAt([]) == None
  {}

  /** A loop that went on had no reason to end. */
  lemma {:induction false} EndIsFinal(log: seq<Pass>, n: nat, responseSize: nat, t0: Time, deadline: int,
                                      earlierReason: ExitReason, reason: ExitReason, now: int)
    requires responseSize > 0 && n < |log| && Clocked(log, t0) && Timely(log, deadline, now)
    requires EndsBecause(log, responseSize, deadline, now, reason)
    ensures !EndsBecause(log[..n], responseSize, deadline, TimeAtEnd(t0, log[..n], earlierReason).now, earlierReason)
  {
    hide PollScan, Heard, Clocked, LastByteAt, Patient, Tick, TimeAfter;
    PassOf(log, t0, n);
    WentOn(log, n, responseSize, deadline, reason, now);
    NoByteYet();
    var earlier := log[..n];
    assert |earlier| == n;
    assert n > 0 ==> !earlier[n - 1].poll.Fault?;
    assert Tick(TimeAfter(t0, earlier), 0).now < deadline;
  }

  lemma {:induction false} LastByteStays(log: seq<Pass>)
    requires log != [] && !log[|log| - 1].poll.Got?
    ensures LastByteAt(log) == LastByteAt(log[..|log| - 1])
  {}

  /** What the line and the clock do determines every pass of the receive loop and how it ends. */
  lemma {:induction false} ReceiveIsDetermined(one: seq<Pass>, other: seq<Pass>, script: seq<Poll>,
                                               leftOne: seq<Poll>, leftOther: seq<Poll>, responseSize: nat,
                                               t0: Time, deadline: int, r: ExitReason, q: ExitReason)
    requires responseSize > 0 && Clocked(one, t0) && Clocked(other, t0)
    requires Ended(one, script, leftOne, responseSize, deadline, TimeAtEnd(t0, one, r).now, r)
    requires Ended(other, script, leftOther, responseSize, deadline, TimeAtEnd(t0, other, q).now, q)
    ensures one == other && r == q && leftOne == leftOther
  {
    var n := Min(|one|, |other|);
    LogsAgree(one, other, script, leftOne, leftOther, t0, n);
    assert one[..|one|] == one && other[..|other|] == other;
    hide EndsBecause, Clocked, Drew, Timely;
    if n < |one| {
      EndIsFinal(one, n, responseSize, t0, deadline, q, r, TimeAtEnd(t0, one, r).now);
    }
    if n < |other| {
      EndIsFinal(other, n, responseSize, t0, deadline, r, q, TimeAtEnd(t0, other, q).now);
    }
    OneReason(one, responseSize, deadline, TimeAtEnd(t0, one, r).now, TimeAtEnd(t0, one, q).now, r, q);
  }

  lemma {:induction false} OneReason(log: seq<Pass>, responseSize: nat, deadline: int, now: int, then_: int,
                                     r: ExitReason, q: ExitReason)
    requires responseSize > 0
    requires EndsBecause(log, responseSize, deadline, now, r) && EndsBecause(log, responseSize, deadline, then_, q)
    ensures r == q
  {
    hide PollScan, Heard;
    if log != [] && log[|log| - 1].poll.Idle? {
      LastByteStays(log);
    }
  }
}

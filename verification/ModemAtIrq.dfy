/**
  The interrupt-fed AT call: open the transport, write the command, collect the response chunk
  by chunk, close the transport.

  A transport is either scripted, standing for any table of callbacks whose open leaves an empty
  string, or the UART session of the modem shell, with the interrupt handler and the RX thread
  running in its gaps.
 */
module ModemAtIrq {
  import opened ByteText
  import opened Platform
  import opened IrqVerdict
  import opened ModemShell
  import ModemAt
  import RxMachine

  /** Callbacks that behave as written down: the result of open, which on success leaves an empty
      string in the buffer, and what each read returns. */
  class ScriptedTransport {
    var openResult: int
    var script: seq<bytes>

    constructor (openResult: int, script: seq<bytes>)
      ensures this.openResult == openResult && this.script == script
    {
      this.openResult := openResult;
      this.script := script;
    }
  }

  /** What a transport will do: the result of its open and its reads, as scripted; or whatever the
      line of the UART session brings. */
  datatype Source = FromScript(openResult: int, script: seq<bytes>) | FromLine(course: Course)

  /** What the next read gets: at most 64 bytes. */
  function NextRead(s: Source): bytes {
    match s
    case FromScript(_, script) => if script == [] then [] else script[0][..Min(64, |script[0]|)]
    case FromLine(course) => ReadData(course)
  }

  function AfterRead(s: Source): Source {
    match s
    case FromScript(openResult, script) => FromScript(openResult, Rest(script, 1))
    case FromLine(course) => FromLine(ReadTurn(course))
  }

  function AfterReads(s: Source, n: nat): Source {
    if n == 0 then s else AfterRead(AfterReads(s, n - 1))
  }

  /** What the next `n` reads get, the empty ones left out. */
  function ChunksRead(s: Source, n: nat): seq<bytes> {
    if n == 0 then []
    else
      var got := NextRead(AfterReads(s, n - 1));
      ChunksRead(s, n - 1) + (if got == [] then [] else [got])
  }

  /** After an open that returned `ret`; `ready` is what the device answered to it. */
  function Opened(s: Source, ready: bool, ret: int): Source {
    match s
    case FromScript(_, _) => s
    case FromLine(course) =>
      if ready then
        FromLine(Walk(course, [RxMachine.Configure] + (if ret == 0 then AcquireSteps(RxMachine.AtSession) else [])))
      else s
  }

  function Closed(s: Source): Source {
    match s
    case FromScript(_, _) => s
    case FromLine(course) => FromLine(Walk(course, RELEASE_STEPS))
  }

  datatype Target = Scripted(fake: ScriptedTransport) | UartSession(shell: Shell)

  class Transport {
    const target: Target
    ghost var opens: nat
    ghost var closes: nat
    ghost var given: bytes  // what a scripted transport handed out since it was opened

    constructor (target: Target)
      ensures this.target == target && opens == closes == 0
    {
      this.target := target;
      opens, closes, given := 0, 0, [];
    }

    /** Everything a call through this transport may change, besides the buffer and the clock. */
    ghost function Objects(): set<object> {
      match target
      case Scripted(fake) => {this, fake}
      case UartSession(shell) => {this, shell, shell.actors, shell.uart}
    }

    ghost predicate AtRest()
      reads Objects()
    {
      target.UartSession? ==> target.shell.Valid() && target.shell.pc == RxMachine.Ready
    }

    ghost predicate IsOpen()
      reads Objects()
    {
      target.UartSession? ==> target.shell.Valid() && target.shell.pc == RxMachine.Opened
    }

    /** Bytes this transport can still hand out. */
    ghost function Backlog(): nat
      reads Objects()
    {
      match target
      case Scripted(fake) => |Flatten(fake.script)|
      case UartSession(shell) => shell.Backlog()
    }

    /** What the reads since the transport was opened have handed out, in order. */
    ghost function Delivered(): bytes
      reads Objects()
    {
      match target
      case Scripted(_) => given
      case UartSession(shell) => shell.LastDelivered()
    }

    ghost function Control(): RxMachine.State
      reads Objects()
    {
      if target.UartSession? then target.shell.Control() else RxMachine.INIT
    }

    ghost function Src(): Source
      reads Objects()
    {
      match target
      case Scripted(fake) => FromScript(fake.openResult, fake.script)
      case UartSession(shell) => FromLine(shell.Now())
    }

    /** What a read leaves alone. */
    ghost function Fixed(): (nat, nat, RxMachine.State, (bytes, seq<bool>, seq<Poll>))
      reads Objects()
    {
      (opens, closes, Control(),
       if target.UartSession? then (target.shell.uart.sent, target.shell.uart.answers, target.shell.uart.polls)
       else ([], [], []))
    }

    ghost function Run(): seq<RxMachine.Step>
      reads Objects()
    {
      if target.UartSession? then target.shell.run else []
    }

    method Open(response: array<byte>, responseSize: nat, ghost uart: Uart) returns (ret: int)
      requires AtRest() && 0 < responseSize <= response.Length
      requires target.UartSession? ==> target.shell.uart == uart
      modifies Objects(), response
      ensures opens == old(opens) + 1 && closes == old(closes)
      ensures ret == 0 ==> IsOpen() && response[0] == NUL && Delivered() == []
      ensures forall i | responseSize <= i < response.Length :: response[i] == old(response[i])
      ensures ret != 0 ==> AtRest() && response[..] == old(response[..]) && Control() == old(Control())
      ensures Backlog() <= old(Backlog())
      ensures uart.sent == old(uart.sent) && uart.polls == old(uart.polls)
      ensures Src() == Opened(old(Src()), old(uart.ReadyNext()), ret)
      ensures uart.answers == if target.UartSession? then Rest(old(uart.answers), 1) else old(uart.answers)
      ensures target.Scripted? ==> ret == old(target.fake.openResult)
      ensures target.UartSession? ==>
                && ret == (if !old(uart.ReadyNext()) then -ENODEV
                           else if old(Control()).owner != RxMachine.Nobody then -EBUSY else 0)
                && (ret == 0 ==>
                      && Control() == old(Control()).(owner := RxMachine.AtSession, irq := true,
                                                      configured := true, pc := RxMachine.Opened))
                && (ret != 0 ==> Untouched(old(Run()), Run()))
    {
      hide Flatten, Shell.Valid, Walk, Rest;
      opens := opens + 1;
      match target {
        case Scripted(fake) =>
          ret := fake.openResult;
          if ret == 0 {
            response[0] := NUL;
            given := [];
          }
        case UartSession(shell) =>
          ret := shell.AtSessionOpen(response, responseSize);
      }
    }

    method Close()
      requires IsOpen()
      modifies Objects()
      ensures AtRest() && opens == old(opens) && closes == old(closes) + 1
      ensures Backlog() <= old(Backlog()) && Delivered() == old(Delivered())
      ensures Src() == Closed(old(Src()))
      ensures target.UartSession? ==>
                && target.shell.uart.answers == old(target.shell.uart.answers)
                && target.shell.uart.polls == old(target.shell.uart.polls)
                && target.shell.uart.sent == old(target.shell.uart.sent)
                && Control() == old(Control()).(owner := RxMachine.Nobody, irq := false, pc := RxMachine.Ready)
    {
      hide Flatten, Shell.Valid, Walk;
      closes := closes + 1;
      match target {
        case Scripted(_) =>
        case UartSession(shell) => shell.AtSessionClose();
      }
    }

    /** At most 64 bytes; none when nothing has arrived. A scripted transport hands out its next
        entry, cut to 64 bytes. */
    method Read() returns (data: bytes)
      requires IsOpen()
      modifies Objects()
      ensures IsOpen() && |data| <= CHUNK_SIZE
      ensures Backlog() + |data| <= old(Backlog())
      ensures Fixed() == old(Fixed())
      ensures Delivered() == old(Delivered()) + data
      ensures data == NextRead(old(Src())) && Src() == AfterRead(old(Src()))
    {
      hide Shell.Valid, PendingBytes, ReadData, ReadTurn;
      match target {
        case Scripted(fake) =>
          data := [];
          if fake.script != [] {
            ShorterScript(fake.script);
            data := fake.script[0][..Min(CHUNK_SIZE, |fake.script[0]|)];
            fake.script := fake.script[1..];
          }
          given := given + data;
        case UartSession(shell) =>
          data := shell.RxRead();
      }
    }
  }

  lemma {:induction false} ShorterScript(script: seq<bytes>)
    requires script != []
    ensures |Flatten(script)| == |script[0]| + |Flatten(script[1..])|
  {
    assert script == [script[0]] + script[1..];
    FlattenConcat([script[0]], script[1..]);
    var first: seq<bytes> := [script[0]];
    assert first[..0] == [];
  }

  /** Stores what fits of one chunk, keeping the buffer terminated. */
  method StoreChunk(response: array<byte>, responseSize: nat, offset: nat, chunk: bytes, ghost stream: bytes)
    returns (newOffset: nat)
    requires 0 < responseSize <= response.Length && offset == |Held(stream, responseSize)|
    requires response[..offset] == Held(stream, responseSize) && response[offset] == NUL
    modifies response
    ensures newOffset == |Held(stream + chunk, responseSize)|
    ensures response[..newOffset] == Held(stream + chunk, responseSize) && response[newOffset] == NUL
    ensures forall i | responseSize <= i < response.Length :: response[i] == old(response[i])
  {
    newOffset := offset;
    assert stream + chunk[..0] == stream;
    for i := 0 to |chunk|
      invariant newOffset == |Held(stream + chunk[..i], responseSize)|
      invariant response[..newOffset] == Held(stream + chunk[..i], responseSize) && response[newOffset] == NUL
      invariant forall i | responseSize <= i < response.Length :: response[i] == old(response[i])
    {
      HeldGrows(stream, chunk, i, responseSize);
      if newOffset + 1 < responseSize {
        response[newOffset] := chunk[i];
        newOffset := newOffset + 1;
        response[newOffset] := NUL;
      }
    }
    assert chunk[..|chunk|] == chunk;
  }

  lemma {:induction false} HeldGrows(stream: bytes, chunk: bytes, i: nat, responseSize: nat)
    requires i < |chunk| && responseSize > 0
    ensures var before := Held(stream + chunk[..i], responseSize);
            Held(stream + chunk[..i + 1], responseSize) ==
              if |before| + 1 < responseSize then before + [chunk[i]] else before
  {}

  lemma {:induction false} JudgeOfBuffer(buffer: bytes, n: nat)
    requires n < |buffer| && buffer[n] == NUL
    ensures SeesOk(buffer) == SeesOk(buffer[..n]) && SeesError(buffer) == SeesError(buffer[..n])
  {
    CStrOfTerminated(buffer, n);
    hide CStr;
  }

  function RetOfVerdict(v: Verdict): int {
    match v
    case Success => 0
    case ModemError => -EIO
    case Pending => -ETIMEDOUT
  }

  /** The chunks were read one after another, none after a verdict. */
  ghost predicate ReadUntil(chunks: seq<bytes>, responseSize: nat)
    requires responseSize > 0
  {
    && (forall c | c in chunks :: 1 <= |c| <= CHUNK_SIZE)
    && (chunks != [] ==> RunVerdict(chunks[..|chunks| - 1], responseSize) == Pending)
  }

  /** The buffer holds what fits of the chunks, terminated, and nothing past its size changed. */
  ghost predicate Holding(buffer: bytes, chunks: seq<bytes>, responseSize: nat, beyond: bytes)
    requires 0 < responseSize <= |buffer|
  {
    var held := Held(Flatten(chunks), responseSize);
    buffer[..|held|] == held && buffer[|held|] == NUL && buffer[responseSize..] == beyond
  }

  /** Stores a chunk and looks for a terminator, OK patterns first. */
  method TakeChunk(response: array<byte>, responseSize: nat, offset: nat, chunk: bytes,
                   ghost chunks: seq<bytes>, ghost beyond: bytes)
    returns (newOffset: nat, verdict: Verdict)
    requires 0 < responseSize <= response.Length && Holding(response[..], chunks, responseSize, beyond)
    requires offset == |Held(Flatten(chunks), responseSize)|
    requires 1 <= |chunk| <= CHUNK_SIZE && Collecting(chunks, responseSize)
    modifies response
    ensures Holding(response[..], chunks + [chunk], responseSize, beyond)
    ensures newOffset == |Held(Flatten(chunks + [chunk]), responseSize)|
    ensures verdict == RunVerdict(chunks + [chunk], responseSize)
    ensures ReadUntil(chunks + [chunk], responseSize)
    ensures verdict == Pending ==> Collecting(chunks + [chunk], responseSize)
  {
    hide RunVerdict, Held, Flatten;
    OneMoreChunk(chunks, chunk, responseSize);
    assert response[..][..offset] == response[..offset];
    newOffset := StoreChunk(response, responseSize, offset, chunk, Flatten(chunks));
    assert response[..][..newOffset] == response[..newOffset];
    JudgeOfBuffer(response[..], newOffset);
    if Holds(CRLF_OK_CRLF, response[..]) || Holds(LF_OK_CRLF, response[..]) || Holds(LF_OK_LF, response[..]) {
      verdict := Success;
    } else if Holds(ERROR, response[..]) {
      verdict := ModemError;
    } else {
      verdict := Pending;
    }
  }

  /** Between two reads: chunks so far, and no verdict. */
  ghost predicate Collecting(chunks: seq<bytes>, responseSize: nat)
    requires responseSize > 0
  {
    ReadUntil(chunks, responseSize) && RunVerdict(chunks, responseSize) == Pending
  }

  /** One pass of the collecting loop: a read, then either a look at the buffer or at the clock.
      `done` carries the return value when the loop ends here; `got` is the chunk read. */
  method CollectPass(response: array<byte>, responseSize: nat, offset: nat, transport: Transport, clock: Clock,
                     deadline: int, ghost chunks: seq<bytes>, ghost beyond: bytes)
    returns (done: Option<int>, newOffset: nat, newDeadline: int, ghost got: bytes)
    requires 0 < responseSize <= response.Length && Holding(response[..], chunks, responseSize, beyond)
    requires offset == |Held(Flatten(chunks), responseSize)| && Collecting(chunks, responseSize)
    requires transport.IsOpen() && clock !in transport.Objects() && response !in transport.Objects()
    modifies response, transport.Objects(), clock
    ensures transport.IsOpen() && transport.Fixed() == old(transport.Fixed())
    ensures transport.Delivered() == old(transport.Delivered()) + got
    ensures got == NextRead(old(transport.Src())) && transport.Src() == AfterRead(old(transport.Src()))
    ensures transport.Backlog() + |got| <= old(transport.Backlog()) && old(clock.now) <= clock.now
    ensures got == [] ==>
              var t1 := Tick(old(clock.When()), 0);
              && newOffset == offset && newDeadline == deadline
              && Holding(response[..], chunks, responseSize, beyond)
              && (done == None ==> t1.now < deadline && clock.When() == Tick(t1, 10) && old(clock.now) < clock.now)
              && (done != None ==> t1.now >= deadline && clock.When() == t1 && done == Some(-ETIMEDOUT))
    ensures got != [] ==>
              && Holding(response[..], chunks + [got], responseSize, beyond)
              && newOffset == |Held(Flatten(chunks + [got]), responseSize)|
              && ReadUntil(chunks + [got], responseSize)
              && (done == None ==> newDeadline == clock.now + 1000 && clock.When() == Tick(old(clock.When()), 0)
                                   && Collecting(chunks + [got], responseSize))
              && (done != None ==> var v := RunVerdict(chunks + [got], responseSize);
                                   && v != Pending && done == Some(RetOfVerdict(v))
                                   && clock.When() == old(clock.When()))
  {
    hide RunVerdict, Flatten, Held, Holding, ReadUntil, Collecting, Transport.IsOpen, Transport.Backlog,
         Transport.Fixed, Transport.Delivered, Transport.Src, NextRead, AfterRead, Tick;
    done, newOffset, newDeadline := None, offset, deadline;
    var chunk := transport.Read();
    got := chunk;
    if |chunk| > 0 {
      var verdict;
      newOffset, verdict := TakeChunk(response, responseSize, offset, chunk, chunks, beyond);
      if verdict == Success {
        done := Some(0);
        return;
      }
      if verdict == ModemError {
        done := Some(-EIO);
        return;
      }
      var now := clock.Uptime();
      newDeadline := now + ModemAt.INTER_CHAR_TIMEOUT_MS;
    } else {
      var now := clock.Uptime();
      if now >= deadline {
        done := Some(-ETIMEDOUT);
        return;
      }
      clock.Sleep(ModemAt.IDLE_SLEEP_MS);
    }
  }

  /** One pass of the collecting loop that did not time out: what it read, and when it was over. */
  datatype Turn = Turn(got: bytes, after: Time)

  function ChunksOf(turns: seq<Turn>): seq<bytes> {
    if turns == [] then []
    else
      var rest := ChunksOf(turns[..|turns| - 1]);
      if turns[|turns| - 1].got == [] then rest else rest + [turns[|turns| - 1].got]
  }

  /** 5000 ms from the start, replaced by 1000 ms from each chunk. */
  function DeadlineAfter(turns: seq<Turn>, t0: Time): int {
    if turns == [] then t0.now + 5000
    else if turns[|turns| - 1].got != [] then turns[|turns| - 1].after.now + 1000
    else DeadlineAfter(turns[..|turns| - 1], t0)
  }

  function TimeAfter(t0: Time, turns: seq<Turn>): Time {
    if turns == [] then t0 else turns[|turns| - 1].after
  }

  /** A pass made after those `before` it, while no verdict is reached: it reads what the source
      brings next; an empty read is waited out with 10 ms of sleep, its deadline not being
      reached; a chunk moves the deadline unless it decides. */
  ghost predicate TurnMade(before: seq<Turn>, turn: Turn, src: Source, t0: Time, responseSize: nat)
    requires responseSize > 0
  {
    var t := TimeAfter(t0, before);
    && turn.got == NextRead(AfterReads(src, |before|))
    && RunVerdict(ChunksOf(before), responseSize) == Pending
    && if turn.got == [] then
         Tick(t, 0).now < DeadlineAfter(before, t0) && turn.after == Tick(Tick(t, 0), 10)
       else if RunVerdict(ChunksOf(before) + [turn.got], responseSize) == Pending then
         turn.after == Tick(t, 0)
       else
         turn.after == t
  }

  /** The loop entered at `t0` made these passes, and nothing else took time. */
  ghost predicate Turning(turns: seq<Turn>, src: Source, t0: Time, responseSize: nat)
    requires responseSize > 0
  {
    forall i | 0 <= i < |turns| :: TurnMade(turns[..i], turns[i], src, t0, responseSize)
  }

  /** The loop made these passes and returned `ret`: the verdict of the chunks; or none was
      reached, the next read was empty, and the deadline had come. */
  ghost predicate Collected(turns: seq<Turn>, src: Source, t0: Time, responseSize: nat, ret: int)
    requires responseSize > 0
  {
    && Turning(turns, src, t0, responseSize)
    && ret == RetOfVerdict(RunVerdict(ChunksOf(turns), responseSize))
    && (ret == -ETIMEDOUT ==>
          && NextRead(AfterReads(src, |turns|)) == []
          && Tick(TimeAfter(t0, turns), 0).now >= DeadlineAfter(turns, t0))
  }

  function SourceAtEnd(src: Source, turns: seq<Turn>, ret: int): Source {
    AfterReads(src, if ret == -ETIMEDOUT then |turns| + 1 else |turns|)
  }

  function TimeAtEnd(t0: Time, turns: seq<Turn>, ret: int): Time {
    if ret == -ETIMEDOUT then Tick(TimeAfter(t0, turns), 0) else TimeAfter(t0, turns)
  }

  lemma {:induction false} OneMoreTurn(turns: seq<Turn>, turn: Turn, src: Source, t0: Time, responseSize: nat)
    requires responseSize > 0 && Turning(turns, src, t0, responseSize)
    requires TurnMade(turns, turn, src, t0, responseSize)
    ensures var more := turns + [turn];
            && Turning(more, src, t0, responseSize)
            && ChunksOf(more) == (if turn.got == [] then ChunksOf(turns) else ChunksOf(turns) + [turn.got])
            && TimeAfter(t0, more) == turn.after
            && DeadlineAfter(more, t0) ==
                 (if turn.got == [] then DeadlineAfter(turns, t0) else turn.after.now + 1000)
            && AfterReads(src, |more|) == AfterRead(AfterReads(src, |turns|))
  {
    hide TurnMade;
    var more := turns + [turn];
    assert more[..|turns|] == turns;
    forall i | 0 <= i < |more|
      ensures TurnMade(more[..i], more[i], src, t0, responseSize)
    {
      if i < |turns| {
        assert more[..i] == turns[..i];
      }
    }
  }

  /** Collects until a terminator shows or time runs out. The ghost results are the non-empty
      chunks and the passes that did not time out. */
  method CollectResponse(response: array<byte>, responseSize: nat, transport: Transport, clock: Clock)
    returns (ret: int, ghost chunks: seq<bytes>, ghost turns: seq<Turn>)
    requires 0 < responseSize <= response.Length && response[0] == NUL
    requires transport.IsOpen() && clock !in transport.Objects() && response !in transport.Objects()
    modifies response, transport.Objects(), clock
    ensures transport.IsOpen() && transport.Fixed() == old(transport.Fixed()) && old(clock.now) <= clock.now
    ensures transport.Delivered() == old(transport.Delivered()) + Flatten(chunks)
    ensures ReadUntil(chunks, responseSize)
    ensures Holding(response[..], chunks, responseSize, old(response[responseSize..]))
    ensures ret == RetOfVerdict(RunVerdict(chunks, responseSize)) && chunks == ChunksOf(turns)
    ensures var t0 := Tick(old(clock.When()), 0);
            && Collected(turns, old(transport.Src()), t0, responseSize, ret)
            && transport.Src() == SourceAtEnd(old(transport.Src()), turns, ret)
            && clock.When() == TimeAtEnd(t0, turns, ret)
  {
    hide RunVerdict, Flatten, Held, Holding, ReadUntil, Transport.IsOpen, Transport.Backlog, Transport.Fixed,
         Transport.Delivered, Transport.Src, DeadlineAfter, ChunksOf, Turning, NextRead, AfterRead, AfterReads,
         TimeAfter, Tick;
    var offset := 0;
    chunks, turns := [], [];
    ghost var beyond := response[responseSize..];
    ghost var src := transport.Src();
    var deadline := clock.Uptime();
    ghost var t0 := clock.When();
    deadline := deadline + ModemAt.RESPONSE_TIMEOUT_MS;
    NoTurnYet(src, t0, responseSize);
    NothingReadYet(response[..], responseSize);
    assert response[..][responseSize..] == beyond;
    var done := None;
    while done == None
      invariant transport.IsOpen() && transport.Fixed() == old(transport.Fixed()) && old(clock.now) <= clock.now
      invariant transport.Delivered() == old(transport.Delivered()) + Flatten(chunks)
      invariant offset == |Held(Flatten(chunks), responseSize)|
      invariant Holding(response[..], chunks, responseSize, beyond)
      invariant done == None ==> Collecting(chunks, responseSize)
      invariant ReadUntil(chunks, responseSize)
      invariant done != None ==> done == Some(RetOfVerdict(RunVerdict(chunks, responseSize)))
      invariant chunks == ChunksOf(turns) && Turning(turns, src, t0, responseSize)
      invariant done == None ==>
                  && deadline == DeadlineAfter(turns, t0) && clock.When() == TimeAfter(t0, turns)
                  && transport.Src() == AfterReads(src, |turns|)
      invariant done != None ==>
                  && Collected(turns, src, t0, responseSize, done.value)
                  && clock.When() == TimeAtEnd(t0, turns, done.value)
                  && transport.Src() == SourceAtEnd(src, turns, done.value)
      decreases done == None, transport.Backlog(), if clock.now < deadline then deadline - clock.now else 0
    {
      ghost var got;
      done, offset, deadline, got :=
        CollectPass(response, responseSize, offset, transport, clock, deadline, chunks, beyond);
      ReadsNext(src, |turns|);
      if got != [] {
        OneMoreFlat(chunks, got);
      }
      if got != [] || done == None {
        OneMoreTurn(turns, Turn(got, clock.When()), src, t0, responseSize);
        turns := turns + [Turn(got, clock.When())];
        chunks := if got == [] then chunks else chunks + [got];
      }
    }
    ret := done.value;
  }

  lemma {:induction false} ReadsNext(src: Source, n: nat)
    ensures AfterReads(src, n + 1) == AfterRead(AfterReads(src, n))
  {}

  lemma {:induction false} NoTurnYet(src: Source, t0: Time, responseSize: nat)
    requires responseSize > 0
    ensures ChunksOf([]) == [] && Turning([], src, t0, responseSize) && TimeAfter(t0, []) == t0
    ensures DeadlineAfter([], t0) == t0.now + 5000 && AfterReads(src, 0) == src
  {}

  lemma {:induction false} OneMoreFlat(chunks: seq<bytes>, chunk: bytes)
    ensures Flatten(chunks + [chunk]) == Flatten(chunks) + chunk
  {}

  lemma {:induction false} NothingReadYet(buffer: bytes, responseSize: nat)
    requires 0 < responseSize <= |buffer| && buffer[0] == NUL
    ensures Flatten([]) == [] == Held(Flatten([]), responseSize)
    ensures Holding(buffer, [], responseSize, buffer[responseSize..])
    ensures Collecting([], responseSize)
  {}

  lemma {:induction false} OneMoreChunk(chunks: seq<bytes>, chunk: bytes, responseSize: nat)
    requires responseSize > 0 && RunVerdict(chunks, responseSize) == Pending
    ensures var more := chunks + [chunk];
            && more[..|chunks|] == chunks
            && Flatten(more) == Flatten(chunks) + chunk
            && RunVerdict(more, responseSize) == Judge(Held(Flatten(more), responseSize))
  {}

  /** The command and its CR, each written whole or not at all. */
  method WriteCommand(command: bytes, uart: Uart) returns (ret: int)
    modifies uart`answers, uart`sent
    ensures ret == if old(uart.ReadyAt(0)) && old(uart.ReadyAt(1)) then 0 else -ENODEV
    ensures uart.sent == if !old(uart.ReadyAt(0)) then old(uart.sent)
                         else if !old(uart.ReadyAt(1)) then old(uart.sent) + command
                         else old(uart.sent) + command + [CR]
    ensures uart.answers == Rest(old(uart.answers), if old(uart.ReadyAt(0)) then 2 else 1)
  {
    ret := uart.Write(Some(command), |command|);
    assert command[..|command|] == command;
    if ret == 0 {
      ret := uart.Write(Some([CR]), 1);
    }
  }

  /** What is known of the buffer after a call that opened the transport. */
  ghost predicate Answered(buffer: bytes, chunks: seq<bytes>, responseSize: nat, beyond: bytes)
    requires 0 < responseSize <= |buffer|
  {
    ReadUntil(chunks, responseSize) && Holding(buffer, chunks, responseSize, beyond)
  }

  /** The state of the world a call meets and leaves: its transport, the device's answers, what
      was written to the modem, and the clock. */
  datatype Wire = Wire(src: Source, answers: seq<bool>, sent: bytes, time: Time)

  predicate ReadyAt(answers: seq<bool>, n: nat) {
    n < |answers| ==> answers[n]
  }

  /** What the transport's open returns. */
  function OpenRet(w: Wire): int {
    match w.src
    case FromScript(openResult, _) => openResult
    case FromLine(course) =>
      if !ReadyAt(w.answers, 0) then -ENODEV
      else if RxMachine.Exec(course.run).owner != RxMachine.Nobody then -EBUSY
      else 0
  }

  /** The wire once the transport was asked to open. */
  function Asked(w: Wire): Wire {
    Wire(Opened(w.src, ReadyAt(w.answers, 0), OpenRet(w)), Rest(w.answers, if w.src.FromLine? then 1 else 0),
         w.sent, w.time)
  }

  /** The command was written, its response collected in these passes, and `ret` returned, on an
      open transport. Nothing is collected when the device is not ready for both writes. */
  ghost predicate Exchanged(command: bytes, responseSize: nat, w: Wire, turns: seq<Turn>, ret: int, v: Wire)
    requires responseSize > 0
  {
    if !ReadyAt(w.answers, 0) then
      ret == -ENODEV && turns == [] && v == w.(answers := Rest(w.answers, 1))
    else if !ReadyAt(w.answers, 1) then
      ret == -ENODEV && turns == [] && v == w.(answers := Rest(w.answers, 2), sent := w.sent + command)
    else
      && Collected(turns, w.src, Tick(w.time, 0), responseSize, ret)
      && v == Wire(SourceAtEnd(w.src, turns, ret), Rest(w.answers, 2), w.sent + command + [CR],
                   TimeAtEnd(Tick(w.time, 0), turns, ret))
  }

  /** The whole call: open, exchange, close, or just the open when that fails. */
  ghost predicate Called(command: bytes, responseSize: nat, w: Wire, turns: seq<Turn>, ret: int, v: Wire)
    requires responseSize > 0
  {
    if OpenRet(w) != 0 then ret == OpenRet(w) && turns == [] && v == Asked(w)
    else exists end :: Exchanged(command, responseSize, Asked(w), turns, ret, end) && v == end.(src := Closed(end.src))
  }

  /** Between open and close: the command is written, the response collected. */
  method Exchange(command: bytes, response: array<byte>, responseSize: nat, t: Transport, uart: Uart, clock: Clock)
    returns (ret: int, ghost chunks: seq<bytes>, ghost turns: seq<Turn>)
    requires 0 < responseSize <= response.Length && response[0] == NUL
    requires t.IsOpen() && clock !in t.Objects() && response !in t.Objects()
    requires t.target.UartSession? ==> t.target.shell.uart == uart
    modifies response, uart`answers, uart`sent, clock, t.Objects()
    ensures t.IsOpen() && t.opens == old(t.opens) && t.closes == old(t.closes) && t.Control() == old(t.Control())
    ensures old(clock.now) <= clock.now && uart.polls == old(uart.polls)
    ensures t.Delivered() == old(t.Delivered()) + Flatten(chunks) && chunks == ChunksOf(turns)
    ensures Exchanged(command, responseSize, old(Wire(t.Src(), uart.answers, uart.sent, clock.When())), turns, ret,
                      Wire(t.Src(), uart.answers, uart.sent, clock.When()))
    ensures Answered(response[..], chunks, responseSize, old(response[responseSize..]))
  {
    hide RunVerdict, Flatten, Held, Holding, ReadUntil, Shell.Valid, Transport.Backlog, RxMachine.OwnershipInv,
         Collected, SourceAtEnd, TimeAtEnd, Tick, Rest, ChunksOf;
    chunks, turns := [], [];
    NothingReadYet(response[..], responseSize);
    NoTurnYet(t.Src(), clock.When(), responseSize);
    assert response[..][responseSize..] == response[responseSize..];
    ret := WriteCommand(command, uart);
    if ret != 0 {
      return;
    }
    ret, chunks, turns := CollectResponse(response, responseSize, t, clock);
  }

  /** modem_at_send_irq; `turns` are the passes of its collecting loop. */
  method SendIrq(command: Option<bytes>, response: array?<byte>, responseSize: nat,
                 transport: Option<Transport>, uart: Uart, clock: Clock)
    returns (ret: int, ghost turns: seq<Turn>)
    requires command.Some? ==> NulFree(command.value)
    requires response != null ==> responseSize <= response.Length
    requires transport.Some? ==>
               && transport.value.AtRest()
               && clock !in transport.value.Objects() && response !in transport.value.Objects()
               && (transport.value.target.UartSession? ==> transport.value.target.shell.uart == uart)
    modifies response, uart`answers, uart`sent, clock, if transport.Some? then transport.value.Objects() else {}
    ensures old(clock.now) <= clock.now && uart.polls == old(uart.polls)
    ensures !(command.Some? && response != null && responseSize > 0 && transport.Some?) ==>
              && ret == -EINVAL && uart.sent == old(uart.sent) && uart.answers == old(uart.answers)
              && clock.When() == old(clock.When())
              && (response != null ==> response[..] == old(response[..]))
              && (transport.Some? ==>
                    && transport.value.AtRest() && transport.value.Fixed() == old(transport.value.Fixed())
                    && transport.value.Src() == old(transport.value.Src()))
    ensures command.Some? && response != null && responseSize > 0 && transport.Some? ==>
              var t, w := transport.value, old(Wire(transport.value.Src(), uart.answers, uart.sent, clock.When()));
              && t.AtRest() && t.opens == old(t.opens) + 1
              && t.closes == old(t.closes) + (if OpenRet(w) == 0 then 1 else 0)
              && Called(command.value, responseSize, w, turns, ret,
                        Wire(t.Src(), uart.answers, uart.sent, clock.When()))
              && (OpenRet(w) != 0 ==> response[..] == old(response[..]))
              && (OpenRet(w) == 0 ==>
                    && t.Delivered() == Flatten(ChunksOf(turns))
                    && Answered(response[..], ChunksOf(turns), responseSize, old(response[responseSize..])))
    ensures command.Some? && response != null && responseSize > 0 && transport.Some?
            && transport.value.target.UartSession? ==>
              var w := old(Wire(transport.value.Src(), uart.answers, uart.sent, clock.When()));
              transport.value.Control() ==
                if OpenRet(w) != 0 then old(transport.value.Control())
                else old(transport.value.Control()).(configured := true, pc := RxMachine.Ready)
  {
    hide Exchanged, Answered, Flatten, Shell.Valid, Transport.Backlog, RxMachine.OwnershipInv, Untouched,
         Opened, Closed, RxMachine.Exec, Rest, ChunksOf, Tick;
    turns := [];
    if command == None || response == null || responseSize == 0 || transport == None {
      return -EINVAL, turns;
    }
    var t := transport.value;
    if t.target.UartSession? {
      t.target.shell.FactsNow();
    }
    ghost var beyond := response[responseSize..];
    ghost var w := Wire(t.Src(), uart.answers, uart.sent, clock.When());
    RestOfNothing(uart.answers);
    assert w.src.FromLine? <==> t.target.UartSession?;
    assert t.target.UartSession? ==> RxMachine.Exec(w.src.course.run).owner == t.Control().owner;
    assert t.target.UartSession? ==> uart.ReadyNext() == ReadyAt(w.answers, 0);
    ret := t.Open(response, responseSize, uart);
    assert ret == OpenRet(w);
    assert t.Src() == Opened(w.src, ReadyAt(w.answers, 0), ret);
    assert Wire(t.Src(), uart.answers, uart.sent, clock.When()) == Asked(w);
    if ret != 0 {
      return;
    }
    assert response[responseSize..] == beyond;
    ghost var chunks;
    ret, chunks, turns := Exchange(command.value, response, responseSize, t, uart, clock);
    ghost var end := Wire(t.Src(), uart.answers, uart.sent, clock.When());
    assert [] + Flatten(chunks) == Flatten(chunks);
    t.Close();
    assert Exchanged(command.value, responseSize, Asked(w), turns, ret, end);
  }

  // ----- What a collecting loop does, whatever its source -----

  lemma {:induction false} TurnOf(turns: seq<Turn>, src: Source, t0: Time, responseSize: nat, i: nat)
    requires responseSize > 0 && Turning(turns, src, t0, responseSize) && i < |turns|
    ensures TurnMade(turns[..i], turns[i], src, t0, responseSize)
  {}

  lemma {:induction false} FirstTurns(turns: seq<Turn>, src: Source, t0: Time, responseSize: nat, n: nat)
    requires responseSize > 0 && Turning(turns, src, t0, responseSize) && n <= |turns|
    ensures Turning(turns[..n], src, t0, responseSize)
  {
    hide TurnMade;
    forall i | 0 <= i < n
      ensures TurnMade(turns[..n][..i], turns[..n][i], src, t0, responseSize)
    {
      assert turns[..n][..i] == turns[..i];
    }
  }

  lemma {:induction false} ChunksOfStep(turns: seq<Turn>)
    requires turns != []
    ensures var init, got := ChunksOf(turns[..|turns| - 1]), turns[|turns| - 1].got;
            ChunksOf(turns) == if got == [] then init else init + [got]
  {}

  /** The chunks judged are what the source gave, read by read. */
  lemma {:induction false} ChunksAreReads(turns: seq<Turn>, src: Source, t0: Time, responseSize: nat)
    requires responseSize > 0 && Turning(turns, src, t0, responseSize)
    ensures ChunksOf(turns) == ChunksRead(src, |turns|)
    decreases |turns|
  {
    hide TurnMade, Turning, RunVerdict, AfterReads, NextRead;
    if turns != [] {
      var n := |turns| - 1;
      FirstTurns(turns, src, t0, responseSize, n);
      TurnOf(turns, src, t0, responseSize, n);
      ChunksAreReads(turns[..n], src, t0, responseSize);
      assert turns[n].got == NextRead(AfterReads(src, n)) by { TurnReads(turns[..n], turns[n], src, t0, responseSize); }
    }
  }

  lemma {:induction false} TurnReads(before: seq<Turn>, turn: Turn, src: Source, t0: Time, responseSize: nat)
    requires responseSize > 0 && TurnMade(before, turn, src, t0, responseSize)
    ensures turn.got == NextRead(AfterReads(src, |before|))
    ensures RunVerdict(ChunksOf(before), responseSize) == Pending
  {}

  lemma {:induction false} PendingBefore(turns: seq<Turn>, src: Source, t0: Time, responseSize: nat, n: nat)
    requires responseSize > 0 && Turning(turns, src, t0, responseSize) && n < |turns|
    ensures RunVerdict(ChunksRead(src, n), responseSize) == Pending
  {
    hide RunVerdict, TurnMade, Turning, ChunksRead, ChunksOf;
    FirstTurns(turns, src, t0, responseSize, n);
    ChunksAreReads(turns[..n], src, t0, responseSize);
    TurnOf(turns, src, t0, responseSize, n);
    TurnReads(turns[..n], turns[n], src, t0, responseSize);
  }

  /** As long as the source has something to give, the clock is not looked at: once its next reads
      contain a terminator the answer is their verdict, whatever the clock does. */
  lemma {:induction false} PromptReadsDecide(turns: seq<Turn>, src: Source, t0: Time, responseSize: nat, ret: int,
                                             n: nat)
    requires responseSize > 0 && Collected(turns, src, t0, responseSize, ret)
    requires forall i | 0 <= i < n :: NextRead(AfterReads(src, i)) != []
    requires RunVerdict(ChunksRead(src, n), responseSize) != Pending
    ensures ret == RetOfVerdict(RunVerdict(ChunksRead(src, n), responseSize)) && ret != -ETIMEDOUT
  {
    hide RunVerdict, TurnMade, Turning, ChunksRead, ChunksOf, AfterReads, NextRead;
    ChunksAreReads(turns, src, t0, responseSize);
    if n < |turns| {
      PendingBefore(turns, src, t0, responseSize, n);
    } else {
      VerdictStays(src, |turns|, n, responseSize);
    }
  }

  /** More non-empty reads after a verdict leave the verdict. */
  lemma {:induction false} VerdictStays(src: Source, m: nat, n: nat, responseSize: nat)
    requires responseSize > 0 && m <= n
    requires forall i | m <= i < n :: NextRead(AfterReads(src, i)) != []
    ensures RunVerdict(ChunksRead(src, m), responseSize) != Pending ==>
              RunVerdict(ChunksRead(src, n), responseSize) == RunVerdict(ChunksRead(src, m), responseSize)
    decreases n - m
  {
    hide NextRead, AfterReads, Judge, Held;
    if m < n {
      VerdictStays(src, m, n - 1, responseSize);
      var before := ChunksRead(src, n - 1);
      var got := NextRead(AfterReads(src, n - 1));
      assert (before + [got])[..|before|] == before;
    }
  }

  /** How many empty reads were waited out since the last chunk, or since the start. */
  function Silence(turns: seq<Turn>): nat {
    if turns == [] || turns[|turns| - 1].got != [] then 0 else 1 + Silence(turns[..|turns| - 1])
  }

  lemma {:induction false} SilenceStep(turns: seq<Turn>, t0: Time)
    requires turns != []
    ensures var init, last := turns[..|turns| - 1], turns[|turns| - 1];
            && Silence(turns) == (if last.got != [] then 0 else 1 + Silence(init))
            && DeadlineAfter(turns, t0) == (if last.got != [] then last.after.now + 1000 else DeadlineAfter(init, t0))
  {}

  /** The clock at the deadline's side: of the time left, only the waited out empty reads and the
      lag have gone. */
  lemma {:induction false} TimeInSilence(turns: seq<Turn>, src: Source, t0: Time, responseSize: nat)
    requires responseSize > 0 && Turning(turns, src, t0, responseSize)
    requires RunVerdict(ChunksOf(turns), responseSize) == Pending
    ensures Horizon(TimeAfter(t0, turns)) + (if ChunksOf(turns) == [] then 5000 else 1000)
              <= DeadlineAfter(turns, t0) + 10 * Silence(turns) + Total(t0.lag)
    ensures Total(TimeAfter(t0, turns).lag) <= Total(t0.lag)
    decreases |turns|
  {
    hide RunVerdict, Turning, AfterReads, NextRead, Total, Tick, TurnMade;
    if turns == [] {
      NoTurnYet(src, t0, responseSize);
    } else {
      var n := |turns| - 1;
      var init, last := turns[..n], turns[n];
      FirstTurns(turns, src, t0, responseSize, n);
      TurnOf(turns, src, t0, responseSize, n);
      TurnReads(init, last, src, t0, responseSize);
      TimeInSilence(init, src, t0, responseSize);
      TurnTakes(init, last, src, t0, responseSize);
      var t := TimeAfter(t0, init);
      ChunksOfStep(turns);
      hide ChunksOf;
      SilenceStep(turns, t0);
      hide Silence, DeadlineAfter;
      TickMovesHorizon(t, 0);
      TickMovesHorizon(Tick(t, 0), 10);
      LagShrinks(t, 0);
      LagShrinks(Tick(t, 0), 10);
      assert TimeAfter(t0, turns) == last.after;
    }
  }

  lemma {:induction false} TurnTakes(before: seq<Turn>, turn: Turn, src: Source, t0: Time, responseSize: nat)
    requires responseSize > 0 && TurnMade(before, turn, src, t0, responseSize)
    ensures var t := TimeAfter(t0, before);
            && (turn.got == [] ==> turn.after == Tick(Tick(t, 0), 10))
            && (turn.got != [] && RunVerdict(ChunksOf(before) + [turn.got], responseSize) == Pending ==>
                  turn.after == Tick(t, 0))
  {}

  lemma {:induction false} LagShrinks(t: Time, ms: nat)
    ensures Total(Tick(t, ms).lag) <= Total(t.lag)
  {}

  /** A call times out only after silence: the empty reads waited out since the last chunk, at
      10 ms each, and the lag make up 1000 ms, or 5000 ms if no chunk came at all. */
  lemma {:induction false} SilenceBeforeTimeout(turns: seq<Turn>, src: Source, t0: Time, responseSize: nat)
    requires responseSize > 0 && Collected(turns, src, t0, responseSize, -ETIMEDOUT)
    ensures 10 * Silence(turns) + Total(t0.lag) >= if ChunksOf(turns) == [] then 5000 else 1000
  {
    hide RunVerdict, Turning, AfterReads, NextRead, Total, Tick, Silence, DeadlineAfter, ChunksOf;
    TimeInSilence(turns, src, t0, responseSize);
    TickMovesHorizon(TimeAfter(t0, turns), 0);
  }

  /** Two loops entered at the same time on the same source agree as far as both go. */
  lemma {:induction false} TurnsAgree(one: seq<Turn>, other: seq<Turn>, src: Source, t0: Time, responseSize: nat,
                                      n: nat)
    requires responseSize > 0 && n <= |one| && n <= |other|
    requires Turning(one, src, t0, responseSize) && Turning(other, src, t0, responseSize)
    ensures one[..n] == other[..n]
    decreases n
  {
    hide Turning, TurnMade;
    if n > 0 {
      TurnsAgree(one, other, src, t0, responseSize, n - 1);
      TurnOf(one, src, t0, responseSize, n - 1);
      TurnOf(other, src, t0, responseSize, n - 1);
      TurnIsDetermined(one[..n - 1], one[n - 1], other[n - 1], src, t0, responseSize);
      assert one[..n] == one[..n - 1] + [one[n - 1]];
      assert other[..n] == other[..n - 1] + [other[n - 1]];
    }
  }

  lemma {:induction false} TurnIsDetermined(before: seq<Turn>, p: Turn, q: Turn, src: Source, t0: Time,
                                            responseSize: nat)
    requires responseSize > 0
    requires TurnMade(before, p, src, t0, responseSize) && TurnMade(before, q, src, t0, responseSize)
    ensures p == q
  {}

  lemma {:induction false} CollectingIsOver(turns: seq<Turn>, n: nat, src: Source, t0: Time, responseSize: nat,
                                            ret: int)
    requires responseSize > 0 && n < |turns| && Turning(turns, src, t0, responseSize)
    ensures !Collected(turns[..n], src, t0, responseSize, ret)
  {
    hide Turning, RunVerdict, AfterReads, NextRead, ChunksOf, DeadlineAfter, TimeAfter, Tick;
    TurnOf(turns, src, t0, responseSize, n);
  }

  /** What the source and the clock do determines every pass of the loop and its answer. */
  lemma {:induction false} CollectingIsDetermined(one: seq<Turn>, other: seq<Turn>, src: Source, t0: Time,
                                                  responseSize: nat, r: int, q: int)
    requires responseSize > 0
    requires Collected(one, src, t0, responseSize, r) && Collected(other, src, t0, responseSize, q)
    ensures one == other && r == q
  {
    hide Turning, RunVerdict, ChunksOf, NextRead, AfterReads;
    var n := Min(|one|, |other|);
    TurnsAgree(one, other, src, t0, responseSize, n);
    assert one[..|one|] == one && other[..|other|] == other;
    if n < |one| {
      CollectingIsOver(one, n, src, t0, responseSize, q);
    }
    if n < |other| {
      CollectingIsOver(other, n, src, t0, responseSize, r);
    }
  }

  /** The outcome of a whole call is determined by the wire it meets. */
  lemma {:induction false} CallIsDetermined(command: bytes, responseSize: nat, w: Wire, one: seq<Turn>, r: int,
                                            v: Wire, other: seq<Turn>, q: int, u: Wire)
    requires responseSize > 0
    requires Called(command, responseSize, w, one, r, v) && Called(command, responseSize, w, other, q, u)
    ensures one == other && r == q && v == u
  {
    hide Collected, SourceAtEnd, TimeAtEnd, Opened, Closed, Rest, Tick;
    if OpenRet(w) == 0 && ReadyAt(Asked(w).answers, 0) && ReadyAt(Asked(w).answers, 1) {
      CollectingIsDetermined(one, other, Asked(w).src, Tick(w.time, 0), responseSize, r, q);
    }
  }
}

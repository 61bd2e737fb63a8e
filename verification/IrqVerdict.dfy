/**
  The interrupt-fed receiver seen as a function of the chunks it was handed.

  The receiver keeps the first responseSize - 1 bytes of everything received and looks
  for a terminator after each chunk. This module computes, for every way of cutting a
  stream into chunks, what the answer is, and says exactly when the cutting matters.
 */
module IrqVerdict {
  import opened ByteText

  const CHUNK_SIZE: nat := 64

  const CRLF_OK_CRLF: bytes := [13, 10, 79, 75, 13, 10]
  const LF_OK_CRLF: bytes := [10, 79, 75, 13, 10]
  const LF_OK_LF: bytes := [10, 79, 75, 10]
  const ERROR: bytes := [69, 82, 82, 79, 82]

  datatype Verdict = Pending | Success | ModemError

  predicate SeesOk(buffer: bytes) {
    Holds(CRLF_OK_CRLF, buffer) || Holds(LF_OK_CRLF, buffer) || Holds(LF_OK_LF, buffer)
  }

  predicate SeesError(buffer: bytes) {
    Holds(ERROR, buffer)
  }

  function Judge(buffer: bytes): Verdict {
    if SeesOk(buffer) then Success else if SeesError(buffer) then ModemError else Pending
  }

  /** What fits in front of the terminating NUL. */
  function Held(stream: bytes, responseSize: nat): (r: bytes)
    requires responseSize > 0
    ensures |r| < responseSize && r <= stream
  {
    stream[..Min(|stream|, responseSize - 1)]
  }

  /** The first verdict reached while the chunks arrive in order. */
  function RunVerdict(chunks: seq<bytes>, responseSize: nat): Verdict
    requires responseSize > 0
  {
    if chunks == [] then Pending
    else
      var before := RunVerdict(chunks[..|chunks| - 1], responseSize);
      if before != Pending then before else Judge(Held(Flatten(chunks), responseSize))
  }

  function FirstOk(buffer: bytes): nat {
    Shortest(SeesOk, buffer)
  }

  function FirstError(buffer: bytes): nat {
    Shortest(SeesError, buffer)
  }

  /** How many bytes the buffer holds after the first `j` chunks. */
  function Mark(chunks: seq<bytes>, j: nat, responseSize: nat): nat
    requires responseSize > 0 && j <= |chunks|
  {
    |Held(Flatten(chunks[..j]), responseSize)|
  }

  /** Some chunk ends after `from` bytes are held and before `to` bytes are. */
  ghost predicate CutBetween(chunks: seq<bytes>, responseSize: nat, from: nat, to: nat)
    requires responseSize > 0
  {
    exists j: nat | j <= |chunks| :: from <= Mark(chunks, j, responseSize) < to
  }

  lemma {:induction false} SeesMonotone()
    ensures Monotone(SeesOk) && Monotone(SeesError)
  {
    forall s: bytes, n: nat | n <= |s| && SeesOk(s[..n])
      ensures SeesOk(s)
    {
      if Holds(CRLF_OK_CRLF, s[..n]) {
        HoldsMonotone(CRLF_OK_CRLF, s, n);
      } else if Holds(LF_OK_CRLF, s[..n]) {
        HoldsMonotone(LF_OK_CRLF, s, n);
      } else {
        HoldsMonotone(LF_OK_LF, s, n);
      }
    }
    forall s: bytes, n: nat | n <= |s| && SeesError(s[..n])
      ensures SeesError(s)
    {
      HoldsMonotone(ERROR, s, n);
    }
  }

  lemma {:induction false} MarksGrow(chunks: seq<bytes>, i: nat, j: nat, responseSize: nat)
    requires i <= j <= |chunks| && responseSize > 0
    ensures Mark(chunks, i, responseSize) <= Mark(chunks, j, responseSize)
  {
    assert chunks[..j][..i] == chunks[..i];
    FlattenPrefix(chunks[..j], i);
  }

  lemma {:induction false} JudgeByLengths(buffer: bytes)
    ensures Judge(buffer) == (if FirstOk(buffer) <= |buffer| then Success
                              else if FirstError(buffer) <= |buffer| then ModemError else Pending)
  {
    SeesMonotone();
    ShortestOfMonotone(SeesOk, buffer);
    ShortestOfMonotone(SeesError, buffer);
  }

  /** What one more chunk does to the held bytes. */
  lemma {:induction false} HeldStep(chunks: seq<bytes>, responseSize: nat)
    requires chunks != [] && responseSize > 0
    ensures var held := Held(Flatten(chunks), responseSize);
            var held' := Held(Flatten(chunks[..|chunks| - 1]), responseSize);
            && |held'| <= |held|
            && FirstOk(held') == (if FirstOk(held) <= |held'| then FirstOk(held) else |held'| + 1)
            && FirstError(held') == (if FirstError(held) <= |held'| then FirstError(held) else |held'| + 1)
  {
    var held := Held(Flatten(chunks), responseSize);
    var held' := Held(Flatten(chunks[..|chunks| - 1]), responseSize);
    assert held' == held[..|held'|];
    ShortestOfPrefix(SeesOk, held, |held'|);
    ShortestOfPrefix(SeesError, held, |held'|);
  }

  /** The cuts of a chunking: those of all chunks but the last, and the end. */
  lemma {:induction false} CutStep(chunks: seq<bytes>, responseSize: nat, from: nat, to: nat)
    requires chunks != [] && responseSize > 0
    ensures var earlier := chunks[..|chunks| - 1];
            && (CutBetween(chunks, responseSize, from, to) <==>
                  CutBetween(earlier, responseSize, from, to)
                  || from <= |Held(Flatten(chunks), responseSize)| < to)
            && (CutBetween(earlier, responseSize, from, to) ==>
                  from <= |Held(Flatten(earlier), responseSize)|)
            && (from <= |Held(Flatten(earlier), responseSize)| < to ==>
                  CutBetween(earlier, responseSize, from, to))
  {
    var n := |chunks| - 1;
    var earlier := chunks[..n];
    assert chunks[..n + 1] == chunks && earlier[..n] == earlier;
    assert Mark(chunks, n + 1, responseSize) == |Held(Flatten(chunks), responseSize)|;
    assert Mark(earlier, n, responseSize) == |Held(Flatten(earlier), responseSize)|;
    forall j: nat | j <= n
      ensures Mark(chunks, j, responseSize) == Mark(earlier, j, responseSize) <= Mark(earlier, n, responseSize)
    {
      assert earlier[..j] == chunks[..j];
      MarksGrow(earlier, j, n, responseSize);
    }
    if CutBetween(earlier, responseSize, from, to) {
      var j: nat :| j <= n && from <= Mark(earlier, j, responseSize) < to;
      assert from <= Mark(chunks, j, responseSize) < to;
    }
    if CutBetween(chunks, responseSize, from, to) {
      var j: nat :| j <= n + 1 && from <= Mark(chunks, j, responseSize) < to;
      assert j <= n ==> from <= Mark(earlier, j, responseSize) < to;
    }
  }

  lemma {:induction false} NothingSeenAtFirst(responseSize: nat)
    requires responseSize > 0
    ensures Held(Flatten([]), responseSize) == []
    ensures FirstOk([]) == 1 && FirstError([]) == 1
  {}

  /**
    The verdict on every chunking of every stream. With k and e the lengths at which an OK
    pattern and "ERROR" first complete in the held bytes, the answer is 0 exactly when an OK
    pattern completes and no chunk ends in [e, k).
   */
  lemma {:induction false} VerdictExact(chunks: seq<bytes>, responseSize: nat)
    requires responseSize > 0
    ensures var held := Held(Flatten(chunks), responseSize);
            var k, e := FirstOk(held), FirstError(held);
            && (RunVerdict(chunks, responseSize) == Pending <==> k > |held| && e > |held|)
            && (RunVerdict(chunks, responseSize) == Success <==>
                  k <= |held| && !CutBetween(chunks, responseSize, e, k))
    decreases |chunks|
  {
    if chunks == [] {
      NothingSeenAtFirst(responseSize);
    } else {
      var held := Held(Flatten(chunks), responseSize);
      var earlier := chunks[..|chunks| - 1];
      VerdictExact(earlier, responseSize);
      HeldStep(chunks, responseSize);
      JudgeByLengths(held);
      var held' := Held(Flatten(earlier), responseSize);
      CutStep(chunks, responseSize, FirstError(held), FirstOk(held));
      CutStep(chunks, responseSize, FirstError(held'), FirstOk(held'));
    }
  }

  /** A stream whose held bytes contain one kind of terminator, or in which an OK pattern
      completes first, gets the same answer however it is cut. */
  lemma {:induction false} VerdictOfClearStream(chunks: seq<bytes>, responseSize: nat)
    requires responseSize > 0
    ensures var held := Held(Flatten(chunks), responseSize);
            && (SeesOk(held) && (!SeesError(held) || FirstOk(held) <= FirstError(held)) ==>
                  RunVerdict(chunks, responseSize) == Success)
            && (!SeesOk(held) && SeesError(held) ==>
                  RunVerdict(chunks, responseSize) == ModemError)
            && (!SeesOk(held) && !SeesError(held) ==>
                  RunVerdict(chunks, responseSize) == Pending)
  {
    SeesMonotone();
    var held := Held(Flatten(chunks), responseSize);
    ShortestOfMonotone(SeesOk, held);
    ShortestOfMonotone(SeesError, held);
    VerdictExact(chunks, responseSize);
  }

  ghost predicate Chunking(chunks: seq<bytes>, stream: bytes) {
    && Flatten(chunks) == stream
    && forall c | c in chunks :: 1 <= |c| <= CHUNK_SIZE
  }

  ghost predicate ChunkingIndependent(stream: bytes, responseSize: nat)
    requires responseSize > 0
  {
    forall one, other | Chunking(one, stream) && Chunking(other, stream) ::
      RunVerdict(one, responseSize) == RunVerdict(other, responseSize)
  }

  function Singles(stream: bytes): seq<bytes> {
    seq(|stream|, i requires 0 <= i < |stream| => [stream[i]])
  }

  lemma {:induction false} FlattenSingles(stream: bytes, j: nat)
    requires j <= |stream|
    ensures Flatten(Singles(stream)[..j]) == stream[..j]
  {
    if j > 0 {
      FlattenSingles(stream, j - 1);
      assert Singles(stream)[..j][..j - 1] == Singles(stream)[..j - 1];
    }
  }

  lemma {:induction false} SinglesAreChunks(stream: bytes)
    ensures Chunking(Singles(stream), stream)
  {
    FlattenSingles(stream, |stream|);
    assert Singles(stream)[..|stream|] == Singles(stream);
    assert stream[..|stream|] == stream;
  }

  /** Chunks of at most 64 bytes cannot step over a window of 64 or more positions. */
  lemma {:induction false} WideWindowIsCut(chunks: seq<bytes>, responseSize: nat, from: nat, to: nat, j: nat)
    requires responseSize > 0 && j <= |chunks|
    requires forall c | c in chunks :: |c| <= CHUNK_SIZE
    requires 0 < from && from + CHUNK_SIZE <= to
    requires from <= Mark(chunks, j, responseSize)
    ensures CutBetween(chunks, responseSize, from, to)
    decreases j
  {
    if Mark(chunks, j, responseSize) >= to {
      assert j > 0;
      assert chunks[..j][..j - 1] == chunks[..j - 1];
      assert chunks[j - 1] in chunks;
      assert Flatten(chunks[..j]) == Flatten(chunks[..j - 1]) + chunks[j - 1];
      WideWindowIsCut(chunks, responseSize, from, to, j - 1);
    }
  }

  /** One chunk from just before `from` up to `to`, single bytes elsewhere. */
  function Bridge(stream: bytes, from: nat, to: nat): seq<bytes>
    requires 0 < from < to <= |stream|
  {
    Singles(stream[..from - 1]) + [stream[from - 1..to]] + Singles(stream[to..])
  }

  lemma {:induction false} FlattenThree(head: seq<bytes>, bulk: bytes, rest: seq<bytes>)
    ensures Flatten(head + [bulk] + rest) == Flatten(head) + bulk + Flatten(rest)
  {
    FlattenConcat(head + [bulk], rest);
    FlattenConcat(head, [bulk]);
    assert [bulk][..0] == [];
  }

  lemma {:induction false} SinglesLength(stream: bytes)
    ensures |Singles(stream)| == |stream|
  {}

  lemma {:induction false} CutsJoin(s: bytes, a: nat, b: nat, c: nat)
    requires a <= b <= c <= |s|
    ensures s[..c] == s[..a][..a] + s[a..b] + s[b..][..c - b]
  {}

  lemma {:induction false} BridgeMark(stream: bytes, from: nat, to: nat, j: nat)
    requires 0 < from < to <= |stream|
    requires j <= |Bridge(stream, from, to)|
    ensures Flatten(Bridge(stream, from, to)[..j])
         == stream[..if j < from then j else j - from + to]
  {
    hide Flatten, Singles;
    SinglesLength(stream[..from - 1]);
    SinglesLength(stream[to..]);
    var head, bulk, rest := Singles(stream[..from - 1]), stream[from - 1..to], Singles(stream[to..]);
    var bridge := head + [bulk] + rest;
    if j < from {
      assert bridge[..j] == head[..j];
      FlattenSingles(stream[..from - 1], j);
      assert stream[..from - 1][..j] == stream[..j];
    } else {
      assert bridge[..j] == head + [bulk] + rest[..j - from];
      FlattenThree(head, bulk, rest[..j - from]);
      FlattenSingles(stream[..from - 1], from - 1);
      assert head[..from - 1] == head;
      FlattenSingles(stream[to..], j - from);
      CutsJoin(stream, from - 1, to, j - from + to);
    }
  }

  lemma {:induction false} BridgeSkips(stream: bytes, responseSize: nat, from: nat, to: nat)
    requires responseSize > 0 && 0 < from < to <= |Held(stream, responseSize)|
    requires to < from + CHUNK_SIZE
    ensures Chunking(Bridge(stream, from, to), stream)
    ensures !CutBetween(Bridge(stream, from, to), responseSize, from, to)
  {
    var bridge := Bridge(stream, from, to);
    BridgeMark(stream, from, to, |bridge|);
    assert bridge[..|bridge|] == bridge;
    assert stream[..|stream|] == stream;
    forall j: nat | j <= |bridge|
      ensures !(from <= Mark(bridge, j, responseSize) < to)
    {
      BridgeMark(stream, from, to, j);
    }
  }

  /** "ERROR" completes first and an OK pattern completes fewer than 64 bytes later. */
  predicate Straddles(held: bytes) {
    && FirstError(held) < FirstOk(held) <= |held|
    && FirstOk(held) < FirstError(held) + CHUNK_SIZE
  }

  lemma {:induction false} StraddlingDepends(stream: bytes, responseSize: nat)
    requires responseSize > 0 && Straddles(Held(stream, responseSize))
    ensures Chunking(Singles(stream), stream)
    ensures RunVerdict(Singles(stream), responseSize) == ModemError
    ensures exists chunks :: Chunking(chunks, stream) && RunVerdict(chunks, responseSize) == Success
  {
    var held := Held(stream, responseSize);
    var k, e := FirstOk(held), FirstError(held);
    NothingSeenAtFirst(responseSize);
    assert held[..0] == [];
    ShortestOfPrefix(SeesError, held, 0);
    var singles, bridge := Singles(stream), Bridge(stream, e, k);
    SinglesAreChunks(stream);
    FlattenSingles(stream, e);
    assert Mark(singles, e, responseSize) == e;
    VerdictExact(singles, responseSize);
    BridgeSkips(stream, responseSize, e, k);
    VerdictExact(bridge, responseSize);
  }

  lemma {:induction false} NotStraddlingSettles(chunks: seq<bytes>, stream: bytes, responseSize: nat)
    requires responseSize > 0 && !Straddles(Held(stream, responseSize))
    requires Chunking(chunks, stream)
    ensures var held := Held(stream, responseSize);
            RunVerdict(chunks, responseSize) ==
              if FirstOk(held) <= FirstError(held) && FirstOk(held) <= |held| then Success
              else if FirstError(held) <= |held| then ModemError else Pending
  {
    var held := Held(stream, responseSize);
    var k, e := FirstOk(held), FirstError(held);
    VerdictExact(chunks, responseSize);
    if e < k <= |held| {
      NothingSeenAtFirst(responseSize);
      assert held[..0] == [];
      ShortestOfPrefix(SeesError, held, 0);
      assert chunks[..|chunks|] == chunks;
      WideWindowIsCut(chunks, responseSize, e, k, |chunks|);
    }
  }

  /** Exactly which streams are at the mercy of chunk boundaries. */
  lemma {:induction false} ChunkingMatters(stream: bytes, responseSize: nat)
    requires responseSize > 0
    ensures ChunkingIndependent(stream, responseSize) <==> !Straddles(Held(stream, responseSize))
  {
    if Straddles(Held(stream, responseSize)) {
      StraddlingDepends(stream, responseSize);
      assert !ChunkingIndependent(stream, responseSize);
    } else {
      forall one, other | Chunking(one, stream) && Chunking(other, stream)
        ensures RunVerdict(one, responseSize) == RunVerdict(other, responseSize)
      {
        NotStraddlingSettles(one, stream, responseSize);
        NotStraddlingSettles(other, stream, responseSize);
      }
    }
  }

  /** Which verdicts a stream can get at all, over every cutting into chunks of 1 to 64 bytes. */
  lemma {:induction false} PossibleVerdicts(stream: bytes, responseSize: nat)
    requires responseSize > 0
    ensures var held := Held(stream, responseSize);
            var k, e := FirstOk(held), FirstError(held);
            && ((exists chunks :: Chunking(chunks, stream) && RunVerdict(chunks, responseSize) == Success)
                  <==> k <= |held| && k < e + CHUNK_SIZE)
            && ((exists chunks :: Chunking(chunks, stream) && RunVerdict(chunks, responseSize) == ModemError)
                  <==> e <= |held| && e < k)
            && ((exists chunks :: Chunking(chunks, stream) && RunVerdict(chunks, responseSize) == Pending)
                  <==> k > |held| && e > |held|)
  {
    var held := Held(stream, responseSize);
    var k, e := FirstOk(held), FirstError(held);
    hide RunVerdict, FirstOk, FirstError, Held;
    if Straddles(held) {
      StraddlingDepends(stream, responseSize);
      forall chunks | Chunking(chunks, stream)
        ensures RunVerdict(chunks, responseSize) != Pending
      {
        VerdictExact(chunks, responseSize);
      }
    } else {
      SinglesAreChunks(stream);
      NotStraddlingSettles(Singles(stream), stream, responseSize);
      LastBytes(held);
      forall chunks | Chunking(chunks, stream)
        ensures RunVerdict(chunks, responseSize) == RunVerdict(Singles(stream), responseSize)
      {
        NotStraddlingSettles(chunks, stream, responseSize);
      }
    }
  }

  lemma {:induction false} FirstIsSuffix(p: bytes, held: bytes, n: nat)
    requires p != [] && 0 < n <= |held| && Holds(p, held[..n]) && !Holds(p, held[..n - 1])
    ensures held[n - 1] == p[|p| - 1]
  {
    var s := held[..n];
    assert s[..n - 1] == held[..n - 1];
    FirstHoldIsSuffix(p, s);
    assert s[n - 1] == s[n - |p|..][|p| - 1];
  }

  /** An OK pattern first completes with a line feed, "ERROR" with its last letter. */
  lemma {:induction false} LastBytes(held: bytes)
    ensures FirstOk(held) <= |held| ==> FirstOk(held) > 0 && held[FirstOk(held) - 1] == LF
    ensures FirstError(held) <= |held| ==> FirstError(held) > 0 && held[FirstError(held) - 1] == ERROR[4]
  {
    NothingSeenAtFirst(1);
    hide Holds, Shortest;
    var k, e := FirstOk(held), FirstError(held);
    assert held[..0] == [];
    if k <= |held| {
      assert SeesOk(held[..k]) && !SeesOk(held[..k - 1]);
      var p := if Holds(CRLF_OK_CRLF, held[..k]) then CRLF_OK_CRLF
               else if Holds(LF_OK_CRLF, held[..k]) then LF_OK_CRLF else LF_OK_LF;
      FirstIsSuffix(p, held, k);
    }
    if e <= |held| {
      assert SeesError(held[..e]) && !SeesError(held[..e - 1]);
      FirstIsSuffix(ERROR, held, e);
    }
  }

  lemma {:induction false} ErrorIsNotOk()
    ensures !SeesOk(ERROR) && SeesError(ERROR)
  {
    CStrOfNulFree(ERROR);
    assert MatchAt(ERROR, ERROR, 0);
    hide Occurs, CStr;
    var c := ERROR;
    if Occurs(CRLF_OK_CRLF, c) {
      OccurrenceBrings(CRLF_OK_CRLF, c, LF);
    }
    if Occurs(LF_OK_CRLF, c) {
      OccurrenceBrings(LF_OK_CRLF, c, LF);
    }
    if Occurs(LF_OK_LF, c) {
      OccurrenceBrings(LF_OK_LF, c, LF);
    }
  }

  lemma {:induction false} SeesAtEnd(head: bytes)
    requires NulFree(head)
    ensures SeesOk(head + LF_OK_LF)
  {
    var s := head + LF_OK_LF;
    CStrOfNulFree(s);
    assert MatchAt(LF_OK_LF, s, |head|);
  }

  lemma {:induction false} ShortAndMixed(s: bytes, n: nat)
    requires n <= |s| < CHUNK_SIZE && SeesError(s[..n]) && !SeesOk(s[..n]) && SeesOk(s)
    ensures Straddles(s)
  {
    SeesMonotone();
    hide SeesOk, SeesError, Shortest;
    ShortestOfMonotone(SeesOk, s);
    ShortestOfMonotone(SeesOk, s[..n]);
    ShortestOfMonotone(SeesError, s[..n]);
    ShortestOfPrefix(SeesError, s, n);
    ShortestOfPrefix(SeesOk, s, n);
  }

  /** A stream at the mercy of chunk boundaries: "ERROR" and then "\nOK\n". */
  lemma {:induction false} StraddlingExample()
    ensures var stream := ERROR + LF_OK_LF;
            Straddles(Held(stream, 256)) && !ChunkingIndependent(stream, 256)
  {
    var stream := ERROR + LF_OK_LF;
    ErrorIsNotOk();
    SeesAtEnd(ERROR);
    assert stream[..5] == ERROR;
    hide SeesOk, SeesError, Straddles, ChunkingIndependent;
    ShortAndMixed(stream, 5);
    assert Held(stream, 256) == stream;
    ChunkingMatters(stream, 256);
  }

  // ----- The verdict in so many bytes -----

  /** A line feed, "OK", and the end of the line, LF or CR LF: 10, 79, 75, and then 10 or 13, 10. */
  predicate OkAt(s: bytes, i: int) {
    && 0 <= i && i + 4 <= |s| && s[i] == 10 && s[i + 1] == 79 && s[i + 2] == 75
    && (s[i + 3] == 10 || (i + 5 <= |s| && s[i + 3] == 13 && s[i + 4] == 10))
  }

  /** The letters "ERROR" anywhere: 69, 82, 82, 79, 82. */
  predicate ErrorAt(s: bytes, i: int) {
    0 <= i && i + 5 <= |s| && s[i] == 69 && s[i + 1] == 82 && s[i + 2] == 82 && s[i + 3] == 79 && s[i + 4] == 82
  }

  lemma {:induction false} LfOkLfIsMeant(s: bytes, i: int)
    ensures MatchAt(LF_OK_LF, s, i) <==>
              0 <= i && i + 4 <= |s| && s[i] == 10 && s[i + 1] == 79 && s[i + 2] == 75 && s[i + 3] == 10
  {
    if 0 <= i && i + 4 <= |s| {
      assert s[i..i + 4] == [s[i], s[i + 1], s[i + 2], s[i + 3]];
    }
  }

  lemma {:induction false} LfOkCrLfIsMeant(s: bytes, i: int)
    ensures MatchAt(LF_OK_CRLF, s, i) <==>
              && 0 <= i && i + 5 <= |s| && s[i] == 10 && s[i + 1] == 79 && s[i + 2] == 75
              && s[i + 3] == 13 && s[i + 4] == 10
  {
    if 0 <= i && i + 5 <= |s| {
      assert s[i..i + 5] == [s[i], s[i + 1], s[i + 2], s[i + 3], s[i + 4]];
    }
  }

  lemma {:induction false} OkAtIsMeant(s: bytes, i: int)
    ensures OkAt(s, i) <==> MatchAt(LF_OK_LF, s, i) || MatchAt(LF_OK_CRLF, s, i)
  {
    hide MatchAt;
    LfOkLfIsMeant(s, i);
    LfOkCrLfIsMeant(s, i);
  }

  lemma {:induction false} InBounds(s: bytes, i: int)
    requires OkAt(s, i)
    ensures 0 <= i <= |s|
  {}

  /** The longest pattern contains the one without its first byte. */
  lemma {:induction false} LongerIsCovered(s: bytes, i: int)
    requires MatchAt(CRLF_OK_CRLF, s, i)
    ensures MatchAt(LF_OK_CRLF, s, i + 1)
  {
    assert s[i + 1..i + 6] == s[i..i + 6][1..];
  }

  lemma {:induction false} OkIsMeant(s: bytes)
    requires NulFree(s)
    ensures SeesOk(s) <==> exists i :: OkAt(s, i)
  {
    CStrOfNulFree(s);
    hide CStr, MatchAt, OkAt;
    forall i
      ensures OkAt(s, i) <==> MatchAt(LF_OK_LF, s, i) || MatchAt(LF_OK_CRLF, s, i)
    {
      OkAtIsMeant(s, i);
    }
    if i :| 0 <= i <= |s| && MatchAt(CRLF_OK_CRLF, s, i) {
      LongerIsCovered(s, i);
      assert OkAt(s, i + 1);
    } else if i :| 0 <= i <= |s| && MatchAt(LF_OK_CRLF, s, i) {
      assert OkAt(s, i);
    } else if i :| 0 <= i <= |s| && MatchAt(LF_OK_LF, s, i) {
      assert OkAt(s, i);
    } else if i :| OkAt(s, i) {
      InBounds(s, i);
    }
  }

  lemma {:induction false} ErrorIsMeant(s: bytes)
    requires NulFree(s)
    ensures SeesError(s) <==> exists i :: ErrorAt(s, i)
  {
    CStrOfNulFree(s);
    hide CStr;
    if Occurs(ERROR, s) {
      var i :| 0 <= i <= |s| && MatchAt(ERROR, s, i);
      MatchBytes(ERROR, s, i);
      assert ERROR[0] == 69 && ERROR[1] == 82 && ERROR[2] == 82 && ERROR[3] == 79 && ERROR[4] == 82;
      assert ErrorAt(s, i);
    }
    if i :| ErrorAt(s, i) {
      assert s[i..i + 5] == ERROR && MatchAt(ERROR, s, i);
    }
  }

  /** What the buffer holds after the first `j` chunks: at most responseSize - 1 bytes. */
  function HeldAfter(chunks: seq<bytes>, j: nat, responseSize: nat): bytes
    requires responseSize > 0 && j <= |chunks|
  {
    var stream := Flatten(chunks[..j]);
    if |stream| < responseSize then stream else stream[..responseSize - 1]
  }

  /** Some chunk makes the buffer hold an OK line, and no chunk before it made it hold "ERROR". */
  ghost predicate OkFirst(chunks: seq<bytes>, responseSize: nat)
    requires responseSize > 0
  {
    exists j: nat | j <= |chunks| ::
      && (exists i :: OkAt(HeldAfter(chunks, j, responseSize), i))
      && forall m: nat, i | m < j :: !ErrorAt(HeldAfter(chunks, m, responseSize), i)
  }

  /** Some chunk makes the buffer hold "ERROR", and neither it nor one before made it hold an OK
      line. */
  ghost predicate ErrorFirst(chunks: seq<bytes>, responseSize: nat)
    requires responseSize > 0
  {
    exists j: nat | j <= |chunks| ::
      && (exists i :: ErrorAt(HeldAfter(chunks, j, responseSize), i))
      && forall m: nat, i | m <= j :: !OkAt(HeldAfter(chunks, m, responseSize), i)
  }

  ghost predicate NothingSeen(chunks: seq<bytes>, responseSize: nat)
    requires responseSize > 0
  {
    forall j: nat, i | j <= |chunks| ::
      !OkAt(HeldAfter(chunks, j, responseSize), i) && !ErrorAt(HeldAfter(chunks, j, responseSize), i)
  }

  lemma {:induction false} SeenStays(a: bytes, b: bytes, i: int)
    requires a <= b
    ensures OkAt(a, i) ==> OkAt(b, i)
    ensures ErrorAt(a, i) ==> ErrorAt(b, i)
  {}

  lemma {:induction false} HeldGrowsWithChunks(chunks: seq<bytes>, j: nat, k: nat, responseSize: nat)
    requires responseSize > 0 && j <= k <= |chunks|
    ensures HeldAfter(chunks, j, responseSize) <= HeldAfter(chunks, k, responseSize)
    ensures HeldAfter(chunks[..k], j, responseSize) == HeldAfter(chunks, j, responseSize)
  {
    assert chunks[..k][..j] == chunks[..j];
    FlattenPrefix(chunks[..k], j);
  }

  /** Every verdict has its reason in the bytes. */
  lemma {:induction false} VerdictHasReason(chunks: seq<bytes>, responseSize: nat)
    requires responseSize > 0 && NulFree(Flatten(chunks))
    ensures match RunVerdict(chunks, responseSize)
            case Success => OkFirst(chunks, responseSize)
            case ModemError => ErrorFirst(chunks, responseSize)
            case Pending => NothingSeen(chunks, responseSize)
    decreases |chunks|
  {
    hide OkAt, ErrorAt, SeesOk, SeesError, HeldAfter, OkFirst, ErrorFirst, NothingSeen;
    var n := |chunks|;
    LastHeld(chunks, responseSize);
    var held := HeldAfter(chunks, n, responseSize);
    if n == 0 {
      NothingInNothing(responseSize);
      assert chunks == [];
    } else {
      var earlier := chunks[..n - 1];
      assert NulFree(Flatten(earlier)) by { assert forall b | b in Flatten(earlier) :: b in Flatten(chunks); }
      VerdictHasReason(earlier, responseSize);
      OkIsMeant(held);
      ErrorIsMeant(held);
      ReasonStays(chunks, responseSize);
    }
  }

  lemma {:induction false} LastHeld(chunks: seq<bytes>, responseSize: nat)
    requires responseSize > 0 && NulFree(Flatten(chunks))
    ensures HeldAfter(chunks, |chunks|, responseSize) == Held(Flatten(chunks), responseSize)
    ensures NulFree(HeldAfter(chunks, |chunks|, responseSize))
  {
    assert chunks[..|chunks|] == chunks;
  }

  lemma {:induction false} NothingInNothing(responseSize: nat)
    requires responseSize > 0
    ensures NothingSeen([], responseSize)
  {}

  /** One more chunk: a reason found earlier stays, and failing that the bytes now held decide. */
  lemma {:induction false} ReasonStays(chunks: seq<bytes>, responseSize: nat)
    requires responseSize > 0 && chunks != []
    ensures var n := |chunks|;
            var earlier, held := chunks[..n - 1], HeldAfter(chunks, n, responseSize);
            && (OkFirst(earlier, responseSize) ==> OkFirst(chunks, responseSize))
            && (ErrorFirst(earlier, responseSize) ==> ErrorFirst(chunks, responseSize))
            && (NothingSeen(earlier, responseSize) ==>
                  && ((exists i :: OkAt(held, i)) ==> OkFirst(chunks, responseSize))
                  && ((forall i :: !OkAt(held, i)) && (exists i :: ErrorAt(held, i)) ==>
                        ErrorFirst(chunks, responseSize))
                  && ((forall i :: !OkAt(held, i) && !ErrorAt(held, i)) ==> NothingSeen(chunks, responseSize)))
  {
    hide OkAt, ErrorAt, HeldAfter;
    var n := |chunks|;
    var earlier := chunks[..n - 1];
    forall j: nat | j < n
      ensures HeldAfter(earlier, j, responseSize) == HeldAfter(chunks, j, responseSize)
    {
      HeldGrowsWithChunks(chunks, j, n - 1, responseSize);
    }
    var held := HeldAfter(chunks, n, responseSize);
    if NothingSeen(earlier, responseSize) && exists i :: OkAt(held, i) {
      OkNow(chunks, responseSize);
    } else if NothingSeen(earlier, responseSize) && exists i :: ErrorAt(held, i) {
      ErrorNow(chunks, responseSize);
    }
    if j: nat :| j < n && (exists i :: OkAt(HeldAfter(earlier, j, responseSize), i))
                 && forall m: nat, i | m < j :: !ErrorAt(HeldAfter(earlier, m, responseSize), i) {
      assert exists i :: OkAt(HeldAfter(chunks, j, responseSize), i);
    }
    if j: nat :| j < n && (exists i :: ErrorAt(HeldAfter(earlier, j, responseSize), i))
                 && forall m: nat, i | m <= j :: !OkAt(HeldAfter(earlier, m, responseSize), i) {
      assert exists i :: ErrorAt(HeldAfter(chunks, j, responseSize), i);
    }
  }

  lemma {:induction false} OkNow(chunks: seq<bytes>, responseSize: nat)
    requires responseSize > 0 && chunks != [] && NothingSeen(chunks[..|chunks| - 1], responseSize)
    requires exists i :: OkAt(HeldAfter(chunks, |chunks|, responseSize), i)
    ensures OkFirst(chunks, responseSize)
  {
    hide OkAt, ErrorAt, HeldAfter;
    var n := |chunks|;
    forall m: nat, i | m < n
      ensures !ErrorAt(HeldAfter(chunks, m, responseSize), i)
    {
      HeldGrowsWithChunks(chunks, m, n - 1, responseSize);
      assert !ErrorAt(HeldAfter(chunks[..n - 1], m, responseSize), i);
    }
  }

  lemma {:induction false} ErrorNow(chunks: seq<bytes>, responseSize: nat)
    requires responseSize > 0 && chunks != [] && NothingSeen(chunks[..|chunks| - 1], responseSize)
    requires exists i :: ErrorAt(HeldAfter(chunks, |chunks|, responseSize), i)
    requires forall i :: !OkAt(HeldAfter(chunks, |chunks|, responseSize), i)
    ensures ErrorFirst(chunks, responseSize)
  {
    hide OkAt, ErrorAt, HeldAfter;
    var n := |chunks|;
    forall m: nat, i | m <= n
      ensures !OkAt(HeldAfter(chunks, m, responseSize), i)
    {
      if m < n {
        HeldGrowsWithChunks(chunks, m, n - 1, responseSize);
        assert !OkAt(HeldAfter(chunks[..n - 1], m, responseSize), i);
      }
    }
  }

  /** The reasons exclude each other. */
  lemma {:induction false} OneReason(chunks: seq<bytes>, responseSize: nat)
    requires responseSize > 0
    ensures !(OkFirst(chunks, responseSize) && ErrorFirst(chunks, responseSize))
    ensures NothingSeen(chunks, responseSize) ==> !OkFirst(chunks, responseSize) && !ErrorFirst(chunks, responseSize)
  {
    hide OkAt, ErrorAt, HeldAfter;
  }

  lemma {:induction false} NothingHeld(chunks: seq<bytes>, responseSize: nat)
    requires responseSize > 0
    ensures NothingSeen(chunks, responseSize) <==>
              var held := HeldAfter(chunks, |chunks|, responseSize);
              forall i :: !OkAt(held, i) && !ErrorAt(held, i)
  {
    hide OkAt, ErrorAt, HeldAfter;
    var n := |chunks|;
    var held := HeldAfter(chunks, n, responseSize);
    if forall i :: !OkAt(held, i) && !ErrorAt(held, i) {
      forall j: nat, i | j <= n
        ensures !OkAt(HeldAfter(chunks, j, responseSize), i) && !ErrorAt(HeldAfter(chunks, j, responseSize), i)
      {
        HeldGrowsWithChunks(chunks, j, n, responseSize);
        SeenStays(HeldAfter(chunks, j, responseSize), held, i);
      }
    } else {
      var i :| OkAt(held, i) || ErrorAt(held, i);
      assert OkAt(HeldAfter(chunks, n, responseSize), i) || ErrorAt(HeldAfter(chunks, n, responseSize), i);
    }
  }

  /**
    The verdict on every chunking of a NUL-free stream, in so many bytes: success if an OK line
    shows up in the buffer and "ERROR" did not show up with an earlier chunk, a modem error if
    "ERROR" shows up and no OK line by then, and none if neither ever does.
   */
  lemma {:induction false} VerdictInBytes(chunks: seq<bytes>, responseSize: nat)
    requires responseSize > 0 && NulFree(Flatten(chunks))
    ensures RunVerdict(chunks, responseSize) == Success <==> OkFirst(chunks, responseSize)
    ensures RunVerdict(chunks, responseSize) == ModemError <==> ErrorFirst(chunks, responseSize)
    ensures RunVerdict(chunks, responseSize) == Pending <==>
              var held := HeldAfter(chunks, |chunks|, responseSize);
              forall i :: !OkAt(held, i) && !ErrorAt(held, i)
    decreases |chunks|
  {
    hide RunVerdict, OkFirst, ErrorFirst, NothingSeen, OkAt, ErrorAt, HeldAfter;
    VerdictHasReason(chunks, responseSize);
    OneReason(chunks, responseSize);
    NothingHeld(chunks, responseSize);
  }

  /** Without "ERROR" in the bytes held, success is the OK line and nothing else, however the
      stream is cut. */
  lemma {:induction false} SuccessInBytes(chunks: seq<bytes>, responseSize: nat)
    requires responseSize > 0 && NulFree(Flatten(chunks))
    requires forall i :: !ErrorAt(HeldAfter(chunks, |chunks|, responseSize), i)
    ensures RunVerdict(chunks, responseSize) ==
              if exists i :: OkAt(HeldAfter(chunks, |chunks|, responseSize), i) then Success else Pending
  {
    LastHeld(chunks, responseSize);
    var held := HeldAfter(chunks, |chunks|, responseSize);
    OkIsMeant(held);
    ErrorIsMeant(held);
    hide OkAt, ErrorAt, SeesOk, SeesError, RunVerdict, HeldAfter;
    VerdictOfClearStream(chunks, responseSize);
  }

  /** The standard response in one chunk. */
  lemma {:induction false} StandardResponse(responseSize: nat)
    requires responseSize > 6
    ensures RunVerdict([[13, 10, 79, 75, 13, 10]], responseSize) == Success
  {
    var response: bytes := [13, 10, 79, 75, 13, 10];
    assert [response][..1] == [response] && [response][..0] == [];
    assert Flatten([response]) == response;
    assert HeldAfter([response], 1, responseSize) == response;
    assert OkAt(response, 1);
    SuccessInBytes([response], responseSize);
  }
}

/**
  The passthrough's escape detector: Ctrl-X Ctrl-Q, recognised across chunk boundaries from
  one remembered byte.
 */
module Escape {
  import opened ByteText

  const PREFIX: byte := 0x18
  const SUFFIX: byte := 0x11
  const PAIR: bytes := [0x18, 0x11]

  predicate HasPair(s: bytes) {
    Occurs(PAIR, s)
  }

  /** The remembered byte after forwarding `sent` in one session: 0 before the first byte. */
  function TailOf(sent: bytes): byte {
    if sent == [] then NUL else sent[|sent| - 1]
  }

  /** The detector's answer on one chunk. */
  ghost predicate Detects(tail: byte, chunk: bytes) {
    chunk != [] && ((tail == PREFIX && chunk[0] == SUFFIX) || HasPair(chunk))
  }

  /** Ctrl-X (0x18) and right behind it Ctrl-Q (0x11). */
  lemma {:induction false} PairByBytes(s: bytes)
    ensures HasPair(s) <==> exists i :: 0 <= i < |s| - 1 && s[i] == 0x18 && s[i + 1] == 0x11
  {
    if i :| 0 <= i <= |s| && MatchAt(PAIR, s, i) {
      assert s[i] == s[i..i + 2][0] && s[i + 1] == s[i..i + 2][1];
    }
    if i :| 0 <= i < |s| - 1 && s[i] == PREFIX && s[i + 1] == SUFFIX {
      assert s[i..i + 2] == PAIR;
      assert MatchAt(PAIR, s, i);
    }
  }

  lemma {:induction false} NothingHasNoPair()
    ensures !HasPair([]) && TailOf([]) == NUL
  {}

  /** One remembered byte is enough: after any pair-free input, the detector fires on the next
      chunk exactly when the whole input so far contains the pair. */
  lemma {:induction false} DetectorIsExact(sent: bytes, chunk: bytes)
    requires !HasPair(sent)
    ensures Detects(TailOf(sent), chunk) <==> HasPair(sent + chunk)
  {
    var s := sent + chunk;
    PairByBytes(sent);
    PairByBytes(chunk);
    PairByBytes(s);
    if HasPair(chunk) {
      var i :| 0 <= i < |chunk| - 1 && chunk[i] == PREFIX && chunk[i + 1] == SUFFIX;
      assert s[|sent| + i] == PREFIX && s[|sent| + i + 1] == SUFFIX;
    }
    if chunk != [] && TailOf(sent) == PREFIX && chunk[0] == SUFFIX {
      assert s[|sent| - 1] == PREFIX && s[|sent| - 1 + 1] == SUFFIX;
    }
    if HasPair(s) {
      var i :| 0 <= i < |s| - 1 && s[i] == PREFIX && s[i + 1] == SUFFIX;
      assert forall j | 0 <= j < |sent| :: sent[j] == s[j];
      if i >= |sent| {
        var j := i - |sent|;
        assert chunk[j] == PREFIX && chunk[j + 1] == SUFFIX;
      }
    }
  }

  /** A session as the callback runs it, one chunk at a time, while every write succeeds. */
  datatype Session = Session(active: bool, tail: byte, written: bytes)

  ghost function Feed(s: Session, chunk: bytes): Session {
    if chunk == [] || !s.active then s
    else if Detects(s.tail, chunk) then Session(false, NUL, s.written)
    else Session(true, chunk[|chunk| - 1], s.written + chunk)
  }

  ghost function RunSession(chunks: seq<bytes>): Session {
    if chunks == [] then Session(true, NUL, [])
    else Feed(RunSession(chunks[..|chunks| - 1]), chunks[|chunks| - 1])
  }

  /** Index of the first chunk whose arrival makes the input so far contain the pair. */
  function StopAt(chunks: seq<bytes>): (n: nat)
    ensures n <= |chunks|
  {
    if chunks == [] then 0
    else
      var before := StopAt(chunks[..|chunks| - 1]);
      if before < |chunks| - 1 || HasPair(Flatten(chunks)) then before else |chunks|
  }

  lemma {:induction false} StopAtIsFirst(chunks: seq<bytes>)
    ensures var n := StopAt(chunks);
            && (n < |chunks| ==> HasPair(Flatten(chunks[..n + 1])))
            && (forall j | 0 <= j <= n :: !HasPair(Flatten(chunks[..j])))
    decreases |chunks|
  {
    if chunks == [] {
      assert !HasPair([]) by { PairByBytes([]); }
    } else {
      var init := chunks[..|chunks| - 1];
      StopAtIsFirst(init);
      var n := StopAt(init);
      assert chunks[..|chunks|] == chunks;
      assert n < |init| ==> init[..n + 1] == chunks[..n + 1];
      assert forall j | 0 <= j <= n :: init[..j] == chunks[..j];
    }
  }

  /**
    For every split of the user's input into chunks, empty ones included: the session is
    still open exactly when the whole input lacks the pair, what was written to the modem is
    exactly every chunk before the one that completed the pair, and that never contains it.
   */
  lemma {:induction false} SessionRefinesSearch(chunks: seq<bytes>)
    ensures var s := RunSession(chunks);
            && (s.active <==> StopAt(chunks) == |chunks|)
            && s.written == Flatten(chunks[..StopAt(chunks)])
            && !HasPair(s.written)
            && s.tail == (if s.active then TailOf(s.written) else NUL)
            && (s.active ==> s.written == Flatten(chunks))
            && (s.active <==> !HasPair(Flatten(chunks)))
    decreases |chunks|
  {
    StopAtIsFirst(chunks);
    assert chunks[..|chunks|] == chunks;
    if chunks != [] {
      var init, last := chunks[..|chunks| - 1], chunks[|chunks| - 1];
      SessionRefinesSearch(init);
      var n := StopAt(init);
      assert init[..n] == chunks[..n];
      if n == |init| {
        DetectorIsExact(Flatten(init), last);
        assert last == [] ==> Flatten(init) + last == Flatten(init);
      } else {
        FlattenPrefix(chunks, n + 1);
        assert init[..n + 1] == chunks[..n + 1];
        assert Flatten(chunks)[..|Flatten(chunks[..n + 1])|] == Flatten(chunks[..n + 1]);
        OccursMonotone(PAIR, Flatten(chunks), |Flatten(chunks[..n + 1])|);
      }
    }
  }

  /** The first chunk that stops a longer input stops every part of it that contains the chunk. */
  lemma {:induction false} StopAtOfPrefix(chunks: seq<bytes>, i: nat)
    requires i <= |chunks|
    ensures StopAt(chunks[..i]) == Min(StopAt(chunks), i)
    decreases |chunks|
  {
    if i == |chunks| {
      assert chunks[..i] == chunks;
    } else {
      var init := chunks[..|chunks| - 1];
      assert init[..i] == chunks[..i];
      StopAtOfPrefix(init, i);
    }
  }

  /** How many of the chunks there is anything in to write. */
  function Writes(chunks: seq<bytes>): nat {
    if chunks == [] then 0
    else Writes(chunks[..|chunks| - 1]) + (if chunks[|chunks| - 1] == [] then 0 else 1)
  }

  /** One more chunk of an input that has not stopped the session. */
  lemma {:induction false} OneMoreTyped(chunks: seq<bytes>, i: nat)
    requires i < |chunks| && i <= StopAt(chunks)
    ensures var before, after := RunSession(chunks[..i]), RunSession(chunks[..i + 1]);
            && before.active && before.written == Flatten(chunks[..i])
            && after == Feed(before, chunks[i])
            && (after.active <==> i < StopAt(chunks))
            && after.written == Flatten(chunks[..if after.active then i + 1 else i])
            && (chunks[i] == [] ==> after.active)
            && Writes(chunks[..i + 1]) == Writes(chunks[..i]) + (if chunks[i] == [] then 0 else 1)
  {
    hide StopAt, Flatten, HasPair, Detects;
    var shorter, longer := chunks[..i], chunks[..i + 1];
    assert longer[..i] == shorter && longer[|longer| - 1] == chunks[i];
    SessionRefinesSearch(shorter);
    SessionRefinesSearch(longer);
    StopAtOfPrefix(chunks, i);
    StopAtOfPrefix(chunks, i + 1);
  }
}

/**
  Bytes, C strings and substring search: the vocabulary shared by every other module.

  A buffer is a sequence of bytes; the C string it holds is the part before its first
  NUL. `strstr(buffer, pattern) != NULL` is `Holds(pattern, buffer)`.
 */
module ByteText {

  type byte = b: int | 0 <= b < 256
  type bytes = seq<byte>

  const NUL: byte := 0
  const TAB: byte := 9
  const LF: byte := 10
  const CR: byte := 13
  const SPACE: byte := 32

  datatype Option<+T> = None | Some(value: T)

  function Min(a: nat, b: nat): nat {
    if a <= b then a else b
  }

  predicate NulFree(s: bytes) {
    NUL !in s
  }

  /** The C string at the start of a buffer. */
  function CStr(s: bytes): (r: bytes)
    ensures r <= s && NulFree(r)
    ensures |r| < |s| ==> s[|r|] == NUL
  {
    if s == [] || s[0] == NUL then [] else [s[0]] + CStr(s[1..])
  }

  lemma {:induction false} CStrUnique(s: bytes, n: nat)
    requires n <= |s| && NulFree(s[..n]) && (n < |s| ==> s[n] == NUL)
    ensures CStr(s) == s[..n]
  {}

  lemma {:induction false} CStrOfNulFree(s: bytes)
    requires NulFree(s)
    ensures CStr(s) == s
  {}

  /** Cutting a buffer cuts its C string at the same place. */
  lemma {:induction false} CStrOfPrefix(s: bytes, n: nat)
    requires n <= |s|
    ensures CStr(s[..n]) == CStr(s)[..Min(n, |CStr(s)|)]
  {}

  /** A NUL at `n` hides everything after it. */
  lemma {:induction false} CStrOfTerminated(buffer: bytes, n: nat)
    requires n < |buffer| && buffer[n] == NUL
    ensures CStr(buffer) == CStr(buffer[..n]) && |CStr(buffer)| <= n
  {}

  predicate MatchAt(p: bytes, s: bytes, i: int) {
    0 <= i && i + |p| <= |s| && s[i..i + |p|] == p
  }

  predicate Occurs(p: bytes, s: bytes) {
    exists i | 0 <= i <= |s| :: MatchAt(p, s, i)
  }

  predicate Holds(p: bytes, buffer: bytes) {
    Occurs(p, CStr(buffer))
  }

  lemma {:induction false} MatchBytes(p: bytes, s: bytes, i: int)
    requires MatchAt(p, s, i)
    ensures forall k | 0 <= k < |p| :: s[i + k] == p[k]
  {
    forall k | 0 <= k < |p|
      ensures s[i + k] == p[k]
    {
      assert s[i..i + |p|][k] == p[k];
    }
  }

  lemma {:induction false} OccurrenceBrings(p: bytes, s: bytes, b: byte)
    requires Occurs(p, s) && b in p
    ensures b in s
  {}

  lemma {:induction false} MatchInPrefix(p: bytes, s: bytes, n: nat, i: int)
    requires n <= |s|
    ensures MatchAt(p, s[..n], i) <==> MatchAt(p, s, i) && i + |p| <= n
  {}

  lemma {:induction false} OccursMonotone(p: bytes, s: bytes, n: nat)
    requires n <= |s| && Occurs(p, s[..n])
    ensures Occurs(p, s)
  {
    var i :| 0 <= i <= n && MatchAt(p, s[..n], i);
    MatchInPrefix(p, s, n, i);
  }

  lemma {:induction false} HoldsMonotone(p: bytes, s: bytes, n: nat)
    requires n <= |s| && Holds(p, s[..n])
    ensures Holds(p, s)
  {
    CStrOfPrefix(s, n);
    OccursMonotone(p, CStr(s), Min(n, |CStr(s)|));
  }

  /** A predicate that, once true of a prefix, stays true of everything longer. */
  ghost predicate Monotone(p: bytes -> bool) {
    forall s: bytes, n: nat | n <= |s| && p(s[..n]) :: p(s)
  }

  /** Length of the shortest prefix of `s` satisfying `p`; |s| + 1 when there is none. */
  function Shortest(p: bytes -> bool, s: bytes): (m: nat)
    ensures m <= |s| + 1
    ensures m <= |s| ==> p(s[..m])
    ensures forall i | 0 <= i < m && i <= |s| :: !p(s[..i])
  {
    assert s[..|s|] == s;
    if s == [] then
      if p(s) then 0 else 1
    else
      var shorter := s[..|s| - 1];
      assert forall i | 0 <= i < |s| :: shorter[..i] == s[..i];
      var m := Shortest(p, shorter);
      if m < |s| then m else if p(s) then |s| else |s| + 1
  }

  lemma {:induction false} ShortestOfPrefix(p: bytes -> bool, s: bytes, n: nat)
    requires n <= |s|
    ensures Shortest(p, s[..n]) == (if Shortest(p, s) <= n then Shortest(p, s) else n + 1)
  {
    assert forall i | 0 <= i <= n :: s[..n][..i] == s[..i];
  }

  lemma {:induction false} ShortestOfMonotone(p: bytes -> bool, s: bytes)
    requires Monotone(p)
    ensures p(s) <==> Shortest(p, s) <= |s|
  {}

  /** The first time a pattern shows up in a growing buffer, it is the buffer's last bytes,
      and no NUL precedes it. */
  lemma {:induction false} FirstHoldIsSuffix(p: bytes, s: bytes)
    requires |p| > 0 && Holds(p, s)
    requires s != [] && !Holds(p, s[..|s| - 1])
    ensures NulFree(s) && |p| <= |s| && s[|s| - |p|..] == p
  {
    var c := CStr(s);
    var i :| 0 <= i <= |c| && MatchAt(p, c, i);
    if i + |p| < |s| {
      var m := Min(|s| - 1, |c|);
      CStrOfPrefix(s, |s| - 1);
      MatchInPrefix(p, c, m, i);
      assert false;
    }
    assert c == s;
  }

  // ----- Chunked streams -----

  /** The stream that arrived as these chunks. */
  function Flatten(chunks: seq<bytes>): bytes {
    if chunks == [] then [] else Flatten(chunks[..|chunks| - 1]) + chunks[|chunks| - 1]
  }

  lemma {:induction false} FlattenConcat(a: seq<bytes>, b: seq<bytes>)
    ensures Flatten(a + b) == Flatten(a) + Flatten(b)
    decreases |b|
  {
    if b == [] {
      assert a + b == a;
    } else {
      var b' := b[..|b| - 1];
      assert (a + b)[..|a + b| - 1] == a + b';
      FlattenConcat(a, b');
    }
  }

  lemma {:induction false} FlattenPrefix(chunks: seq<bytes>, j: nat)
    requires j <= |chunks|
    ensures Flatten(chunks[..j]) <= Flatten(chunks)
  {
    assert chunks == chunks[..j] + chunks[j..];
    FlattenConcat(chunks[..j], chunks[j..]);
  }
}

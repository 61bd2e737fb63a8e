/**
  The polling receiver seen as a function of the bytes it heard.

  It drops every CR, appends the rest to the response buffer and looks for a terminator
  after each append. This module relates that byte-by-byte scan to the whole stream, to
  the interrupt-fed receiver, and to the trimming of the response.
 */
module PollText {
  import opened ByteText
  import IrqVerdict

  const POLL_ERROR: bytes := [10, 69, 82, 82, 79, 82, 10]
  const OK_TEXT: bytes := [79, 75]

  datatype Scan = Listening | FoundOk | FoundError | Full

  function StripCr(s: bytes): (r: bytes)
    ensures |r| <= |s| && CR !in r
  {
    if s == [] then []
    else
      var rest := StripCr(s[..|s| - 1]);
      if s[|s| - 1] == CR then rest else rest + [s[|s| - 1]]
  }

  predicate HoldsOk(text: bytes) {
    Holds(IrqVerdict.LF_OK_LF, text)
  }

  predicate HoldsError(text: bytes) {
    Holds(POLL_ERROR, text)
  }

  /** The state of the scan after every byte heard so far. */
  function PollScan(heard: bytes, responseSize: nat): Scan
    requires responseSize > 0
  {
    if heard == [] then Listening
    else
      var earlier := heard[..|heard| - 1];
      var before := PollScan(earlier, responseSize);
      if before != Listening then before
      else if heard[|heard| - 1] == CR then Listening
      else if |StripCr(earlier)| + 1 >= responseSize then Full
      else if HoldsOk(StripCr(heard)) then FoundOk
      else if HoldsError(StripCr(heard)) then FoundError
      else Listening
  }

  /** The part of the CR-free stream that fits in front of the terminating NUL. */
  function Stored(heard: bytes, responseSize: nat): bytes
    requires responseSize > 0
  {
    IrqVerdict.Held(StripCr(heard), responseSize)
  }

  function OkLength(text: bytes): nat {
    Shortest(HoldsOk, text)
  }

  function ErrorLength(text: bytes): nat {
    Shortest(HoldsError, text)
  }

  lemma {:induction false} HoldsAreMonotone()
    ensures Monotone(HoldsOk) && Monotone(HoldsError)
  {
    forall s: bytes, n: nat | n <= |s| && HoldsOk(s[..n])
      ensures HoldsOk(s)
    {
      HoldsMonotone(IrqVerdict.LF_OK_LF, s, n);
    }
    forall s: bytes, n: nat | n <= |s| && HoldsError(s[..n])
      ensures HoldsError(s)
    {
      HoldsMonotone(POLL_ERROR, s, n);
    }
  }

  /** At the byte where a terminator first shows up it is the end of the text. */
  lemma {:induction false} TerminatorIsSuffix(text: bytes)
    ensures OkLength(text) <= |text| ==>
              var n := OkLength(text);
              4 <= n && NulFree(text[..n]) && text[n - 4..n] == IrqVerdict.LF_OK_LF
    ensures ErrorLength(text) <= |text| ==>
              var n := ErrorLength(text);
              7 <= n && NulFree(text[..n]) && text[n - 7..n] == POLL_ERROR
  {
    NothingHeldAtFirst();
    hide Holds, Shortest;
    assert text[..0] == [];
    var k, e := OkLength(text), ErrorLength(text);
    if k <= |text| {
      assert text[..k][..k - 1] == text[..k - 1];
      FirstHoldIsSuffix(IrqVerdict.LF_OK_LF, text[..k]);
    }
    if e <= |text| {
      assert text[..e][..e - 1] == text[..e - 1];
      FirstHoldIsSuffix(POLL_ERROR, text[..e]);
    }
  }

  lemma {:induction false} TerminatorsNeverTie(text: bytes)
    requires OkLength(text) <= |text| && ErrorLength(text) <= |text|
    ensures OkLength(text) != ErrorLength(text)
  {
    TerminatorIsSuffix(text);
    var k, e := OkLength(text), ErrorLength(text);
    assert text[k - 2] == text[k - 4..k][2] == IrqVerdict.LF_OK_LF[2];
    assert text[e - 2] == text[e - 7..e][5] == POLL_ERROR[5];
  }

  lemma {:induction false} ScanByLengths(text: bytes)
    ensures HoldsOk(text) <==> OkLength(text) <= |text|
    ensures HoldsError(text) <==> ErrorLength(text) <= |text|
  {
    HoldsAreMonotone();
    ShortestOfMonotone(HoldsOk, text);
    ShortestOfMonotone(HoldsError, text);
  }

  /** What one more stored byte does to the two lengths. */
  lemma {:induction false} StoredStep(text: bytes, n: nat)
    requires n <= |text|
    ensures OkLength(text[..n]) == (if OkLength(text) <= n then OkLength(text) else n + 1)
    ensures ErrorLength(text[..n]) == (if ErrorLength(text) <= n then ErrorLength(text) else n + 1)
  {
    ShortestOfPrefix(HoldsOk, text, n);
    ShortestOfPrefix(HoldsError, text, n);
  }

  lemma {:induction false} NothingHeldAtFirst()
    ensures !HoldsOk([]) && !HoldsError([])
  {}

  /**
    The byte-by-byte scan equals a search of the whole stored text: the answer is whichever
    terminator has the shorter shortest prefix, and failing both the buffer is full exactly
    when responseSize or more non-CR bytes arrived.
   */
  lemma {:induction false} PollExact(heard: bytes, responseSize: nat)
    requires responseSize > 0
    ensures var text := Stored(heard, responseSize);
            var k, e := OkLength(text), ErrorLength(text);
            PollScan(heard, responseSize) ==
              if k <= |text| && k < e then FoundOk
              else if e <= |text| then FoundError
              else if |StripCr(heard)| >= responseSize then Full
              else Listening
    decreases |heard|
  {
    hide Shortest;
    var text := Stored(heard, responseSize);
    ScanByLengths(text);
    if heard == [] {
      NothingHeldAtFirst();
    } else {
      var earlier := heard[..|heard| - 1];
      PollExact(earlier, responseSize);
      var text' := Stored(earlier, responseSize);
      assert text' == text[..|text'|];
      StoredStep(text, |text'|);
      if heard[|heard| - 1] != CR && |StripCr(earlier)| + 1 < responseSize {
        assert text == StripCr(heard);
        if OkLength(text) <= |text| && ErrorLength(text) <= |text| {
          TerminatorsNeverTie(text);
        }
      } else {
        assert text == text';
      }
    }
  }

  /** Once decided, the scan ignores whatever follows. */
  lemma {:induction false} ScanLatches(heard: bytes, n: nat, responseSize: nat)
    requires responseSize > 0 && n <= |heard|
    requires PollScan(heard[..n], responseSize) != Listening
    ensures PollScan(heard, responseSize) == PollScan(heard[..n], responseSize)
    decreases |heard|
  {
    if n < |heard| {
      assert heard[..|heard| - 1][..n] == heard[..n];
      ScanLatches(heard[..|heard| - 1], n, responseSize);
    } else {
      assert heard[..n] == heard;
    }
  }

  /** While nothing is decided every non-CR byte is in the buffer. */
  lemma {:induction false} ListeningStoresAll(heard: bytes, responseSize: nat)
    requires responseSize > 0 && PollScan(heard, responseSize) == Listening
    ensures |StripCr(heard)| < responseSize && Stored(heard, responseSize) == StripCr(heard)
    ensures !HoldsOk(StripCr(heard)) && !HoldsError(StripCr(heard))
  {
    PollExact(heard, responseSize);
    ScanByLengths(StripCr(heard));
  }

  /** The scan of one more byte, while nothing is decided. */
  lemma {:induction false} ScanStep(heard: bytes, ch: byte, responseSize: nat)
    requires responseSize > 0 && PollScan(heard, responseSize) == Listening
    ensures var text := StripCr(heard) + (if ch == CR then [] else [ch]);
            && |StripCr(heard)| < responseSize
            && !HoldsOk(StripCr(heard)) && !HoldsError(StripCr(heard))
            && StripCr(heard + [ch]) == text
            && Stored(heard + [ch], responseSize) == (if |text| < responseSize then text else StripCr(heard))
            && PollScan(heard + [ch], responseSize) ==
                 if ch != CR && |text| >= responseSize then Full
                 else if HoldsOk(text) then FoundOk
                 else if HoldsError(text) then FoundError
                 else Listening
  {
    assert (heard + [ch])[..|heard|] == heard;
    ListeningStoresAll(heard, responseSize);
  }

  lemma {:induction false} FirstTerminator(text: bytes)
    requires text != [] && !HoldsOk(text[..|text| - 1]) && !HoldsError(text[..|text| - 1])
    ensures forall n | 0 <= n < |text| :: !HoldsOk(text[..n]) && !HoldsError(text[..n])
    ensures HoldsOk(text) ==>
              4 <= |text| && text[|text| - 4..] == IrqVerdict.LF_OK_LF && NulFree(text) && OkLength(text) == |text|
    ensures HoldsError(text) ==>
              7 <= |text| && text[|text| - 7..] == POLL_ERROR && NulFree(text) && ErrorLength(text) == |text|
  {
    hide Shortest, Holds;
    var n := |text|;
    assert text[..n] == text;
    ScanByLengths(text);
    ScanByLengths(text[..n - 1]);
    StoredStep(text, n - 1);
    TerminatorIsSuffix(text);
    forall m | 0 <= m < n
      ensures !HoldsOk(text[..m]) && !HoldsError(text[..m])
    {
      ScanByLengths(text[..m]);
      StoredStep(text, m);
    }
  }

  /** On a match the buffer is the shortest prefix of the CR-free stream that contains a
      terminator, and it ends with that terminator. */
  lemma {:induction false} MatchStopsAtShortestPrefix(heard: bytes, responseSize: nat)
    requires responseSize > 0 && heard != []
    requires PollScan(heard[..|heard| - 1], responseSize) == Listening
    requires PollScan(heard, responseSize) in {FoundOk, FoundError}
    ensures var text := StripCr(heard);
            && Stored(heard, responseSize) == text && NulFree(text) && text != []
            && (forall n | 0 <= n < |text| :: !HoldsOk(text[..n]) && !HoldsError(text[..n]))
            && (PollScan(heard, responseSize) == FoundOk ==>
                  4 <= |text| && text[|text| - 4..] == IrqVerdict.LF_OK_LF && OkLength(text) == |text|)
            && (PollScan(heard, responseSize) == FoundError ==>
                  7 <= |text| && text[|text| - 7..] == POLL_ERROR && ErrorLength(text) == |text|)
  {
    hide PollScan, StripCr, HoldsOk, HoldsError, OkLength, ErrorLength;
    var earlier, ch := heard[..|heard| - 1], heard[|heard| - 1];
    assert heard == earlier + [ch];
    ScanStep(earlier, ch, responseSize);
    var text := StripCr(heard);
    assert text[..|text| - 1] == StripCr(earlier);
    FirstTerminator(text);
  }

  // ----- The two receivers compared -----

  lemma {:induction false} StripConcat(a: bytes, b: bytes)
    ensures StripCr(a + b) == StripCr(a) + StripCr(b)
    decreases |b|
  {
    if b == [] {
      assert a + b == a;
    } else {
      assert (a + b)[..|a + b| - 1] == a + b[..|b| - 1];
      StripConcat(a, b[..|b| - 1]);
    }
  }

  lemma {:induction false} StripOfPrefix(s: bytes, n: nat)
    requires n <= |s|
    ensures StripCr(s[..n]) <= StripCr(s)
  {
    assert s == s[..n] + s[n..];
    StripConcat(s[..n], s[n..]);
  }

  lemma {:induction false} StripKeepsNul(s: bytes)
    ensures NulFree(s) <==> NulFree(StripCr(s))
    decreases |s|
  {
    if s != [] {
      var init := s[..|s| - 1];
      assert s == init + [s[|s| - 1]];
      StripKeepsNul(init);
    }
  }

  lemma {:induction false} StripOfTerminated(c: bytes, rest: bytes)
    requires NulFree(c) && (rest != [] ==> rest[0] == NUL)
    ensures CStr(StripCr(c + rest)) == StripCr(c)
  {
    StripKeepsNul(c);
    StripConcat(c, rest);
    var kept := StripCr(c);
    if rest != [] {
      assert rest == [NUL] + rest[1..];
      StripConcat([NUL], rest[1..]);
      assert [NUL][..0] == [];
    }
    hide StripCr;
    assert (kept + StripCr(rest))[..|kept|] == kept;
    CStrUnique(kept + StripCr(rest), |kept|);
  }

  /** Dropping CR commutes with taking the C string. */
  lemma {:induction false} StripOfCStr(s: bytes)
    ensures CStr(StripCr(s)) == StripCr(CStr(s))
  {
    hide StripCr;
    var c := CStr(s);
    hide CStr;
    assert s == c + s[|c|..];
    StripOfTerminated(c, s[|c|..]);
  }

  lemma {:induction false} StripOfOccurrence(p: bytes, s: bytes)
    requires Occurs(p, s)
    ensures Occurs(StripCr(p), StripCr(s))
  {
    var i :| 0 <= i <= |s| && MatchAt(p, s, i);
    var a, b := s[..i], s[i + |p|..];
    assert s == a + p + b;
    StripConcat(a + p, b);
    StripConcat(a, p);
    assert MatchAt(StripCr(p), StripCr(s), |StripCr(a)|);
  }

  lemma {:induction false} StripOfOkPatterns()
    ensures StripCr(IrqVerdict.CRLF_OK_CRLF) == IrqVerdict.LF_OK_LF
    ensures StripCr(IrqVerdict.LF_OK_CRLF) == IrqVerdict.LF_OK_LF
    ensures StripCr(IrqVerdict.LF_OK_LF) == IrqVerdict.LF_OK_LF
  {
    assert IrqVerdict.CRLF_OK_CRLF == [13, 10, 79] + [75, 13, 10];
    assert IrqVerdict.LF_OK_CRLF == [10, 79, 75] + [13, 10];
    assert IrqVerdict.LF_OK_LF == [10, 79] + [75, 10];
    StripConcat([13, 10, 79], [75, 13, 10]);
    StripConcat([10, 79, 75], [13, 10]);
    StripConcat([10, 79], [75, 10]);
    Strip3(13, 10, 79);
    Strip3(75, 13, 10);
    Strip3(10, 79, 75);
    Strip2(13, 10);
    Strip2(10, 79);
    Strip2(75, 10);
    Strip2(75, 13);
  }

  lemma {:induction false} Strip2(a: byte, b: byte)
    ensures StripCr([a, b]) == (if a == CR then [] else [a]) + (if b == CR then [] else [b])
  {}

  lemma {:induction false} Strip3(a: byte, b: byte, c: byte)
    ensures StripCr([a, b, c]) == StripCr([a, b]) + (if c == CR then [] else [c])
  {
    assert [a, b, c][..2] == [a, b];
  }

  /** A buffer in which the interrupt receiver sees OK still shows "\nOK\n" without its CRs. */
  lemma {:induction false} OkSurvivesStripping(buffer: bytes)
    requires IrqVerdict.SeesOk(buffer)
    ensures HoldsOk(StripCr(buffer))
  {
    StripOfOkPatterns();
    StripOfCStr(buffer);
    var c := CStr(buffer);
    if Occurs(IrqVerdict.CRLF_OK_CRLF, c) {
      StripOfOccurrence(IrqVerdict.CRLF_OK_CRLF, c);
    } else if Occurs(IrqVerdict.LF_OK_CRLF, c) {
      StripOfOccurrence(IrqVerdict.LF_OK_CRLF, c);
    } else {
      StripOfOccurrence(IrqVerdict.LF_OK_LF, c);
    }
  }

  /**
    When the interrupt receiver answers 0 on some cutting of a stream, the polling receiver
    hearing the same stream never overflows, always finds a terminator, and finds OK exactly
    when "\nERROR\n" does not complete earlier in the CR-free stream.
   */
  lemma {:induction false} ReceiversAgree(chunks: seq<bytes>, responseSize: nat)
    requires responseSize > 0
    requires IrqVerdict.RunVerdict(chunks, responseSize) == IrqVerdict.Success
    ensures var stream := Flatten(chunks);
            var text := StripCr(stream);
            && OkLength(text) < responseSize && OkLength(text) <= |text|
            && PollScan(stream, responseSize) ==
                 if ErrorLength(text) < OkLength(text) then FoundError else FoundOk
  {
    var stream := Flatten(chunks);
    var text := StripCr(stream);
    var held := IrqVerdict.Held(stream, responseSize);
    IrqVerdict.VerdictExact(chunks, responseSize);
    IrqVerdict.JudgeByLengths(held);
    OkSurvivesStripping(held);
    StripOfPrefix(stream, |held|);
    var kept := StripCr(held);
    assert text[..|kept|] == kept;
    ScanByLengths(kept);
    StoredStep(text, |kept|);
    var stored := Stored(stream, responseSize);
    StoredStep(text, |stored|);
    PollExact(stream, responseSize);
    if ErrorLength(text) <= |text| {
      TerminatorsNeverTie(text);
    }
  }

  /** The usual case: no "\nERROR\n" anywhere in the CR-free stream. */
  lemma {:induction false} ReceiversAgreeOnSuccess(chunks: seq<bytes>, responseSize: nat)
    requires responseSize > 0
    requires IrqVerdict.RunVerdict(chunks, responseSize) == IrqVerdict.Success
    requires !HoldsError(StripCr(Flatten(chunks)))
    ensures PollScan(Flatten(chunks), responseSize) == FoundOk
  {
    ReceiversAgree(chunks, responseSize);
    ScanByLengths(StripCr(Flatten(chunks)));
  }

  /**
    Exactly the streams on which the receivers can disagree although the interrupt receiver
    answers 0: those that some cutting into 1 to 64 bytes makes a success, because an OK pattern
    completes in the bytes held and no 64 bytes or more after "ERROR", and in which "\nERROR\n"
    completes before "\nOK\n" once CRs are dropped.
   */
  lemma {:induction false} DisagreementExactly(stream: bytes, responseSize: nat)
    requires responseSize > 0
    ensures var held, text := IrqVerdict.Held(stream, responseSize), StripCr(stream);
            (exists chunks ::
               && IrqVerdict.Chunking(chunks, stream)
               && IrqVerdict.RunVerdict(chunks, responseSize) == IrqVerdict.Success
               && PollScan(stream, responseSize) != FoundOk)
              <==> IrqVerdict.FirstOk(held) <= |held|
                   && IrqVerdict.FirstOk(held) < IrqVerdict.FirstError(held) + IrqVerdict.CHUNK_SIZE
                   && ErrorLength(text) < OkLength(text)
  {
    hide IrqVerdict.RunVerdict, IrqVerdict.FirstOk, IrqVerdict.FirstError, IrqVerdict.Held;
    hide PollScan, StripCr, OkLength, ErrorLength;
    IrqVerdict.PossibleVerdicts(stream, responseSize);
    forall chunks | IrqVerdict.Chunking(chunks, stream)
                    && IrqVerdict.RunVerdict(chunks, responseSize) == IrqVerdict.Success
      ensures PollScan(stream, responseSize) == FoundOk
                || ErrorLength(StripCr(stream)) < OkLength(StripCr(stream))
      ensures PollScan(stream, responseSize) != FoundOk
                || ErrorLength(StripCr(stream)) >= OkLength(StripCr(stream))
    {
      ReceiversAgree(chunks, responseSize);
    }
  }

  lemma {:induction false} NothingToStrip(s: bytes)
    requires CR !in s
    ensures StripCr(s) == s
    decreases |s|
  {
    if s != [] {
      var init := s[..|s| - 1];
      assert s == init + [s[|s| - 1]];
      NothingToStrip(init);
    }
  }

  lemma {:induction false} ErrorBeforeOk(s: bytes, n: nat)
    requires n <= |s| && HoldsError(s[..n]) && !HoldsOk(s[..n])
    ensures ErrorLength(s) < OkLength(s)
  {
    hide HoldsOk, HoldsError, Shortest;
    ScanByLengths(s[..n]);
    StoredStep(s, n);
  }

  lemma {:induction false} PollErrorIsNotOk()
    ensures HoldsError(POLL_ERROR) && !HoldsOk(POLL_ERROR)
  {
    CStrOfNulFree(POLL_ERROR);
    assert MatchAt(POLL_ERROR, POLL_ERROR, 0);
    hide Occurs, CStr;
    if Occurs(IrqVerdict.LF_OK_LF, POLL_ERROR) {
      OccurrenceBrings(IrqVerdict.LF_OK_LF, POLL_ERROR, 75);
    }
  }

  /** A whole short stream in one chunk. */
  lemma {:induction false} OneChunk(stream: bytes, responseSize: nat)
    requires |stream| < responseSize && IrqVerdict.SeesOk(stream)
    requires ErrorLength(StripCr(stream)) < OkLength(StripCr(stream))
    ensures Flatten([stream]) == stream
    ensures IrqVerdict.RunVerdict([stream], responseSize) == IrqVerdict.Success
    ensures PollScan(stream, responseSize) == FoundError
  {
    hide ErrorLength, OkLength, StripCr, PollScan, IrqVerdict.SeesOk;
    assert [stream][..0] == [];
    assert Flatten([stream]) == [] + stream == stream;
    assert IrqVerdict.Held(stream, responseSize) == stream;
    assert IrqVerdict.RunVerdict([], responseSize) == IrqVerdict.Pending;
    ReceiversAgree([stream], responseSize);
  }

  /** Such a stream, and a cutting that shows it: "\nERROR\n\nOK\n" in one chunk. The
      interrupt receiver answers 0, the polling receiver matches ERROR. */
  lemma {:induction false} DisagreementExample()
    ensures var stream := POLL_ERROR + IrqVerdict.LF_OK_LF;
            && IrqVerdict.Chunking([stream], stream)
            && IrqVerdict.RunVerdict([stream], 256) == IrqVerdict.Success
            && PollScan(stream, 256) == FoundError
  {
    hide ErrorLength, OkLength, StripCr, PollScan, HoldsOk, HoldsError;
    hide IrqVerdict.RunVerdict, IrqVerdict.SeesOk, Flatten;
    var stream := POLL_ERROR + IrqVerdict.LF_OK_LF;
    assert stream[..7] == POLL_ERROR;
    PollErrorIsNotOk();
    ErrorBeforeOk(stream, 7);
    NothingToStrip(stream);
    IrqVerdict.SeesAtEnd(POLL_ERROR);
    OneChunk(stream, 256);
  }

  // ----- Trimming -----

  predicate Blank(b: byte) {
    b == LF || b == SPACE
  }

  predicate AllBlank(s: bytes) {
    forall b | b in s :: Blank(b)
  }

  function TrimTrailing(s: bytes): (r: bytes)
    ensures r <= s && AllBlank(s[|r|..])
    ensures r != [] ==> !Blank(r[|r| - 1])
  {
    if s == [] || !Blank(s[|s| - 1]) then s
    else
      var r := TrimTrailing(s[..|s| - 1]);
      assert s[|r|..] == s[..|s| - 1][|r|..] + [s[|s| - 1]];
      r
  }

  function TrimLeading(s: bytes): (r: bytes)
    ensures |r| <= |s| && r == s[|s| - |r|..] && AllBlank(s[..|s| - |r|])
    ensures r != [] ==> !Blank(r[0])
  {
    if s == [] || !Blank(s[0]) then s
    else
      var r := TrimLeading(s[1..]);
      assert s[..|s| - |r|] == [s[0]] + s[1..][..|s| - 1 - |r|];
      r
  }

  /** What the response buffer reads as after both trimming loops. */
  function Trimmed(text: bytes): bytes {
    TrimLeading(CStr(TrimTrailing(text)))
  }

  lemma {:induction false} TrimTrailingUnique(r: bytes, blanks: bytes)
    requires (r != [] ==> !Blank(r[|r| - 1])) && AllBlank(blanks)
    ensures TrimTrailing(r + blanks) == r
    decreases |blanks|
  {
    var s := r + blanks;
    if blanks == [] {
      assert s == r;
    } else {
      assert blanks[|blanks| - 1] in blanks;
      assert s[..|s| - 1] == r + blanks[..|blanks| - 1];
      TrimTrailingUnique(r, blanks[..|blanks| - 1]);
    }
  }

  lemma {:induction false} TrimLeadingUnique(blanks: bytes, r: bytes)
    requires (r != [] ==> !Blank(r[0])) && AllBlank(blanks)
    ensures TrimLeading(blanks + r) == r
    decreases |blanks|
  {
    var s := blanks + r;
    if blanks == [] {
      assert s == r;
    } else {
      assert blanks[0] in blanks;
      assert s[1..] == blanks[1..] + r;
      TrimLeadingUnique(blanks[1..], r);
    }
  }

  /** On NUL-free text trimming is the functional trim of the blanks at both ends. */
  lemma {:induction false} TrimmedIsTheMiddle(before: bytes, middle: bytes, after: bytes)
    requires AllBlank(before) && AllBlank(after) && NulFree(middle)
    requires middle != [] ==> !Blank(middle[0]) && !Blank(middle[|middle| - 1])
    ensures Trimmed(before + middle + after) == middle
  {
    if middle == [] {
      assert before + middle + after == [] + (before + after);
      TrimTrailingUnique([], before + after);
    } else {
      assert AllBlank(before);
      assert (before + middle)[|before + middle| - 1] == middle[|middle| - 1];
      TrimTrailingUnique(before + middle, after);
      assert NulFree(before + middle);
      CStrOfNulFree(before + middle);
      TrimLeadingUnique(before, middle);
    }
  }

  lemma {:induction false} SplitsAround(text: bytes, front: bytes, r: bytes)
    requires front <= text && |r| <= |front| && r == front[|front| - |r|..]
    ensures text[..|front| - |r|] == front[..|front| - |r|]
    ensures text == text[..|front| - |r|] + r + text[|front|..]
    ensures r != [] ==> r[|r| - 1] == front[|front| - 1]
    ensures NulFree(text) ==> NulFree(front)
  {}

  /** Every NUL-free text splits into blanks, its trimmed middle, and blanks. */
  lemma {:induction false} TrimmedSplits(text: bytes)
    requires NulFree(text)
    ensures var r := Trimmed(text);
            var j := |TrimTrailing(text)|;
            && |r| <= j <= |text| && text == text[..j - |r|] + r + text[j..]
            && AllBlank(text[..j - |r|]) && AllBlank(text[j..])
            && NulFree(r) && (r != [] ==> !Blank(r[0]) && !Blank(r[|r| - 1]))
  {
    hide TrimTrailing, TrimLeading, CStr, Blank;
    var front := TrimTrailing(text);
    SplitsAround(text, front, []);
    CStrOfNulFree(front);
    var r := TrimLeading(front);
    SplitsAround(text, front, r);
  }

  /** Trimming again removes nothing. */
  lemma {:induction false} TrimmingIsIdempotent(text: bytes)
    requires NulFree(text)
    ensures Trimmed(Trimmed(text)) == Trimmed(text)
  {
    hide Trimmed;
    TrimmedSplits(text);
    var r := Trimmed(text);
    assert [] + r + [] == r;
    TrimmedIsTheMiddle([], r, []);
  }

  /** Trimming keeps a word that a line feed ends and a blank does not start. */
  lemma {:induction false} WordSurvivesTrimming(start: bytes, word: bytes)
    requires NulFree(start) && NulFree(word)
    requires word != [] && !Blank(word[0]) && !Blank(word[|word| - 1])
    ensures Trimmed(start + word + [LF]) == TrimLeading(start) + word
  {
    var lead := TrimLeading(start);
    var blanks := start[..|start| - |lead|];
    WordIsMiddle(start, lead, blanks, word);
  }

  lemma {:induction false} WordIsMiddle(start: bytes, lead: bytes, blanks: bytes, word: bytes)
    requires start == blanks + lead && AllBlank(blanks) && NulFree(start) && NulFree(word)
    requires lead != [] ==> !Blank(lead[0])
    requires word != [] && !Blank(word[0]) && !Blank(word[|word| - 1])
    ensures Trimmed(start + word + [LF]) == lead + word
  {
    assert forall b | b in lead :: b in start;
    assert start + word + [LF] == blanks + (lead + word) + [LF];
    TrimmedIsTheMiddle(blanks, lead + word, [LF]);
  }

  /** A framed word at the end of the text becomes the end of the trimmed text. */
  lemma {:induction false} TrimmedEnd(text: bytes, word: bytes)
    requires NulFree(text) && |word| + 2 <= |text|
    requires text[|text| - |word| - 2..] == [LF] + word + [LF]
    requires word != [] && !Blank(word[0]) && !Blank(word[|word| - 1])
    ensures var r := Trimmed(text); |word| <= |r| && r[|r| - |word|..] == word
  {
    var at := |text| - |word| - 1;
    var tail := text[at - 1..];
    assert text[at..] == tail[1..] == word + [LF];
    assert forall b | b in word :: b in text[at..];
    assert text == text[..at] + word + [LF];
    WordSurvivesTrimming(text[..at], word);
  }

  lemma {:induction false} OkTextTrims(text: bytes)
    requires NulFree(text) && 4 <= |text| && text[|text| - 4..] == IrqVerdict.LF_OK_LF
    ensures var r := Trimmed(text); 2 <= |r| && r[|r| - 2..] == OK_TEXT
  {
    assert IrqVerdict.LF_OK_LF == [LF] + OK_TEXT + [LF];
    TrimmedEnd(text, OK_TEXT);
  }

  lemma {:induction false} ErrorTextTrims(text: bytes)
    requires NulFree(text) && 7 <= |text| && text[|text| - 7..] == POLL_ERROR
    ensures var r := Trimmed(text); 5 <= |r| && r[|r| - 5..] == IrqVerdict.ERROR
  {
    assert POLL_ERROR == [LF] + IrqVerdict.ERROR + [LF];
    TrimmedEnd(text, IrqVerdict.ERROR);
  }

  /** A matched response reads as text ending in "OK" or "ERROR", as the exit reason says. */
  lemma {:induction false} MatchedResponseEnds(heard: bytes, responseSize: nat)
    requires responseSize > 0 && heard != []
    requires PollScan(heard[..|heard| - 1], responseSize) == Listening
    requires PollScan(heard, responseSize) in {FoundOk, FoundError}
    ensures var r := Trimmed(StripCr(heard));
            if PollScan(heard, responseSize) == FoundOk
            then 2 <= |r| && r[|r| - 2..] == [79, 75]
            else 5 <= |r| && r[|r| - 5..] == [69, 82, 82, 79, 82]
  {
    MatchStopsAtShortestPrefix(heard, responseSize);
    if PollScan(heard, responseSize) == FoundOk {
      OkTextTrims(StripCr(heard));
    } else {
      ErrorTextTrims(StripCr(heard));
    }
  }

  // ----- The scan and the trimming in so many bytes -----

  /** A line "OK": 10, 79, 75, 10. */
  predicate OkLineAt(s: bytes, i: int) {
    0 <= i && i + 4 <= |s| && s[i] == 10 && s[i + 1] == 79 && s[i + 2] == 75 && s[i + 3] == 10
  }

  /** A line "ERROR": 10, 69, 82, 82, 79, 82, 10. */
  predicate ErrorLineAt(s: bytes, i: int) {
    && 0 <= i && i + 7 <= |s| && s[i] == 10 && s[i + 1] == 69 && s[i + 2] == 82 && s[i + 3] == 82
    && s[i + 4] == 79 && s[i + 5] == 82 && s[i + 6] == 10
  }

  lemma {:induction false} OkLineIsMeant(s: bytes, i: int)
    ensures OkLineAt(s, i) <==> MatchAt(IrqVerdict.LF_OK_LF, s, i)
  {
    if 0 <= i && i + 4 <= |s| {
      assert s[i..i + 4] == [s[i], s[i + 1], s[i + 2], s[i + 3]];
    }
  }

  lemma {:induction false} ErrorLineIsMeant(s: bytes, i: int)
    ensures ErrorLineAt(s, i) <==> MatchAt(POLL_ERROR, s, i)
  {
    if 0 <= i && i + 7 <= |s| {
      assert s[i..i + 7] == [s[i], s[i + 1], s[i + 2], s[i + 3], s[i + 4], s[i + 5], s[i + 6]];
    }
  }

  lemma {:induction false} HoldsIsMeant(s: bytes, n: nat)
    requires NulFree(s) && n <= |s|
    ensures HoldsOk(s[..n]) <==> exists i :: OkLineAt(s, i) && i + 4 <= n
    ensures HoldsError(s[..n]) <==> exists i :: ErrorLineAt(s, i) && i + 7 <= n
  {
    assert NulFree(s[..n]);
    CStrOfNulFree(s[..n]);
    hide CStr, MatchAt, OkLineAt, ErrorLineAt;
    forall i
      ensures MatchAt(IrqVerdict.LF_OK_LF, s[..n], i) <==> OkLineAt(s, i) && i + 4 <= n
      ensures MatchAt(POLL_ERROR, s[..n], i) <==> ErrorLineAt(s, i) && i + 7 <= n
    {
      OkLineIsMeant(s, i);
      ErrorLineIsMeant(s, i);
      MatchInPrefix(IrqVerdict.LF_OK_LF, s, n, i);
      MatchInPrefix(POLL_ERROR, s, n, i);
    }
    if i :| OkLineAt(s, i) && i + 4 <= n {
      assert 0 <= i by { InText(s, i); }
      assert MatchAt(IrqVerdict.LF_OK_LF, s[..n], i);
    }
    if i :| ErrorLineAt(s, i) && i + 7 <= n {
      assert 0 <= i by { InText(s, i); }
      assert MatchAt(POLL_ERROR, s[..n], i);
    }
  }

  lemma {:induction false} InText(s: bytes, i: int)
    ensures OkLineAt(s, i) || ErrorLineAt(s, i) ==> 0 <= i < |s|
  {}

  /** The shortest prefixes with a terminator, told by where lines end. */
  lemma {:induction false} LengthsAreMeant(s: bytes)
    requires NulFree(s)
    ensures OkLength(s) <= |s| <==> exists i :: OkLineAt(s, i)
    ensures ErrorLength(s) <= |s| <==> exists i :: ErrorLineAt(s, i)
    ensures OkLength(s) <= |s| ==>
              OkLineAt(s, OkLength(s) - 4) && forall i :: OkLineAt(s, i) ==> OkLength(s) <= i + 4
    ensures ErrorLength(s) <= |s| ==>
              ErrorLineAt(s, ErrorLength(s) - 7) && forall i :: ErrorLineAt(s, i) ==> ErrorLength(s) <= i + 7
  {
    hide OkLineAt, ErrorLineAt, HoldsOk, HoldsError, Shortest;
    assert s[..|s|] == s;
    ScanByLengths(s);
    HoldsIsMeant(s, |s|);
    forall i
      ensures OkLineAt(s, i) ==> i + 4 <= |s| && OkLength(s) <= i + 4
      ensures ErrorLineAt(s, i) ==> i + 7 <= |s| && ErrorLength(s) <= i + 7
    {
      LineFits(s, i);
      if OkLineAt(s, i) {
        HoldsIsMeant(s, i + 4);
      }
      if ErrorLineAt(s, i) {
        HoldsIsMeant(s, i + 7);
      }
    }
    if OkLength(s) <= |s| {
      HoldsIsMeant(s, OkLength(s));
    }
    if ErrorLength(s) <= |s| {
      HoldsIsMeant(s, ErrorLength(s));
    }
  }

  lemma {:induction false} LineFits(s: bytes, i: int)
    ensures OkLineAt(s, i) ==> 0 <= i && i + 4 <= |s|
    ensures ErrorLineAt(s, i) ==> 0 <= i && i + 7 <= |s|
  {}

  /** Some "OK" line is complete before every "ERROR" line. */
  ghost predicate OkLineFirst(s: bytes) {
    exists i :: OkLineAt(s, i) && forall j :: ErrorLineAt(s, j) ==> i + 4 < j + 7
  }

  /** Some "ERROR" line is complete before every "OK" line. */
  ghost predicate ErrorLineFirst(s: bytes) {
    exists j :: ErrorLineAt(s, j) && forall i :: OkLineAt(s, i) ==> j + 7 < i + 4
  }

  lemma {:induction false} FirstIsMeant(s: bytes)
    requires NulFree(s)
    ensures OkLength(s) <= |s| && OkLength(s) < ErrorLength(s) <==> OkLineFirst(s)
    ensures ErrorLength(s) <= |s| && ErrorLength(s) < OkLength(s) <==> ErrorLineFirst(s)
  {
    LengthsAreMeant(s);
    hide OkLineAt, ErrorLineAt;
    var k, e := OkLength(s), ErrorLength(s);
    hide OkLength, ErrorLength;
    if k <= |s| && k < e {
      assert OkLineAt(s, k - 4) && forall j :: ErrorLineAt(s, j) ==> k - 4 + 4 < j + 7;
    }
    if e <= |s| && e < k {
      assert ErrorLineAt(s, e - 7) && forall i :: OkLineAt(s, i) ==> e - 7 + 7 < i + 4;
    }
  }

  /**
    The outcome of the scan of a NUL-free stream, in so many bytes: of the stream without its
    13s, cut to responseSize - 1 bytes, the line "OK" or "ERROR" that is complete first decides;
    failing both the buffer is full exactly when responseSize or more bytes but 13s arrived.
   */
  lemma {:induction false} ScanInBytes(heard: bytes, responseSize: nat)
    requires responseSize > 0 && NulFree(heard)
    ensures var all := StripCr(heard);
            var text := if |all| < responseSize then all else all[..responseSize - 1];
            && (PollScan(heard, responseSize) == FoundOk <==> OkLineFirst(text))
            && (PollScan(heard, responseSize) == FoundError <==> ErrorLineFirst(text))
            && (PollScan(heard, responseSize) == Full <==>
                  (forall i :: !OkLineAt(text, i) && !ErrorLineAt(text, i)) && |all| >= responseSize)
  {
    hide OkLineAt, ErrorLineAt, OkLineFirst, ErrorLineFirst, PollScan, OkLength, ErrorLength, StripCr;
    StripKeepsNul(heard);
    var all := StripCr(heard);
    var text := Stored(heard, responseSize);
    assert text == if |all| < responseSize then all else all[..responseSize - 1];
    assert NulFree(text);
    PollExact(heard, responseSize);
    LengthsAreMeant(text);
    FirstIsMeant(text);
    if OkLength(text) <= |text| && ErrorLength(text) <= |text| {
      TerminatorsNeverTie(text);
    }
  }

  /** The stream without its 13s. */
  lemma {:induction false} StripInBytes(s: bytes, b: byte)
    ensures StripCr([]) == [] && StripCr(s + [b]) == StripCr(s) + (if b == 13 then [] else [b])
  {
    assert (s + [b])[..|s|] == s;
  }

  /** Trimming takes line feeds (10) and spaces (32) off both ends, and nothing else. */
  lemma {:induction false} TrimmedInBytes(before: bytes, middle: bytes, after: bytes)
    requires forall b | b in before || b in after :: b == 10 || b == 32
    requires NulFree(middle)
    requires middle != [] ==> middle[0] !in {10, 32} && middle[|middle| - 1] !in {10, 32}
    ensures Trimmed(before + middle + after) == middle
  {
    TrimmedIsTheMiddle(before, middle, after);
  }
}

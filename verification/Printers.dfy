/**
  The two ways the passthrough shows received bytes: a hex trace line per chunk, and text with
  unprintable bytes escaped. Both go through fixed buffers; neither may lose anything.
 */
module Printers {
  import opened ByteText
  import RxMachine

  const TRACE_SIZE: nat := RxMachine.CHUNK_SIZE * 3 + 1
  const LINE_SIZE: nat := TRACE_SIZE + 32
  const TEXT_SIZE: nat := RxMachine.CHUNK_SIZE * 4 + 1

  const OPEN: byte := 60   // '<'
  const CLOSE: byte := 62  // '>'
  const LINE_HEAD: bytes := [13, 10, 91, 109, 111, 100, 101, 109, 32, 114, 120, 32] // "\r\n[modem rx "
  const LINE_MID: bytes := [93, 32] // "] "
  const LINE_TAIL: bytes := [13, 10]

  // ----- Formats -----

  function HexDigit(n: nat): byte
    requires n < 16
  {
    if n < 10 then 48 + n else 55 + n
  }

  predicate IsHexDigit(c: byte) {
    48 <= c <= 57 || 65 <= c <= 70
  }

  function HexValue(c: byte): (n: nat)
    requires IsHexDigit(c)
    ensures n < 16
  {
    if c <= 57 then c - 48 else c - 55
  }

  function Hex2(b: byte): bytes {
    [HexDigit(b / 16), HexDigit(b % 16)]
  }

  predicate IsDigit(c: byte) {
    48 <= c <= 57
  }

  predicate AllDigits(s: bytes) {
    forall i | 0 <= i < |s| :: IsDigit(s[i])
  }

  function Decimal(n: nat): (r: bytes)
    ensures r != [] && AllDigits(r)
  {
    if n < 10 then [48 + n] else Decimal(n / 10) + [48 + n % 10]
  }

  /** The bytes from index `i` on, as "%02X" groups separated by single spaces. */
  function TraceFrom(data: bytes, i: nat): (r: bytes)
    requires i <= |data|
    ensures |r| == if i == |data| then 0 else 3 * (|data| - i) - 1
    decreases |data| - i
  {
    if i == |data| then []
    else Hex2(data[i]) + (if i + 1 < |data| then [SPACE] else []) + TraceFrom(data, i + 1)
  }

  function TraceLine(data: bytes): bytes {
    LINE_HEAD + Decimal(|data|) + LINE_MID + TraceFrom(data, 0) + LINE_TAIL
  }

  predicate Plain(b: byte) {
    b == CR || b == LF || b == TAB || 0x20 <= b <= 0x7e
  }

  function Escaped(b: byte): bytes {
    [OPEN] + Hex2(b) + [CLOSE]
  }

  function RenderByte(b: byte): bytes {
    if Plain(b) then [b] else Escaped(b)
  }

  function Render(data: bytes): bytes {
    if data == [] then [] else RenderByte(data[0]) + Render(data[1..])
  }

  // ----- Reading the trace line back -----

  function ParseDecimal(s: bytes): nat
    requires AllDigits(s)
  {
    if s == [] then 0 else ParseDecimal(s[..|s| - 1]) * 10 + (s[|s| - 1] as int - 48)
  }

  function DigitCount(s: bytes): (n: nat)
    ensures n <= |s| && AllDigits(s[..n])
  {
    if s == [] || !IsDigit(s[0]) then 0
    else
      var n := DigitCount(s[1..]);
      assert s[..1 + n] == [s[0]] + s[1..][..n];
      1 + n
  }

  function ParseHex(s: bytes): Option<bytes> {
    if s == [] then Some([])
    else if |s| < 2 || !IsHexDigit(s[0]) || !IsHexDigit(s[1]) then None
    else
      var b := HexValue(s[0]) * 16 + HexValue(s[1]);
      if |s| == 2 then Some([b])
      else if s[2] != SPACE || |s| == 3 then None
      else match ParseHex(s[3..])
           case None => None
           case Some(rest) => Some([b] + rest)
  }

  datatype Trace = Trace(length: nat, data: bytes)

  function ParseTraceLine(line: bytes): Option<Trace> {
    if !(LINE_HEAD <= line) || |line| < |LINE_HEAD| + |LINE_TAIL|
       || line[|line| - |LINE_TAIL|..] != LINE_TAIL then None
    else
      var body := line[|LINE_HEAD|..|line| - |LINE_TAIL|];
      var n := DigitCount(body);
      if n == 0 || !(LINE_MID <= body[n..]) then None
      else match ParseHex(body[n + |LINE_MID|..])
           case None => None
           case Some(data) => Some(Trace(ParseDecimal(body[..n]), data))
  }

  lemma {:induction false} HexRoundTrip(b: byte)
    ensures IsHexDigit(Hex2(b)[0]) && IsHexDigit(Hex2(b)[1])
    ensures HexValue(Hex2(b)[0]) * 16 + HexValue(Hex2(b)[1]) == b
  {}

  lemma {:induction false} DecimalRoundTrip(n: nat)
    ensures ParseDecimal(Decimal(n)) == n
    decreases n
  {
    if n >= 10 {
      DecimalRoundTrip(n / 10);
      assert Decimal(n)[..|Decimal(n)| - 1] == Decimal(n / 10);
    }
  }

  lemma {:induction false} DigitCountStep(s: bytes)
    ensures DigitCount(s) == if s == [] || !IsDigit(s[0]) then 0 else 1 + DigitCount(s[1..])
  {}

  lemma {:induction false} DigitsStop(digits: bytes, rest: bytes)
    requires AllDigits(digits) && rest != [] && !IsDigit(rest[0])
    ensures DigitCount(digits + rest) == |digits|
    decreases |digits|
  {
    hide DigitCount, IsDigit;
    DigitCountStep(digits + rest);
    if digits == [] {
      assert digits + rest == rest;
    } else {
      assert (digits + rest)[1..] == digits[1..] + rest;
      DigitsStop(digits[1..], rest);
    }
  }

  lemma {:induction false} TraceRoundTrip(data: bytes, i: nat)
    requires i <= |data|
    ensures ParseHex(TraceFrom(data, i)) == Some(data[i..])
    decreases |data| - i
  {
    if i < |data| {
      HexRoundTrip(data[i]);
      var text, rest := TraceFrom(data, i), TraceFrom(data, i + 1);
      TraceRoundTrip(data, i + 1);
      assert text[0] == Hex2(data[i])[0] && text[1] == Hex2(data[i])[1];
      assert data[i..] == [data[i]] + data[i + 1..];
      if i + 1 < |data| {
        assert text[2] == SPACE && text[3..] == rest;
      } else {
        assert data[i..] == [data[i]];
      }
    } else {
      assert data[i..] == [];
    }
  }

  /** A reader of the trace line gets back the length and every byte. */
  lemma {:induction false} TraceLineRoundTrip(data: bytes)
    ensures ParseTraceLine(TraceLine(data)) == Some(Trace(|data|, data))
  {
    var digits, text := Decimal(|data|), TraceFrom(data, 0);
    var line, body := TraceLine(data), digits + LINE_MID + text;
    assert line == LINE_HEAD + body + LINE_TAIL;
    assert line[|LINE_HEAD|..|line| - |LINE_TAIL|] == body;
    DecimalRoundTrip(|data|);
    assert body == digits + (LINE_MID + text);
    DigitsStop(digits, LINE_MID + text);
    assert body[|digits|..] == LINE_MID + text;
    assert body[|digits| + |LINE_MID|..] == text;
    TraceRoundTrip(data, 0);
  }

  /** What a whole debug session shows: one trace line per chunk. */
  function TraceAll(chunks: seq<bytes>): bytes {
    if chunks == [] then [] else TraceAll(chunks[..|chunks| - 1]) + TraceLine(chunks[|chunks| - 1])
  }

  lemma {:induction false} TraceAllFront(chunks: seq<bytes>)
    requires chunks != []
    ensures TraceAll(chunks) == TraceLine(chunks[0]) + TraceAll(chunks[1..])
    decreases |chunks|
  {
    hide TraceLine;
    var n := |chunks| - 1;
    if n == 0 {
      assert chunks[..0] == chunks[1..] == [];
    } else {
      TraceAllFront(chunks[..n]);
      assert chunks[..n][1..] == chunks[1..][..n - 1];
    }
  }

  lemma {:induction false} LengthInLine(data: bytes, rest: bytes)
    ensures var s := TraceLine(data) + rest;
            && |LINE_HEAD| <= |s| && |TraceLine(data)| <= |s|
            && var body := s[|LINE_HEAD|..];
            && var n := DigitCount(body);
            && ParseDecimal(body[..n]) == |data|
            && |TraceLine(data)| == |LINE_HEAD| + n + |LINE_MID| + |TraceFrom(data, 0)| + |LINE_TAIL|
  {
    var digits := Decimal(|data|);
    var after := LINE_MID + (TraceFrom(data, 0) + LINE_TAIL + rest);
    DecimalRoundTrip(|data|);
    DigitsStop(digits, after);
    hide Decimal, TraceFrom, DigitCount, ParseDecimal;
    var body := (TraceLine(data) + rest)[|LINE_HEAD|..];
    assert body == digits + after;
    assert body[..|digits|] == digits;
  }

  /** A line says where it ends: no line is a prefix of what another one starts. */
  lemma {:induction false} LinesArePrefixFree(a: bytes, b: bytes, s: bytes, t: bytes)
    requires TraceLine(a) + s == TraceLine(b) + t
    ensures a == b && s == t
  {
    LengthInLine(a, s);
    LengthInLine(b, t);
    TraceLineRoundTrip(a);
    TraceLineRoundTrip(b);
    hide TraceLine, ParseTraceLine, DigitCount, ParseDecimal;
    var n := |TraceLine(a)|;
    assert |TraceFrom(a, 0)| == |TraceFrom(b, 0)|;
    assert n == |TraceLine(b)|;
    assert TraceLine(a) == (TraceLine(a) + s)[..n] == (TraceLine(b) + t)[..n] == TraceLine(b);
    assert s == (TraceLine(a) + s)[n..] == (TraceLine(b) + t)[n..] == t;
  }

  lemma {:induction false} LineIsNotEmpty(data: bytes)
    ensures TraceLine(data) != []
  {}

  /** What a debug session shows determines every chunk it was shown for, and so every byte. */
  lemma {:induction false} TraceSessionIsLossless(a: seq<bytes>, b: seq<bytes>)
    requires TraceAll(a) == TraceAll(b)
    ensures a == b
    decreases |a|
  {
    hide TraceLine;
    if a != [] && b != [] {
      TraceAllFront(a);
      TraceAllFront(b);
      LinesArePrefixFree(a[0], b[0], TraceAll(a[1..]), TraceAll(b[1..]));
      TraceSessionIsLossless(a[1..], b[1..]);
      assert a == [a[0]] + a[1..] && b == [b[0]] + b[1..];
    } else if a != [] {
      LineIsNotEmpty(a[|a| - 1]);
    } else if b != [] {
      LineIsNotEmpty(b[|b| - 1]);
    }
  }

  /** The text consists of the trace lines of some cutting of the data. */
  ghost predicate Traced(text: bytes, data: bytes) {
    exists chunks :: TraceAll(chunks) == text && Flatten(chunks) == data
  }

  lemma {:induction false} TracedGrows(text: bytes, data: bytes, chunk: bytes)
    requires Traced(text, data)
    ensures Traced(text + TraceLine(chunk), data + chunk)
  {
    hide TraceLine;
    var chunks :| TraceAll(chunks) == text && Flatten(chunks) == data;
    assert (chunks + [chunk])[..|chunks|] == chunks;
    assert TraceAll(chunks + [chunk]) == text + TraceLine(chunk);
  }

  lemma {:induction false} NothingTraced()
    ensures Traced([], [])
  {
    assert TraceAll([]) == [] && Flatten([]) == [];
  }

  /** The trace of a session fits only one stream. */
  lemma {:induction false} TracedIsLossless(text: bytes, one: bytes, other: bytes)
    requires Traced(text, one) && Traced(text, other)
    ensures one == other
  {
    var a :| TraceAll(a) == text && Flatten(a) == one;
    var b :| TraceAll(b) == text && Flatten(b) == other;
    TraceSessionIsLossless(a, b);
  }

  // ----- Reading the text back -----

  /** The escape of some unprintable byte, standing at the start of `s`. */
  predicate StartsEscape(s: bytes) {
    && |s| >= 4 && s[0] == OPEN && IsHexDigit(s[1]) && IsHexDigit(s[2]) && s[3] == CLOSE
    && !Plain(HexValue(s[1]) * 16 + HexValue(s[2]))
  }

  function Unrender(s: bytes): bytes {
    if s == [] then []
    else if StartsEscape(s) then [HexValue(s[1]) * 16 + HexValue(s[2])] + Unrender(s[4..])
    else [s[0]] + Unrender(s[1..])
  }

  /** The stream itself spells out the escape of an unprintable byte. */
  predicate SpellsEscape(data: bytes) {
    exists i | 0 <= i < |data| :: StartsEscape(data[i..])
  }

  lemma {:induction false} RenderConcat(a: bytes, b: bytes)
    ensures Render(a + b) == Render(a) + Render(b)
    decreases |a|
  {
    if a == [] {
      assert a + b == b;
    } else {
      assert (a + b)[1..] == a[1..] + b;
      RenderConcat(a[1..], b);
    }
  }

  function RenderEach(chunks: seq<bytes>): seq<bytes> {
    if chunks == [] then [] else RenderEach(chunks[..|chunks| - 1]) + [Render(chunks[|chunks| - 1])]
  }

  /** Printing chunk by chunk shows what printing the whole stream would. */
  lemma {:induction false} RenderIsChunkInvariant(chunks: seq<bytes>)
    ensures Flatten(RenderEach(chunks)) == Render(Flatten(chunks))
    decreases |chunks|
  {
    if chunks != [] {
      var init, last := chunks[..|chunks| - 1], chunks[|chunks| - 1];
      RenderIsChunkInvariant(init);
      RenderConcat(Flatten(init), last);
      assert RenderEach(chunks)[..|RenderEach(init)|] == RenderEach(init);
    }
  }

  lemma {:induction false} RenderHead(data: bytes)
    requires data != []
    ensures Render(data)[0] == if Plain(data[0]) then data[0] else OPEN
    ensures Plain(data[0]) ==> Render(data)[1..] == Render(data[1..])
    ensures !Plain(data[0]) ==> |Render(data)| >= 4 && Render(data)[4..] == Render(data[1..])
  {}

  /** Rendered text starts an escape at a plain byte only if the stream spelled it there. */
  lemma {:induction false} EscapeAtPlainByte(data: bytes)
    requires data != [] && Plain(data[0])
    ensures StartsEscape(Render(data)) <==> StartsEscape(data)
    ensures StartsEscape(data) ==>
              Render(data)[..4] == data[..4] && Render(data)[4..] == Render(data[4..])
  {
    RenderHead(data);
    if |data| >= 2 {
      RenderHead(data[1..]);
      assert data[1..][1..] == data[2..];
      if |data| >= 3 && Plain(data[1]) {
        RenderHead(data[2..]);
        assert data[2..][1..] == data[3..];
        if |data| >= 4 && Plain(data[2]) {
          RenderHead(data[3..]);
          assert data[3..][1..] == data[4..];
        }
      }
    }
  }

  lemma {:induction false} UnrenderShrinks(data: bytes)
    ensures |Unrender(Render(data))| <= |data|
    ensures SpellsEscape(data) ==> |Unrender(Render(data))| < |data|
    decreases |data|
  {
    if data != [] {
      var text := Render(data);
      RenderHead(data);
      var next := if StartsEscape(data) then data[4..] else data[1..];
      if !Plain(data[0]) {
        HexRoundTrip(data[0]);
      } else {
        EscapeAtPlainByte(data);
      }
      UnrenderShrinks(next);
      if SpellsEscape(data) && !StartsEscape(data) {
        var i :| 0 <= i < |data| && StartsEscape(data[i..]);
        assert data[i..] == next[i - 1..];
      }
    }
  }

  lemma {:induction false} UnrenderRecovers(data: bytes)
    requires !SpellsEscape(data)
    ensures Unrender(Render(data)) == data
    decreases |data|
  {
    if data != [] {
      RenderHead(data);
      assert data[0..] == data;
      if Plain(data[0]) {
        EscapeAtPlainByte(data);
      } else {
        HexRoundTrip(data[0]);
      }
      forall i | 0 <= i < |data| - 1
        ensures !StartsEscape(data[1..][i..])
      {
        assert data[1..][i..] == data[i + 1..];
      }
      UnrenderRecovers(data[1..]);
    }
  }

  /** The decoder recovers a stream from its print exactly when the stream does not itself spell
      out the escape of an unprintable byte. */
  lemma {:induction false} TextIsLosslessExactly(data: bytes)
    ensures Unrender(Render(data)) == data <==> !SpellsEscape(data)
  {
    if SpellsEscape(data) {
      UnrenderShrinks(data);
    } else {
      UnrenderRecovers(data);
    }
  }

  /** In particular streams without '<' are told apart by what is printed. */
  lemma {:induction false} TextIsInjectiveWithoutOpen(a: bytes, b: bytes)
    requires OPEN !in a && OPEN !in b && Render(a) == Render(b)
    ensures a == b
  {
    assert !SpellsEscape(a) by { assert forall i | 0 <= i < |a| :: a[i..][0] == a[i]; }
    assert !SpellsEscape(b) by { assert forall i | 0 <= i < |b| :: b[i..][0] == b[i]; }
    UnrenderRecovers(a);
    UnrenderRecovers(b);
  }

  // ----- Which streams print alike -----

  predicate AllPlain(s: bytes) {
    forall b | b in s :: Plain(b)
  }

  lemma {:induction false} RenderIsPlain(data: bytes)
    ensures AllPlain(Render(data))
    decreases |data|
  {
    if data != [] {
      RenderIsPlain(data[1..]);
    }
  }

  lemma {:induction false} PlainRendersAsItself(data: bytes)
    requires AllPlain(data)
    ensures Render(data) == data
    decreases |data|
  {
    if data != [] {
      assert AllPlain(data[1..]);
      PlainRendersAsItself(data[1..]);
      assert data == [data[0]] + data[1..];
    }
  }

  /** One step of the decoder on printable text undoes one step of the printer. */
  lemma {:induction false} UnrenderStep(s: bytes)
    requires s != [] && Plain(s[0])
    ensures var n := if StartsEscape(s) then 4 else 1;
            && n <= |s| && Unrender(s) == [Unrender(s)[0]] + Unrender(s[n..])
            && RenderByte(Unrender(s)[0]) == s[..n]
  {}

  /** Whatever is shown can be the print of what the decoder makes of it. */
  lemma {:induction false} RenderOfUnrender(s: bytes)
    requires AllPlain(s)
    ensures Render(Unrender(s)) == s
    decreases |s|
  {
    hide Plain, StartsEscape, RenderByte;
    if s != [] {
      var n := if StartsEscape(s) then 4 else 1;
      assert s[0] in s;
      UnrenderStep(s);
      hide Unrender;
      RenderOfUnrender(s[n..]);
      assert s == s[..n] + s[n..];
    }
  }

  /** Every stream that spells an escape prints exactly like some other stream, so that no reader
      of the print can recover both. */
  lemma {:induction false} SpelledEscapeCollides(data: bytes)
    requires SpellsEscape(data)
    ensures exists other :: other != data && Render(other) == Render(data)
  {
    hide Render, Unrender, SpellsEscape;
    RenderIsPlain(data);
    RenderOfUnrender(Render(data));
    UnrenderShrinks(data);
    assert Unrender(Render(data)) != data;
  }

  /** No reader of prints does better than the decoder: of all the streams with one print the
      decoder recovers one, and no reader recovers two. */
  lemma {:induction false} DecoderIsBest(data: bytes, reader: bytes -> bytes)
    ensures exists kept :: Render(kept) == Render(data) && Unrender(Render(kept)) == kept
    ensures forall a, b | Render(a) == Render(data) && reader(Render(a)) == a
                          && Render(b) == Render(data) && reader(Render(b)) == b :: a == b
  {
    hide Render, Unrender;
    RenderIsPlain(data);
    RenderOfUnrender(Render(data));
    var kept := Unrender(Render(data));
    assert Render(kept) == Render(data) && Unrender(Render(kept)) == kept;
  }

  /** An unprintable byte always shows as the escape that a printable stream could spell. */
  lemma {:induction false} UnprintableSpells(data: bytes)
    requires !AllPlain(data)
    ensures SpellsEscape(Render(data))
    decreases |data|
  {
    var text := Render(data);
    RenderHead(data);
    if Plain(data[0]) {
      assert data == [data[0]] + data[1..];
      UnprintableSpells(data[1..]);
      var i :| 0 <= i < |text[1..]| && StartsEscape(text[1..][i..]);
      assert text[1..][i..] == text[i + 1..];
    } else {
      HexRoundTrip(data[0]);
      assert text[0..] == text && StartsEscape(text);
    }
  }

  /** What is printed tells a stream apart from every other stream if and only if the stream is
      all printable and spells no escape of an unprintable byte. */
  lemma {:induction false} PrintIdentifiesExactly(data: bytes)
    ensures (forall other | Render(other) == Render(data) :: other == data)
              <==> AllPlain(data) && !SpellsEscape(data)
  {
    hide Render, Unrender, SpellsEscape, AllPlain;
    if SpellsEscape(data) {
      SpelledEscapeCollides(data);
    } else if !AllPlain(data) {
      RenderIsPlain(data);
      PlainRendersAsItself(Render(data));
      assert Render(data) != data;
    } else {
      PlainRendersAsItself(data);
      forall other | Render(other) == Render(data)
        ensures other == data
      {
        if AllPlain(other) {
          PlainRendersAsItself(other);
        } else {
          UnprintableSpells(other);
        }
      }
    }
  }

  /** Two streams that print alike: the four characters of an escape, and the byte it stands for. */
  lemma {:induction false} CollisionExample()
    ensures var spelled, unprintable := [OPEN, 48, 49, CLOSE], [1];
            && Render(spelled) == Render(unprintable) && SpellsEscape(spelled)
            && !SpellsEscape(unprintable) && !AllPlain(unprintable)
  {
    var spelled, unprintable: bytes := [OPEN, 48, 49, CLOSE], [1];
    PlainRendersAsItself(spelled);
    assert Hex2(1) == [48, 49];
    assert unprintable[1..] == [];
    assert spelled[0..] == spelled && StartsEscape(spelled);
    assert unprintable[0] in unprintable;
  }

  // ----- The formats in so many bytes -----

  /** "0" to "9" and "A" to "F". */
  const HEX: bytes := [48, 49, 50, 51, 52, 53, 54, 55, 56, 57, 65, 66, 67, 68, 69, 70]

  lemma {:induction false} HexInBytes(b: byte)
    ensures Hex2(b) == [HEX[b / 16], HEX[b % 16]]
  {}

  /** CR, LF, TAB and the printable characters are shown as they are, any other byte as '<', two
      hex digits and '>'. */
  lemma {:induction false} TextInBytes(b: byte)
    ensures Render([b]) ==
              if b == 9 || b == 10 || b == 13 || 32 <= b <= 126 then [b] else [60, HEX[b / 16], HEX[b % 16], 62]
  {
    HexInBytes(b);
    assert [b][1..] == [];
    assert Render([b]) == RenderByte(b) + [];
  }

  lemma {:induction false} TraceFromAt(data: bytes, j: nat, i: nat)
    requires j <= i < |data|
    ensures var text, at := TraceFrom(data, j), 3 * (i - j);
            && at + 1 < |text| && text[at] == HEX[data[i] / 16] && text[at + 1] == HEX[data[i] % 16]
            && (i + 1 < |data| ==> at + 2 < |text| && text[at + 2] == 32)
    decreases i - j
  {
    HexInBytes(data[j]);
    if j < i {
      TraceFromAt(data, j + 1, i);
    }
  }

  /** A trace line: CR LF, "[modem rx ", the length, "] ", for each byte two hex digits with
      single spaces between, CR LF. */
  lemma {:induction false} TraceInBytes(data: bytes, i: nat)
    requires i < |data|
    ensures var text := TraceFrom(data, 0);
            && TraceLine(data) == [13, 10, 91, 109, 111, 100, 101, 109, 32, 114, 120, 32] + Decimal(|data|)
                                  + [93, 32] + text + [13, 10]
            && |text| == 3 * |data| - 1
            && text[3 * i] == HEX[data[i] / 16] && text[3 * i + 1] == HEX[data[i] % 16]
            && (i + 1 < |data| ==> text[3 * i + 2] == 32)
  {
    TraceFromAt(data, 0, i);
    hide TraceFrom, Decimal;
  }

  // ----- The printers -----

  /** snprintk into the rest of a buffer: at most size - 1 bytes and a NUL; returns the full length. */
  method Snprintk(buffer: array<byte>, at: nat, text: bytes) returns (written: nat)
    requires at < buffer.Length
    modifies buffer
    ensures written == |text|
    ensures buffer[..at] == old(buffer[..at])
    ensures |text| < buffer.Length - at ==>
              buffer[at..at + |text|] == text && buffer[at + |text|] == NUL
  {
    var n := Min(|text|, buffer.Length - at - 1);
    forall i | 0 <= i < n {
      buffer[at + i] := text[i];
    }
    buffer[at + n] := NUL;
    written := |text|;
  }

  /** The loop of modem_passthrough_trace_chunk: two hex digits per byte and the spaces between. */
  method FillTrace(trace: array<byte>, data: bytes) returns (offset: nat)
    requires trace.Length == TRACE_SIZE && 1 <= |data| <= RxMachine.CHUNK_SIZE
    modifies trace
    ensures offset == 3 * |data| - 1 < trace.Length
    ensures trace[..offset] == TraceFrom(data, 0) && trace[offset] == NUL
  {
    hide Hex2, TraceFrom;
    offset := 0;
    ghost var text: bytes := [];
    for i := 0 to |data|
      invariant offset == if i < |data| then 3 * i else 3 * i - 1
      invariant trace[..offset] == text
      invariant text + TraceFrom(data, i) == TraceFrom(data, 0)
      invariant i > 0 ==> trace[offset] == NUL
    {
      TraceStep(data, i);
      assert text + (Hex2(data[i]) + (if i + 1 < |data| then [SPACE] else [])) + TraceFrom(data, i + 1)
          == TraceFrom(data, 0);
      text := text + (Hex2(data[i]) + (if i + 1 < |data| then [SPACE] else []));
      var written := Snprintk(trace, offset, Hex2(data[i]));
      if written == 0 || written >= TRACE_SIZE - offset {
        break;
      }
      offset := offset + written;
      if i + 1 < |data| {
        if offset + 1 >= TRACE_SIZE {
          break;
        }
        trace[offset] := SPACE;
        offset := offset + 1;
        trace[offset] := NUL;
      }
    }
    TraceStep(data, |data|);
  }

  lemma {:induction false} TraceStep(data: bytes, i: nat)
    requires i <= |data|
    ensures i == |data| ==> TraceFrom(data, i) == []
    ensures i < |data| ==>
              && |Hex2(data[i])| == 2
              && TraceFrom(data, i) ==
                   Hex2(data[i]) + (if i + 1 < |data| then [SPACE] else []) + TraceFrom(data, i + 1)
  {}

  /** One trace line for a chunk the RX thread took from the ring. */
  method TraceChunk(data: bytes) returns (shown: bytes)
    requires 1 <= |data| <= RxMachine.CHUNK_SIZE
    ensures shown == TraceLine(data)
  {
    hide Decimal, TraceFrom, CStr;
    var trace := new byte[TRACE_SIZE];
    var line := new byte[LINE_SIZE];
    var offset := FillTrace(trace, data);
    TraceHasNoNul(data, 0);
    assert trace[..][..offset] == trace[..offset];
    CStrUnique(trace[..], offset);
    var formatted := LINE_HEAD + Decimal(|data|) + LINE_MID + CStr(trace[..]) + LINE_TAIL;
    var lineLen := Snprintk(line, 0, formatted);
    ShortDecimal(|data|);
    var writeLen := if lineLen < LINE_SIZE - 1 then lineLen else LINE_SIZE - 1;
    shown := line[..writeLen];
  }

  lemma {:induction false} ShortDecimal(n: nat)
    requires n <= RxMachine.CHUNK_SIZE
    ensures |Decimal(n)| <= 2
  {}

  lemma {:induction false} TraceHasNoNul(data: bytes, i: nat)
    requires i <= |data|
    ensures NulFree(TraceFrom(data, i))
    decreases |data| - i
  {
    if i < |data| {
      TraceHasNoNul(data, i + 1);
    }
  }

  lemma {:induction false} RenderStep(data: bytes, i: nat)
    requires i < |data|
    ensures Render(data[i..]) == RenderByte(data[i]) + Render(data[i + 1..])
    ensures |RenderByte(data[i])| <= 4
  {}

  /** The text of a chunk the RX thread took from the ring. */
  method PrintTextChunk(data: bytes) returns (shown: bytes)
    requires |data| <= RxMachine.CHUNK_SIZE
    ensures shown == Render(data)
  {
    hide Render, Hex2;
    var text := new byte[TEXT_SIZE];
    var offset: nat := 0;
    ghost var shownSoFar: bytes := [];
    assert data[0..] == data;
    for i := 0 to |data|
      invariant offset <= 4 * i
      invariant text[..offset] == shownSoFar
      invariant shownSoFar + Render(data[i..]) == Render(data)
    {
      RenderStep(data, i);
      assert shownSoFar + RenderByte(data[i]) + Render(data[i + 1..]) == Render(data);
      shownSoFar := shownSoFar + RenderByte(data[i]);
      if Plain(data[i]) {
        if offset + 1 >= TEXT_SIZE {
          break;
        }
        text[offset] := data[i];
        offset := offset + 1;
      } else {
        var written := Snprintk(text, offset, Escaped(data[i]));
        if written == 0 || written >= TEXT_SIZE - offset {
          break;
        }
        offset := offset + written;
      }
    }
    assert data[|data|..] == [];
    RenderOfNothing();
    shown := text[..offset];
  }

  lemma {:induction false} RenderOfNothing()
    ensures Render([]) == []
  {}
}

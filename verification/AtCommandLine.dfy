/**
  The argument parser of `modem at [--debug] <command>`: quotes, blanks and the debug option,
  working on the argument buffers in place.
 */
module AtCommandLine {
  import opened ByteText
  import ModemShell

  const DOUBLE_QUOTE: byte := 34
  const SINGLE_QUOTE: byte := 39

  predicate IsSpace(b: byte) {
    9 <= b <= 13 || b == SPACE
  }

  predicate AllSpace(s: bytes) {
    forall b | b in s :: IsSpace(b)
  }

  // ----- The parser on values -----

  function TrimSpaces(s: bytes): (r: bytes)
    ensures |r| <= |s| && r == s[|s| - |r|..] && (r != [] ==> !IsSpace(r[0]))
  {
    if s == [] || !IsSpace(s[0]) then s else TrimSpaces(s[1..])
  }

  function Unquote(s: bytes): bytes {
    if |s| >= 2 && s[0] == s[|s| - 1] && s[0] in {DOUBLE_QUOTE, SINGLE_QUOTE} then s[1..|s| - 1] else s
  }

  datatype Parsed = Parsed(command: Option<bytes>, debug: bool)

  /** The debug option opens the text and a blank or nothing follows it. */
  predicate OpensWithDebug(s: bytes) {
    var n := |ModemShell.DEBUG_OPTION|;
    ModemShell.DEBUG_OPTION <= s && (|s| == n || IsSpace(s[n]))
  }

  function AsCommand(text: bytes): Option<bytes> {
    if text == [] then None else Some(text)
  }

  /** What the argument strings (the command's own name first) ask for. */
  function Parse(args: seq<bytes>): Parsed {
    if |args| <= 1 then Parsed(None, false)
    else if args[1] == ModemShell.DEBUG_OPTION then
      Parsed(if |args| <= 2 then None else Some(args[2]), true)
    else if |args| > 2 then Parsed(Some(args[1]), false)
    else ParseLine(args[1])
  }

  /** The raw single-argument form. */
  function ParseLine(line: bytes): Parsed {
    var text := TrimSpaces(line);
    var debug := OpensWithDebug(text);
    var rest := if debug then TrimSpaces(text[|ModemShell.DEBUG_OPTION|..]) else text;
    Parsed(AsCommand(TrimSpaces(Unquote(rest))), debug)
  }

  /** The scan the shell makes beforehand to decide whether to log. */
  predicate DebugRequested(args: seq<bytes>) {
    if |args| <= 1 then false
    else if args[1] == ModemShell.DEBUG_OPTION then true
    else if |args| != 2 then false
    else OpensWithDebug(TrimSpaces(args[1]))
  }

  /** The scan and the parser never disagree about debug. */
  lemma {:induction false} ScanAgreesWithParser(args: seq<bytes>)
    ensures Parse(args).debug == DebugRequested(args)
  {}

  lemma {:induction false} TrimAfterSpaces(ws: bytes, s: bytes)
    requires AllSpace(ws) && (s != [] ==> !IsSpace(s[0]))
    ensures TrimSpaces(ws + s) == s
    decreases |ws|
  {
    if ws == [] {
      assert ws + s == s;
    } else {
      assert ws[0] in ws;
      assert (ws + s)[1..] == ws[1..] + s;
      TrimAfterSpaces(ws[1..], s);
    }
  }

  function Quoted(q: byte, c: bytes): bytes {
    [q] + c + [q]
  }

  lemma {:induction false} UnquoteQuoted(q: byte, c: bytes)
    requires q in {DOUBLE_QUOTE, SINGLE_QUOTE}
    ensures Unquote(Quoted(q, c)) == c
  {}

  lemma {:induction false} TrimKeepsExactly(c: bytes)
    ensures AsCommand(TrimSpaces(c)) == Some(c) <==> c != [] && !IsSpace(c[0])
  {}

  /** A quoted text is never taken for the debug option. */
  lemma {:induction false} QuoteHidesDebug(ws: bytes, q: byte, c: bytes)
    requires AllSpace(ws) && q in {DOUBLE_QUOTE, SINGLE_QUOTE}
    ensures ws + Quoted(q, c) != ModemShell.DEBUG_OPTION && !OpensWithDebug(Quoted(q, c))
    ensures TrimSpaces(ws + Quoted(q, c)) == Quoted(q, c)
  {
    var text := Quoted(q, c);
    assert text[0] == q && !IsSpace(q);
    TrimAfterSpaces(ws, text);
    hide TrimSpaces;
    assert ModemShell.DEBUG_OPTION[0] != q;
    assert ws + text != ModemShell.DEBUG_OPTION by {
      assert (ws + text)[|ws|] == q;
      assert forall i | 0 <= i < |ModemShell.DEBUG_OPTION| :: ModemShell.DEBUG_OPTION[i] != q;
    }
  }

  /** A quoted command comes through exactly as quoted, "--debug" at its start included, if
      and only if it is not empty and does not start with a blank. */
  lemma {:induction false} QuotedCommandComesThrough(name: bytes, ws: bytes, q: byte, c: bytes)
    requires AllSpace(ws) && q in {DOUBLE_QUOTE, SINGLE_QUOTE}
    ensures Parse([name, ws + Quoted(q, c)]) == Parsed(Some(c), false) <==> c != [] && !IsSpace(c[0])
  {
    QuoteHidesDebug(ws, q, c);
    UnquoteQuoted(q, c);
    TrimKeepsExactly(c);
    hide TrimSpaces, Unquote, Quoted, OpensWithDebug;
  }

  /** The same after the debug option and at least one blank, with debug on. */
  lemma {:induction false} DebugAndQuotedCommandComeThrough(name: bytes, ws: bytes, gap: bytes, q: byte, c: bytes)
    requires AllSpace(ws) && AllSpace(gap) && gap != [] && q in {DOUBLE_QUOTE, SINGLE_QUOTE}
    ensures var line := ws + (ModemShell.DEBUG_OPTION + (gap + Quoted(q, c)));
            Parse([name, line]) == Parsed(Some(c), true) <==> c != [] && !IsSpace(c[0])
  {
    var option, quoted := ModemShell.DEBUG_OPTION, Quoted(q, c);
    var text := option + (gap + quoted);
    assert text[0] == option[0] && !IsSpace(option[0]);
    TrimAfterSpaces(ws, text);
    assert |ws + text| > |option|;
    assert text[|option|] == gap[0] && gap[0] in gap;
    assert OpensWithDebug(text);
    assert text[|option|..] == gap + quoted;
    assert quoted[0] == q && !IsSpace(q);
    TrimAfterSpaces(gap, quoted);
    UnquoteQuoted(q, c);
    TrimKeepsExactly(c);
  }

  // ----- The parser in so many bytes -----

  /** Only blanks: 9 to 13 and 32. */
  predicate Blanks(s: bytes) {
    forall b | b in s :: 9 <= b <= 13 || b == 32
  }

  predicate StartsBlank(s: bytes) {
    s != [] && (9 <= s[0] <= 13 || s[0] == 32)
  }

  /** "--debug" and then a blank or the end. */
  predicate OpensWithOption(s: bytes) {
    && |s| >= 7 && s[..7] == [45, 45, 100, 101, 98, 117, 103]
    && (|s| == 7 || 9 <= s[7] <= 13 || s[7] == 32)
  }

  /** Between two double quotes (34) or two single quotes (39). */
  predicate InQuotes(s: bytes) {
    |s| >= 2 && s[0] == s[|s| - 1] && (s[0] == 34 || s[0] == 39)
  }

  lemma {:induction false} BytesAreMeant(s: bytes)
    ensures Blanks(s) <==> AllSpace(s)
    ensures StartsBlank(s) <==> s != [] && IsSpace(s[0])
    ensures OpensWithOption(s) <==> OpensWithDebug(s)
    ensures InQuotes(s) ==> Unquote(s) == s[1..|s| - 1]
    ensures !InQuotes(s) ==> Unquote(s) == s
    ensures s == ModemShell.DEBUG_OPTION <==> s == [45, 45, 100, 101, 98, 117, 103]
  {}

  /** What the raw line amounts to once its leading blanks are off. */
  lemma {:induction false} LineOf(ws: bytes, text: bytes)
    requires Blanks(ws) && !StartsBlank(text)
    ensures var debug := OpensWithOption(text);
            var rest := if debug then TrimSpaces(text[7..]) else text;
            ParseLine(ws + text) == Parsed(AsCommand(TrimSpaces(Unquote(rest))), debug)
  {
    BytesAreMeant(ws);
    BytesAreMeant(text);
    TrimAfterSpaces(ws, text);
    hide TrimSpaces, Unquote;
  }

  lemma {:induction false} OneArgument(name: bytes, ws: bytes, text: bytes)
    requires Blanks(ws) && !StartsBlank(text)
    ensures Parse([name, ws + text]) == ParseLine(ws + text)
  {
    BytesAreMeant(ws + text);
    hide ParseLine, OpensWithOption, OpensWithDebug;
    if ws != [] {
      assert ws[0] in ws && (ws + text)[0] == ws[0];
      assert ModemShell.DEBUG_OPTION[0] == 45;
    }
    if ws + text == ModemShell.DEBUG_OPTION {
      assert ws + text == text;
      OptionAlone(text);
    }
  }

  lemma {:induction false} OptionAlone(text: bytes)
    requires text == ModemShell.DEBUG_OPTION
    ensures ParseLine(text) == Parsed(None, true)
  {
    hide TrimSpaces, Unquote, ParseLine;
    assert [] + text == text;
    LineOf([], text);
    assert text[..7] == text;
    assert text[7..] == [];
    NothingToUnquote();
  }

  /** A command that stands there plainly comes through as it stands, if and only if it does not
      open with the debug option and is not in quotes. */
  lemma {:induction false} PlainCommandComesThrough(name: bytes, ws: bytes, text: bytes)
    requires Blanks(ws) && text != [] && !StartsBlank(text)
    ensures Parse([name, ws + text]) == Parsed(Some(text), false) <==> !OpensWithOption(text) && !InQuotes(text)
  {
    OneArgument(name, ws, text);
    LineOf(ws, text);
    BytesAreMeant(text);
    hide Parse, ParseLine, OpensWithOption;
  }

  lemma {:induction false} AfterOption(ws: bytes, gap: bytes, text: bytes)
    requires Blanks(ws) && Blanks(gap) && !StartsBlank(text) && (gap == [] ==> text == [])
    ensures var line := ws + ([45, 45, 100, 101, 98, 117, 103] + (gap + text));
            ParseLine(line) == Parsed(AsCommand(TrimSpaces(Unquote(text))), true)
  {
    var option: bytes := [45, 45, 100, 101, 98, 117, 103];
    var line := option + (gap + text);
    assert line[..7] == option && line[7..] == gap + text;
    assert gap != [] ==> line[7] == gap[0] && gap[0] in gap;
    LineOf(ws, line);
    BytesAreMeant(gap);
    BytesAreMeant(text);
    TrimAfterSpaces(gap, text);
    hide TrimSpaces, Unquote, ParseLine;
  }

  /** The same behind the debug option and a blank. */
  lemma {:induction false} PlainCommandAfterDebug(name: bytes, ws: bytes, gap: bytes, text: bytes)
    requires Blanks(ws) && Blanks(gap) && gap != [] && text != [] && !StartsBlank(text)
    ensures var line := ws + ([45, 45, 100, 101, 98, 117, 103] + (gap + text));
            Parse([name, line]) == Parsed(Some(text), true) <==> !InQuotes(text)
  {
    OneArgument(name, ws, [45, 45, 100, 101, 98, 117, 103] + (gap + text));
    AfterOption(ws, gap, text);
    BytesAreMeant(text);
    hide Parse, ParseLine;
  }

  lemma {:induction false} QuotesOff(q: byte, t: bytes)
    requires q == 34 || q == 39
    ensures var quoted := [q] + t + [q];
            !StartsBlank(quoted) && !OpensWithOption(quoted) && Unquote(quoted) == t
  {
    var quoted := [q] + t + [q];
    assert quoted[0] == quoted[|quoted| - 1] == q;
    assert quoted[1..|quoted| - 1] == t;
    if |quoted| >= 7 {
      assert quoted[..7][0] == q;
    }
  }

  lemma {:induction false} BlanksOff(inner: bytes, c: bytes)
    requires Blanks(inner) && !StartsBlank(c)
    ensures AsCommand(TrimSpaces(inner + c)) == if c == [] then None else Some(c)
  {
    BytesAreMeant(inner);
    BytesAreMeant(c);
    TrimAfterSpaces(inner, c);
  }

  /** What stands in quotes is the command without its leading blanks, or none if there is
      nothing else; and so behind the debug option and a blank. */
  lemma {:induction false} QuotedTextIsTheCommand(name: bytes, ws: bytes, gap: bytes, q: byte, inner: bytes, c: bytes)
    requires Blanks(ws) && Blanks(gap) && Blanks(inner) && gap != [] && (q == 34 || q == 39) && !StartsBlank(c)
    ensures var quoted := [q] + (inner + c) + [q];
            var command := if c == [] then None else Some(c);
            && Parse([name, ws + quoted]) == Parsed(command, false)
            && Parse([name, ws + ([45, 45, 100, 101, 98, 117, 103] + (gap + quoted))]) == Parsed(command, true)
  {
    hide Parse, ParseLine, TrimSpaces, Unquote, Blanks, StartsBlank, OpensWithOption, AsCommand;
    QuotesOff(q, inner + c);
    BlanksOff(inner, c);
    var quoted := [q] + (inner + c) + [q];
    OneArgument(name, ws, quoted);
    LineOf(ws, quoted);
    OptionIsNoBlank(gap + quoted);
    OneArgument(name, ws, [45, 45, 100, 101, 98, 117, 103] + (gap + quoted));
    AfterOption(ws, gap, quoted);
  }

  lemma {:induction false} OptionIsNoBlank(rest: bytes)
    ensures !StartsBlank([45, 45, 100, 101, 98, 117, 103] + rest)
  {}

  /** Nothing to send: no argument, or blanks only. */
  lemma {:induction false} NothingToSend(name: bytes, ws: bytes)
    requires Blanks(ws)
    ensures Parse([]) == Parse([name]) == Parse([name, ws]) == Parsed(None, false)
  {
    hide ParseLine, TrimSpaces, Unquote;
    assert ws + [] == ws;
    OneArgument(name, ws, []);
    LineOf(ws, []);
    NothingToUnquote();
  }

  /** Nothing to send either: the option with nothing but blanks behind it. */
  lemma {:induction false} OptionOnly(name: bytes, ws: bytes, gap: bytes)
    requires Blanks(ws) && Blanks(gap)
    ensures Parse([name, ws + ([45, 45, 100, 101, 98, 117, 103] + gap)]) == Parsed(None, true)
  {
    hide Parse, ParseLine, TrimSpaces, Unquote;
    assert gap + [] == gap;
    OneArgument(name, ws, [45, 45, 100, 101, 98, 117, 103] + gap);
    AfterOption(ws, gap, []);
    NothingToUnquote();
  }

  /** Arguments the shell has split already are taken as they are. */
  lemma {:induction false} SplitArguments(args: seq<bytes>)
    requires |args| >= 3
    ensures Parse(args) == if args[1] == [45, 45, 100, 101, 98, 117, 103] then Parsed(Some(args[2]), true)
                           else Parsed(Some(args[1]), false)
  {
    BytesAreMeant(args[1]);
  }

  // ----- The parser in place -----

  /** A char pointer: a buffer and an index into it. */
  datatype Text = Text(buffer: array<byte>, at: nat)

  ghost predicate IsString(t: Text)
    reads t.buffer
  {
    t.at < t.buffer.Length && |CStr(t.buffer[t.at..])| < t.buffer.Length - t.at
  }

  ghost function Str(t: Text): bytes
    requires t.at <= t.buffer.Length
    reads t.buffer
  {
    CStr(t.buffer[t.at..])
  }

  ghost function Args(argv: seq<array<byte>>): seq<bytes>
    reads argv
  {
    seq(|argv|, i requires 0 <= i < |argv| reads argv => CStr(argv[i][..]))
  }

  ghost predicate AreStrings(argv: seq<array<byte>>)
    reads argv
  {
    forall i | 0 <= i < |argv| :: |CStr(argv[i][..])| < argv[i].Length
  }

  lemma {:induction false} StringStep(buffer: bytes)
    requires |CStr(buffer)| < |buffer|
    ensures CStr(buffer) == [] <==> buffer[0] == NUL
    ensures buffer[0] != NUL ==> CStr(buffer[1..]) == CStr(buffer)[1..] && CStr(buffer)[0] == buffer[0]
  {}

  lemma {:induction false} StringSkip(buffer: bytes, n: nat)
    requires n <= |CStr(buffer)|
    ensures CStr(buffer[n..]) == CStr(buffer)[n..]
  {}

  method TrimLeadingSpaces(t: Text) returns (r: Text)
    requires IsString(t)
    ensures r.buffer == t.buffer && IsString(r) && Str(r) == TrimSpaces(Str(t))
  {
    hide CStr, TrimSpaces;
    r := t;
    StringStep(r.buffer[r.at..]);
    while r.buffer[r.at] != NUL && IsSpace(r.buffer[r.at])
      invariant r.buffer == t.buffer && IsString(r) && TrimSpaces(Str(r)) == TrimSpaces(Str(t))
      decreases r.buffer.Length - r.at
    {
      StringStep(r.buffer[r.at..]);
      TrimSpacesStep(Str(r));
      assert r.buffer[r.at..][1..] == r.buffer[r.at + 1..];
      r := r.(at := r.at + 1);
    }
    StringStep(r.buffer[r.at..]);
    TrimSpacesStep(Str(r));
  }

  lemma {:induction false} TrimSpacesStep(s: bytes)
    ensures TrimSpaces(s) == if s != [] && IsSpace(s[0]) then TrimSpaces(s[1..]) else s
  {}

  /** strlen */
  method StrLen(t: Text) returns (n: nat)
    requires IsString(t)
    ensures n == |Str(t)|
  {
    n := |CStr(t.buffer[t.at..])|;
  }

  method TrimMatchingQuotes(t: Text) returns (r: Text)
    requires IsString(t)
    modifies t.buffer
    ensures r.buffer == t.buffer && IsString(r) && Str(r) == Unquote(old(Str(t)))
  {
    hide CStr;
    r := t;
    var len := StrLen(t);
    if len < 2 {
      return;
    }
    ghost var before := t.buffer[t.at..];
    ghost var c := CStr(before);
    var first, last := t.buffer[t.at], t.buffer[t.at + len - 1];
    assert c[0] == before[0] == first && c[len - 1] == before[len - 1] == last;
    if (first == DOUBLE_QUOTE && last == DOUBLE_QUOTE) || (first == SINGLE_QUOTE && last == SINGLE_QUOTE) {
      t.buffer[t.at + len - 1] := NUL;
      r := t.(at := t.at + 1);
      ghost var after := r.buffer[r.at..];
      assert after[..len - 2] == c[1..len - 1];
      CStrUnique(after, len - 2);
    }
  }

  /** strcmp(s, "--debug") == 0 */
  method IsDebugOption(t: Text) returns (r: bool)
    requires IsString(t)
    ensures r <==> Str(t) == ModemShell.DEBUG_OPTION
  {
    r := CStr(t.buffer[t.at..]) == ModemShell.DEBUG_OPTION;
  }

  /** strncmp with the option's length, and the look at the byte behind it. */
  method StartsWithDebug(t: Text) returns (r: bool)
    requires IsString(t)
    ensures r <==> OpensWithDebug(Str(t))
  {
    hide CStr;
    ghost var c := Str(t);
    var n := |ModemShell.DEBUG_OPTION|;
    if ModemShell.DEBUG_OPTION <= CStr(t.buffer[t.at..]) {
      var next := t.buffer[t.at + n];
      StringSkip(t.buffer[t.at..], n);
      StringStep(t.buffer[t.at..][n..]);
      assert t.buffer[t.at..][n] == next;
      r := next == NUL || IsSpace(next);
    } else {
      r := false;
    }
  }

  /** The parser's work on a single raw argument. */
  method ParseRawLine(line: array<byte>) returns (command: Option<Text>, debugEnabled: bool)
    requires IsString(Text(line, 0))
    modifies line
    ensures debugEnabled == ParseLine(old(Str(Text(line, 0)))).debug
    ensures command.Some? ==> command.value.buffer == line && IsString(command.value)
    ensures (match command case None => None case Some(t) => Some(Str(t)))
         == ParseLine(old(Str(Text(line, 0)))).command
  {
    hide CStr, TrimSpaces, Unquote, OpensWithDebug;
    debugEnabled, command := false, None;
    var t := TrimLeadingSpaces(Text(line, 0));
    var option := StartsWithDebug(t);
    if option {
      debugEnabled := true;
      DebugIsPrefix(Str(t));
      StringSkip(t.buffer[t.at..], |ModemShell.DEBUG_OPTION|);
      assert t.buffer[t.at..][|ModemShell.DEBUG_OPTION|..] == t.buffer[t.at + |ModemShell.DEBUG_OPTION|..];
      t := TrimLeadingSpaces(t.(at := t.at + |ModemShell.DEBUG_OPTION|));
    }
    StringStep(t.buffer[t.at..]);
    if t.buffer[t.at] == NUL {
      NothingToUnquote();
      return;
    }
    t := TrimMatchingQuotes(t);
    t := TrimLeadingSpaces(t);
    StringStep(t.buffer[t.at..]);
    command := if t.buffer[t.at] == NUL then None else Some(t);
  }

  lemma {:induction false} DebugIsPrefix(s: bytes)
    ensures OpensWithDebug(s) ==> |s| >= |ModemShell.DEBUG_OPTION|
  {}

  lemma {:induction false} NothingToUnquote()
    ensures TrimSpaces([]) == [] && TrimSpaces(Unquote([])) == []
  {}

  /** modem_shell_parse_at_command; a command is a pointer into one of the argument buffers. */
  method ParseAtCommand(argv: seq<array<byte>>) returns (command: Option<Text>, debugEnabled: bool)
    requires AreStrings(argv)
    modifies if |argv| == 2 then {argv[1]} else {}
    ensures debugEnabled == Parse(old(Args(argv))).debug
    ensures command.Some? ==> command.value.buffer in argv && IsString(command.value)
    ensures (match command case None => None case Some(t) => Some(Str(t))) == Parse(old(Args(argv))).command
  {
    hide CStr, ParseLine;
    debugEnabled, command := false, None;
    if |argv| <= 1 {
      return;
    }
    assert argv[1][0..] == argv[1][..];
    var isOption := IsDebugOption(Text(argv[1], 0));
    if isOption {
      debugEnabled := true;
      if |argv| <= 2 {
        return;
      }
      assert argv[2][0..] == argv[2][..];
      return Some(Text(argv[2], 0)), true;
    }
    if |argv| > 2 {
      return Some(Text(argv[1], 0)), false;
    }
    command, debugEnabled := ParseRawLine(argv[1]);
  }

  /** modem_shell_at_debug_requested */
  method AtDebugRequested(argv: seq<array<byte>>) returns (requested: bool)
    requires AreStrings(argv)
    ensures requested == DebugRequested(Args(argv))
  {
    hide CStr;
    if |argv| <= 1 {
      return false;
    }
    assert argv[1][0..] == argv[1][..];
    requested := IsDebugOption(Text(argv[1], 0));
    if requested {
      return;
    }
    if |argv| != 2 {
      return false;
    }
    var raw := TrimLeadingSpaces(Text(argv[1], 0));
    requested := StartsWithDebug(raw);
  }
}

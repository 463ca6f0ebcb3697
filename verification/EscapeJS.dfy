/** Escaping for single-quoted JavaScript string literals (internal/shared/jsutil/escape.go):
    five whole-string replacements, proved to be undone by the string literal grammar (section
    12.9.4 of ECMA-262, 14th edition). */
module EscapeJS {
  import opened Ascii
  import opened Options

  /** strings.ReplaceAll for a non-empty pattern: left to right, without overlaps. */
  function ReplaceAll(s: string, pattern: string, with: string): string
    requires pattern != []
  {
    if s == [] then []
    else if pattern <= s then with + ReplaceAll(s[|pattern|..], pattern, with)
    else [s[0]] + ReplaceAll(s[1..], pattern, with)
  }

  const CLOSE_TAG := "</script>"
  const CLOSE_TAG_ESCAPED := "<\\/script>"

  function Escape(s: string): string {
    var s1 := ReplaceAll(s, "\\", "\\\\");
    var s2 := ReplaceAll(s1, "'", "\\'");
    var s3 := ReplaceAll(s2, "\n", "\\n");
    var s4 := ReplaceAll(s3, "\r", "\\r");
    ReplaceAll(s4, CLOSE_TAG, CLOSE_TAG_ESCAPED)
  }

  // ---------------------------------------------------------------- one pass instead of five

  function EscapeChar(c: char): string {
    if c == '\\' then "\\\\" else if c == '\'' then "\\'"
    else if c == '\n' then "\\n" else if c == '\r' then "\\r" else [c]
  }

  predicate Plain(c: char) {
    c != '\\' && c != '\'' && c != '\n' && c != '\r'
  }

  /** A single left-to-right escaper. */
  function EscapeOnce(s: string): string {
    if s == [] then []
    else if CLOSE_TAG <= s then CLOSE_TAG_ESCAPED + EscapeOnce(s[|CLOSE_TAG|..])
    else EscapeChar(s[0]) + EscapeOnce(s[1..])
  }

  function EscapeChars(s: string): string {
    if s == [] then [] else EscapeChar(s[0]) + EscapeChars(s[1..])
  }

  function FirstFour(s: string): string {
    ReplaceAll(ReplaceAll(ReplaceAll(ReplaceAll(s, "\\", "\\\\"), "'", "\\'"), "\n", "\\n"), "\r", "\\r")
  }

  lemma ReplaceCharStep(s: string, c: char, with: string)
    requires s != []
    ensures ReplaceAll(s, [c], with) == (if s[0] == c then with else [s[0]]) + ReplaceAll(s[1..], [c], with)
  {
    PrefixByHead([c], s);
  }

  lemma {:induction false} ReplaceCharConcat(a: string, b: string, c: char, with: string)
    ensures ReplaceAll(a + b, [c], with) == ReplaceAll(a, [c], with) + ReplaceAll(b, [c], with)
  {
    if a == [] {
      assert a + b == b;
    } else {
      assert (a + b)[1..] == a[1..] + b;
      ReplaceCharConcat(a[1..], b, c, with);
      ReplaceCharStep(a, c, with);
      ReplaceCharStep(a + b, c, with);
      var head := if a[0] == c then with else [a[0]];
      assert head + (ReplaceAll(a[1..], [c], with) + ReplaceAll(b, [c], with))
          == (head + ReplaceAll(a[1..], [c], with)) + ReplaceAll(b, [c], with);
    }
  }

  lemma ReplaceInOne(d: char, c: char, with: string)
    ensures ReplaceAll([d], [c], with) == if d == c then with else [d]
  {
    ReplaceCharStep([d], c, with);
  }

  lemma ReplaceInTwo(d: char, e: char, c: char, with: string)
    requires d != c && e != c
    ensures ReplaceAll([d, e], [c], with) == [d, e]
  {
    assert [d, e] == [d] + [e];
    ReplaceCharConcat([d], [e], c, with);
    ReplaceInOne(d, c, with);
    ReplaceInOne(e, c, with);
  }

  lemma FirstFourOfChar(d: char)
    ensures FirstFour([d]) == EscapeChar(d)
  {
    ReplaceInOne(d, '\\', "\\\\");
    ReplaceInOne(d, '\'', "\\'");
    ReplaceInOne(d, '\n', "\\n");
    ReplaceInOne(d, '\r', "\\r");
    ReplaceInTwo('\\', '\\', '\'', "\\'");
    ReplaceInTwo('\\', '\\', '\n', "\\n");
    ReplaceInTwo('\\', '\\', '\r', "\\r");
    ReplaceInTwo('\\', '\'', '\n', "\\n");
    ReplaceInTwo('\\', '\'', '\r', "\\r");
    ReplaceInTwo('\\', 'n', '\r', "\\r");
  }

  lemma {:induction false} FirstFourIsCharwise(s: string)
    ensures FirstFour(s) == EscapeChars(s)
  {
    if s != [] {
      var a, b := [s[0]], s[1..];
      assert s == a + b;
      FirstFourIsCharwise(b);
      FirstFourOfChar(s[0]);
      ReplaceCharConcat(a, b, '\\', "\\\\");
      var a1, b1 := ReplaceAll(a, "\\", "\\\\"), ReplaceAll(b, "\\", "\\\\");
      ReplaceCharConcat(a1, b1, '\'', "\\'");
      var a2, b2 := ReplaceAll(a1, "'", "\\'"), ReplaceAll(b1, "'", "\\'");
      ReplaceCharConcat(a2, b2, '\n', "\\n");
      ReplaceCharConcat(ReplaceAll(a2, "\n", "\\n"), ReplaceAll(b2, "\n", "\\n"), '\r', "\\r");
    }
  }

  /** Escaping neither creates nor destroys a prefix of plain characters. */
  lemma {:induction false} PlainPrefixKept(p: string, s: string)
    requires forall k :: 0 <= k < |p| ==> Plain(p[k])
    ensures p <= EscapeChars(s) <==> p <= s
  {
    if p != [] && s != [] {
      PlainPrefixKept(p[1..], s[1..]);
      PrefixByHead(p, s);
      PrefixByHead(p, EscapeChars(s));
      if Plain(s[0]) {
        assert EscapeChars(s)[1..] == EscapeChars(s[1..]);
      }
    }
  }

  lemma PrefixByHead(p: string, s: string)
    requires p != [] && s != []
    ensures p <= s <==> p[0] == s[0] && p[1..] <= s[1..]
  {
    if p[0] == s[0] && p[1..] <= s[1..] {
      assert p == [p[0]] + p[1..];
      assert s == [s[0]] + s[1..];
      assert forall k :: 0 <= k < |p| ==> p[k] == s[k] by {
        forall k | 1 <= k < |p| ensures p[k] == s[k] {
          assert p[1..][k - 1] == s[1..][k - 1];
        }
      }
    }
  }

  lemma {:induction false} EscapeCharsOfPlain(p: string, s: string)
    requires forall k :: 0 <= k < |p| ==> Plain(p[k])
    ensures EscapeChars(p + s) == p + EscapeChars(s)
  {
    if p == [] {
      assert p + s == s;
    } else {
      assert (p + s)[1..] == p[1..] + s;
      EscapeCharsOfPlain(p[1..], s);
      assert p == [p[0]] + p[1..];
    }
  }

  lemma {:induction false} LastPassAfterCharwise(s: string)
    ensures ReplaceAll(EscapeChars(s), CLOSE_TAG, CLOSE_TAG_ESCAPED) == EscapeOnce(s)
    decreases |s|
  {
    if s != [] {
      var e := EscapeChars(s);
      PlainPrefixKept(CLOSE_TAG, s);
      if CLOSE_TAG <= s {
        var rest := s[|CLOSE_TAG|..];
        assert s == CLOSE_TAG + rest;
        EscapeCharsOfPlain(CLOSE_TAG, rest);
        assert e[|CLOSE_TAG|..] == EscapeChars(rest);
        LastPassAfterCharwise(rest);
      } else {
        LastPassAfterCharwise(s[1..]);
        SkipsEscapedChar(s[0], EscapeChars(s[1..]));
      }
    }
  }

  /** The tag cannot start inside an escape, so the last pass copies an escaped character. */
  lemma SkipsEscapedChar(c: char, rest: string)
    requires !(CLOSE_TAG <= EscapeChar(c) + rest)
    ensures ReplaceAll(EscapeChar(c) + rest, CLOSE_TAG, CLOSE_TAG_ESCAPED)
            == EscapeChar(c) + ReplaceAll(rest, CLOSE_TAG, CLOSE_TAG_ESCAPED)
  {
    var e := EscapeChar(c) + rest;
    if Plain(c) {
      assert e[1..] == rest;
    } else {
      var tail := [EscapeChar(c)[1]] + rest;
      assert e[1..] == tail;
      assert tail[0] != CLOSE_TAG[0];
      assert tail[1..] == rest;
      assert ReplaceAll(e, CLOSE_TAG, CLOSE_TAG_ESCAPED) == [e[0]] + ReplaceAll(tail, CLOSE_TAG, CLOSE_TAG_ESCAPED);
      assert EscapeChar(c) == [e[0]] + [EscapeChar(c)[1]];
    }
  }

  /** The five passes do what one left-to-right pass would, on every input. */
  lemma EscapeIsOnePass(s: string)
    ensures Escape(s) == EscapeOnce(s)
  {
    FirstFourIsCharwise(s);
    LastPassAfterCharwise(s);
  }

  // ---------------------------------------------------------------- reading the literal back

  /** CharacterEscapeSequence for the characters that are not digits, x or u: a SingleEscapeCharacter
      has its own value, any other stands for itself. */
  function Unescaped(c: char): char {
    match c
    case 'b' => '\U{0008}'
    case 'f' => '\U{000C}'
    case 'n' => '\n'
    case 'r' => '\r'
    case 't' => '\t'
    case 'v' => '\U{000B}'
    case _ => c
  }

  predicate OtherEscape(c: char) {
    '0' <= c <= '9' || c == 'x' || c == 'u'
  }

  /** The rest of a single-quoted literal, after its opening quote: the string value, and the text
      after the closing quote. Raw line breaks and the numeric escapes (not modelled: the escaper
      never writes them) give None; a backslash before a line break continues the line. */
  function ReadLiteral(s: string): Option<(string, string)> {
    if s == [] || s[0] == '\n' || s[0] == '\r' then None
    else if s[0] == '\'' then Some(("", s[1..]))
    else if s[0] != '\\' then Push([s[0]], ReadLiteral(s[1..]))
    else if |s| == 1 || OtherEscape(s[1]) then None
    else if s[1] == '\r' && |s| > 2 && s[2] == '\n' then ReadLiteral(s[3..])
    else if s[1] in {'\n', '\r', '\U{2028}', '\U{2029}'} then ReadLiteral(s[2..])
    else Push([Unescaped(s[1])], ReadLiteral(s[2..]))
  }

  function Push(c: string, r: Option<(string, string)>): Option<(string, string)> {
    if r.None? then None else Some((c + r.value.0, r.value.1))
  }

  lemma {:induction false} ReadPlain(p: string, s: string)
    requires forall k :: 0 <= k < |p| ==> Plain(p[k])
    ensures ReadLiteral(p + s) == Push(p, ReadLiteral(s))
  {
    if p == [] {
      assert p + s == s;
      if ReadLiteral(s).Some? { assert p + ReadLiteral(s).value.0 == ReadLiteral(s).value.0; }
    } else {
      assert (p + s)[1..] == p[1..] + s;
      ReadPlain(p[1..], s);
      assert p == [p[0]] + p[1..];
      if ReadLiteral(s).Some? {
        assert [p[0]] + (p[1..] + ReadLiteral(s).value.0) == p + ReadLiteral(s).value.0;
      }
    }
  }

  lemma ReadEscapedChar(c: char, s: string)
    ensures ReadLiteral(EscapeChar(c) + s) == Push([c], ReadLiteral(s))
  {
    var e := EscapeChar(c) + s;
    if Plain(c) {
      assert e[1..] == s;
    } else {
      assert e[2..] == s;
    }
  }

  lemma ReadEscapedTag(s: string)
    ensures ReadLiteral(CLOSE_TAG_ESCAPED + s) == Push(CLOSE_TAG, ReadLiteral(s))
  {
    var tail := "script>" + s;
    ReadPlain("script>", s);
    assert CLOSE_TAG_ESCAPED + s == "<" + ("\\/" + tail);
    assert ("\\/" + tail)[2..] == tail;
    ReadPlain("<", "\\/" + tail);
    if ReadLiteral(s).Some? {
      var v := ReadLiteral(s).value.0;
      assert "<" + ("/" + ("script>" + v)) == CLOSE_TAG + v;
    }
  }

  /** The next piece of input and what the escaper writes for it. */
  function Piece(s: string): string
    requires s != []
  {
    if CLOSE_TAG <= s then CLOSE_TAG else [s[0]]
  }

  function EscapedPiece(s: string): string
    requires s != []
  {
    if CLOSE_TAG <= s then CLOSE_TAG_ESCAPED else EscapeChar(s[0])
  }

  lemma ReadEscapedPiece(s: string, tail: string)
    requires s != []
    ensures ReadLiteral(EscapedPiece(s) + tail) == Push(Piece(s), ReadLiteral(tail))
  {
    if CLOSE_TAG <= s {
      ReadEscapedTag(tail);
    } else {
      ReadEscapedChar(s[0], tail);
    }
  }

  lemma SplitPiece(s: string) returns (rest: string)
    requires s != []
    ensures s == Piece(s) + rest && |rest| < |s|
    ensures EscapeOnce(s) == EscapedPiece(s) + EscapeOnce(rest)
  {
    rest := s[|Piece(s)|..];
  }

  lemma Regroup(a: string, b: string, c: string)
    ensures (a + b) + c == a + (b + c)
  {
  }

  lemma {:induction false} ReadsBackBefore(s: string, close: string, after: string)
    requires ReadLiteral(close) == Some(("", after))
    ensures ReadLiteral(EscapeOnce(s) + close) == Some((s, after))
    decreases |s|
  {
    if s == [] {
      assert EscapeOnce(s) + close == close;
    } else {
      var rest := SplitPiece(s);
      ReadsBackBefore(rest, close, after);
      ReadEscapedPiece(s, EscapeOnce(rest) + close);
      Regroup(EscapedPiece(s), EscapeOnce(rest), close);
    }
  }

  /** Round trip: between single quotes the escaped text is read back as exactly the original, and
      the literal ends at our closing quote, whatever text follows. */
  lemma EscapedLiteralReadsBack(s: string, after: string)
    ensures ReadLiteral(Escape(s) + "'" + after) == Some((s, after))
  {
    var close := "'" + after;
    assert close[1..] == after;
    EscapeIsOnePass(s);
    ReadsBackBefore(s, close, after);
    Regroup(Escape(s), "'", after);
  }

  /** Different texts are escaped differently. */
  lemma EscapeIsInjective(s: string, t: string)
    requires Escape(s) == Escape(t)
    ensures s == t
  {
    EscapedLiteralReadsBack(s, "");
    EscapedLiteralReadsBack(t, "");
  }

  // ---------------------------------------------------------------- what the output cannot contain

  lemma {:induction false} NoRawLineBreak(s: string)
    ensures forall k :: 0 <= k < |EscapeOnce(s)| ==> EscapeOnce(s)[k] != '\n' && EscapeOnce(s)[k] != '\r'
    decreases |s|
  {
    if s == [] {
    } else if CLOSE_TAG <= s {
      NoRawLineBreak(s[|CLOSE_TAG|..]);
    } else {
      NoRawLineBreak(s[1..]);
    }
  }

  predicate HasCloseTag(s: string) {
    exists k :: 0 <= k <= |s| && CLOSE_TAG <= s[k..]
  }

  /** A prefix of plain characters other than `<` is copied by the escaper and comes only from the input. */
  lemma {:induction false} InnerPrefixKept(p: string, s: string)
    requires forall k :: 0 <= k < |p| ==> Plain(p[k]) && p[k] != '<'
    ensures p <= EscapeOnce(s) <==> p <= s
  {
    if p != [] && s != [] {
      PrefixByHead(p, s);
      PrefixByHead(p, EscapeOnce(s));
      if CLOSE_TAG <= s {
        assert s[0] == CLOSE_TAG[0];
      } else if Plain(s[0]) {
        InnerPrefixKept(p[1..], s[1..]);
        assert EscapeOnce(s)[1..] == EscapeOnce(s[1..]);
      }
    }
  }

  lemma NoTagInSum(a: string, b: string)
    requires !HasCloseTag(b)
    requires forall k :: 0 <= k < |a| ==> !(CLOSE_TAG <= (a + b)[k..])
    ensures !HasCloseTag(a + b)
  {
    forall k | 0 <= k <= |a + b| ensures !(CLOSE_TAG <= (a + b)[k..]) {
      if k >= |a| {
        assert (a + b)[k..] == b[k - |a|..];
      }
    }
  }

  lemma NoTagBehindEscaped(rest: string)
    requires !HasCloseTag(rest)
    ensures !HasCloseTag(CLOSE_TAG_ESCAPED + rest)
  {
    var e := CLOSE_TAG_ESCAPED + rest;
    assert e[0..] == e && e[1] != CLOSE_TAG[1];
    assert forall k :: 1 <= k < |CLOSE_TAG_ESCAPED| ==> CLOSE_TAG_ESCAPED[k] != '<';
    forall k | 0 <= k < |CLOSE_TAG_ESCAPED| ensures !(CLOSE_TAG <= e[k..]) {
      if k > 0 { assert e[k..][0] == CLOSE_TAG_ESCAPED[k]; }
    }
    NoTagInSum(CLOSE_TAG_ESCAPED, rest);
  }

  lemma NoTagBehindChar(s: string)
    requires s != [] && !(CLOSE_TAG <= s) && !HasCloseTag(EscapeOnce(s[1..]))
    ensures !HasCloseTag(EscapeChar(s[0]) + EscapeOnce(s[1..]))
  {
    var a, rest := EscapeChar(s[0]), EscapeOnce(s[1..]);
    forall k | 0 <= k < |a| ensures !(CLOSE_TAG <= (a + rest)[k..]) {
      assert (a + rest)[k..][0] == a[k];
      if s[0] == '<' {
        InnerPrefixKept(CLOSE_TAG[1..], s[1..]);
        PrefixByHead(CLOSE_TAG, s);
        PrefixByHead(CLOSE_TAG, a + rest);
        assert (a + rest)[1..] == rest;
      }
    }
    NoTagInSum(a, rest);
  }

  /** The output never contains the literal text `</script>`. */
  lemma {:induction false} NoCloseTag(s: string)
    ensures !HasCloseTag(EscapeOnce(s))
    decreases |s|
  {
    if s == [] {
    } else if CLOSE_TAG <= s {
      NoCloseTag(s[|CLOSE_TAG|..]);
      NoTagBehindEscaped(EscapeOnce(s[|CLOSE_TAG|..]));
    } else {
      NoCloseTag(s[1..]);
      NoTagBehindChar(s);
    }
  }

  /** Read left to right, every backslash takes the next character with it, and no quote stands alone. */
  predicate QuotesAreEscaped(s: string) {
    if s == [] then true
    else if s[0] == '\\' then |s| > 1 && QuotesAreEscaped(s[2..])
    else s[0] != '\'' && QuotesAreEscaped(s[1..])
  }

  lemma {:induction false} UnquotedPrefix(p: string, tail: string)
    requires forall k :: 0 <= k < |p| ==> Plain(p[k])
    ensures QuotesAreEscaped(p + tail) <==> QuotesAreEscaped(tail)
  {
    if p == [] {
      assert p + tail == tail;
    } else {
      assert (p + tail)[1..] == p[1..] + tail;
      UnquotedPrefix(p[1..], tail);
    }
  }

  lemma PieceEscapesQuotes(s: string, tail: string)
    requires s != []
    ensures QuotesAreEscaped(EscapedPiece(s) + tail) <==> QuotesAreEscaped(tail)
  {
    if CLOSE_TAG <= s {
      var rest := "script>" + tail;
      UnquotedPrefix("script>", tail);
      assert CLOSE_TAG_ESCAPED + tail == "<" + ("\\/" + rest);
      assert ("\\/" + rest)[2..] == rest;
      UnquotedPrefix("<", "\\/" + rest);
    } else if Plain(s[0]) {
      UnquotedPrefix([s[0]], tail);
    } else {
      assert (EscapeChar(s[0]) + tail)[2..] == tail;
    }
  }

  lemma {:induction false} NoLooseQuote(s: string)
    ensures QuotesAreEscaped(EscapeOnce(s))
    decreases |s|
  {
    if s != [] {
      var rest := SplitPiece(s);
      NoLooseQuote(rest);
      PieceEscapesQuotes(s, EscapeOnce(rest));
    }
  }

  /** The escaped text holds no raw newline or carriage return, no unescaped quote and no `</script>`. */
  lemma EscapedTextIsClean(s: string)
    ensures forall c :: c in Escape(s) ==> c != '\n' && c != '\r'
    ensures QuotesAreEscaped(Escape(s))
    ensures !HasCloseTag(Escape(s))
  {
    EscapeIsOnePass(s);
    NoRawLineBreak(s);
    NoLooseQuote(s);
    NoCloseTag(s);
  }

  // ---------------------------------------------------------------- end tags in any letter case

  /** What may follow the name of an end tag. */
  const TAG_STOPS: set<char> := {'\t', '\n', '\U{000C}', '\r', ' ', '/', '>'}

  /** Those that the escaper leaves right behind the name; a line break gets a backslash in front. */
  const KEPT_STOPS: set<char> := {'\t', '\U{000C}', ' ', '/', '>'}

  /** s starts with the lower-case text p, in any letter case, and one of the stops behind it. */
  predicate StartsWithAnyCase(p: string, s: string, stops: set<char>) {
    s != [] && if p == [] then s[0] in stops else LowerChar(s[0]) == p[0] && StartsWithAnyCase(p[1..], s[1..], stops)
  }

  lemma {:induction false} AnyCaseByPosition(p: string, s: string, stops: set<char>)
    ensures StartsWithAnyCase(p, s, stops) <==>
            |p| < |s| && s[|p|] in stops && forall k :: 0 <= k < |p| ==> LowerChar(s[k]) == p[k]
  {
    if p != [] && s != [] {
      AnyCaseByPosition(p[1..], s[1..], stops);
      assert forall k :: 0 < k < |p| ==> p[k] == p[1..][k - 1];
      assert forall k :: 0 < k < |s| ==> s[k] == s[1..][k - 1];
    }
  }

  /** The end tag of a script element: `</script` in any letter case and a stop. */
  predicate EndsScript(s: string) {
    StartsWithAnyCase("</script", s, TAG_STOPS)
  }

  predicate HasScriptEnd(s: string) {
    s != [] && (EndsScript(s) || HasScriptEnd(s[1..]))
  }

  /** An end tag with a kept stop, other than the exact text `</script>`. */
  predicate HasOtherScriptEnd(s: string) {
    s != [] && ((StartsWithAnyCase("</script", s, KEPT_STOPS) && !(CLOSE_TAG <= s)) || HasOtherScriptEnd(s[1..]))
  }

  lemma {:induction false} NoTagWithin(p: string, tail: string)
    requires '<' !in p
    ensures HasScriptEnd(p + tail) <==> HasScriptEnd(tail)
    ensures HasOtherScriptEnd(p + tail) <==> HasOtherScriptEnd(tail)
  {
    if p == [] {
      assert p + tail == tail;
    } else {
      assert (p + tail)[1..] == p[1..] + tail;
      NoTagWithin(p[1..], tail);
    }
  }

  /** The part of a tag behind its `<` is copied by the escaper and comes only from the input. */
  lemma {:induction false} InnerTagKept(p: string, s: string)
    requires forall k :: 0 <= k < |p| ==> Plain(p[k]) && p[k] != '<'
    ensures StartsWithAnyCase(p, EscapeOnce(s), TAG_STOPS) <==> StartsWithAnyCase(p, s, KEPT_STOPS)
  {
    if p != [] && s != [] && !(CLOSE_TAG <= s) && Plain(s[0]) {
      InnerTagKept(p[1..], s[1..]);
      assert EscapeOnce(s)[1..] == EscapeOnce(s[1..]);
    }
  }

  lemma ExactTagIsHidden(rest: string)
    ensures HasScriptEnd(CLOSE_TAG_ESCAPED + rest) <==> HasScriptEnd(rest)
    ensures HasOtherScriptEnd(CLOSE_TAG + rest) <==> HasOtherScriptEnd(rest)
  {
    var e, s := CLOSE_TAG_ESCAPED + rest, CLOSE_TAG + rest;
    assert e[0] == '<' && e[1] == '\\' && e[1..] == "\\/script>" + rest;
    assert "</script"[1..][0] == '/' && e[1..][0] == '\\';
    assert !StartsWithAnyCase("</script"[1..], e[1..], TAG_STOPS);
    assert s[1..] == "/script>" + rest;
    NoTagWithin("\\/script>", rest);
    NoTagWithin("/script>", rest);
  }

  lemma {:induction false} ScriptEndSurvivesInOnePass(s: string)
    ensures HasScriptEnd(EscapeOnce(s)) <==> HasOtherScriptEnd(s)
    decreases |s|
  {
    if s == [] {
    } else if CLOSE_TAG <= s {
      var rest := s[|CLOSE_TAG|..];
      assert s == CLOSE_TAG + rest;
      ScriptEndSurvivesInOnePass(rest);
      ExactTagIsHidden(EscapeOnce(rest));
      ExactTagIsHidden(rest);
    } else {
      var rest := EscapeOnce(s[1..]);
      ScriptEndSurvivesInOnePass(s[1..]);
      if s[0] == '<' {
        assert EscapeOnce(s) == "<" + rest && ("<" + rest)[1..] == rest;
        InnerTagKept("/script", s[1..]);
        assert "</script"[1..] == "/script";
      } else {
        NoTagWithin(EscapeChar(s[0]), rest);
      }
    }
  }

  /** Which inputs leave a script end tag in the output: exactly those that hold `</script` in any letter
      case with a tab, form feed, space, slash or `>` behind it and not as the exact text `</script>`,
      such as `</SCRIPT>` or `</script >`. */
  lemma ScriptEndSurvivesIff(s: string)
    ensures HasScriptEnd(Escape(s)) <==> HasOtherScriptEnd(s)
  {
    EscapeIsOnePass(s);
    ScriptEndSurvivesInOnePass(s);
  }
}

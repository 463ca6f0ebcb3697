/** Subject normalisation for e-mail threading (internal/modules/email/domain/message.go:58-74).
    Lower-casing matters only for the ASCII letters of the prefixes: no other character
    lower-cases to r, e, f, w or d. */
module Subject {
  import opened Ascii

  /** unicode.IsSpace. */
  predicate IsSpace(c: char) {
    || '\t' <= c <= '\r' || c == ' ' || c == '\U{0085}' || c == '\U{00A0}' || c == '\U{1680}'
    || '\U{2000}' <= c <= '\U{200A}' || c == '\U{2028}' || c == '\U{2029}' || c == '\U{202F}'
    || c == '\U{205F}' || c == '\U{3000}'
  }

  function TrimLeft(s: string): string {
    if s != [] && IsSpace(s[0]) then TrimLeft(s[1..]) else s
  }

  function TrimRight(s: string): string {
    if s != [] && IsSpace(s[|s| - 1]) then TrimRight(s[..|s| - 1]) else s
  }

  function TrimSpace(s: string): string {
    TrimRight(TrimLeft(s))
  }

  function Lower(s: string): string {
    seq(|s|, k requires 0 <= k < |s| => LowerChar(s[k]))
  }

  /** Length of the reply or forward prefix the text starts with, 0 if none. */
  function PrefixLength(s: string): (n: nat)
    ensures n <= |s|
  {
    var lower := Lower(s);
    if "re: " <= lower then 4 else if "fwd: " <= lower then 5 else if "fw: " <= lower then 4 else 0
  }

  lemma {:induction false} TrimLeftLength(s: string)
    ensures |TrimLeft(s)| <= |s|
  {
    if s != [] && IsSpace(s[0]) { TrimLeftLength(s[1..]); }
  }

  lemma {:induction false} TrimRightLength(s: string)
    ensures |TrimRight(s)| <= |s|
  {
    if s != [] && IsSpace(s[|s| - 1]) { TrimRightLength(s[..|s| - 1]); }
  }

  lemma TrimLength(s: string)
    ensures |TrimSpace(s)| <= |s|
  {
    TrimLeftLength(s);
    TrimRightLength(TrimLeft(s));
  }

  /** The loop of NormalizeSubject, as a function of its variable. */
  function Strip(s: string): string
    decreases |s|
  {
    var n := PrefixLength(s);
    if n == 0 then s
    else
      TrimLength(s[n..]);
      Strip(TrimSpace(s[n..]))
  }

  function Normalized(s: string): string {
    Strip(TrimSpace(s))
  }

  method NormalizeSubject(subject: string) returns (s: string)
    ensures s == Normalized(subject)
    ensures Trimmed(s) && PrefixLength(s) == 0
  {
    s := TrimSpace(subject);
    TrimIsTrimmed(subject);
    while true
      invariant Strip(s) == Normalized(subject) && Trimmed(s)
      decreases |s|
    {
      var lower := Lower(s);
      ghost var before := s;
      if "re: " <= lower {
        s := TrimSpace(s[4..]);
      } else if "fwd: " <= lower {
        s := TrimSpace(s[5..]);
      } else if "fw: " <= lower {
        s := TrimSpace(s[4..]);
      } else {
        return;
      }
      TrimIsTrimmed(before[PrefixLength(before)..]);
      TrimLength(before[PrefixLength(before)..]);
    }
  }

  // ---------------------------------------------------------------- what it guarantees

  predicate Trimmed(s: string) {
    s == [] || (!IsSpace(s[0]) && !IsSpace(s[|s| - 1]))
  }

  predicate HasText(s: string) {
    exists k :: 0 <= k < |s| && !IsSpace(s[k])
  }

  lemma {:induction false} TrimLeftStarts(s: string)
    ensures TrimLeft(s) == [] || !IsSpace(TrimLeft(s)[0])
  {
    if s != [] && IsSpace(s[0]) { TrimLeftStarts(s[1..]); }
  }

  lemma {:induction false} TrimRightEnds(s: string)
    ensures var t := TrimRight(s);
            (t == [] || !IsSpace(t[|t| - 1])) && t <= s
  {
    if s != [] && IsSpace(s[|s| - 1]) { TrimRightEnds(s[..|s| - 1]); }
  }

  lemma TrimIsTrimmed(s: string)
    ensures Trimmed(TrimSpace(s))
  {
    TrimLeftStarts(s);
    TrimRightEnds(TrimLeft(s));
  }

  lemma TrimOfTrimmed(s: string)
    requires Trimmed(s)
    ensures TrimSpace(s) == s
  {
  }

  lemma {:induction false} StripFacts(s: string)
    requires Trimmed(s)
    ensures Trimmed(Strip(s)) && PrefixLength(Strip(s)) == 0
    decreases |s|
  {
    var n := PrefixLength(s);
    if n > 0 {
      TrimLength(s[n..]);
      TrimIsTrimmed(s[n..]);
      StripFacts(TrimSpace(s[n..]));
    }
  }

  /** The result is trimmed, starts with no reply or forward prefix, and is its own normal form. */
  lemma NormalizeIsIdempotent(s: string)
    ensures Trimmed(Normalized(s)) && PrefixLength(Normalized(s)) == 0
    ensures Normalized(Normalized(s)) == Normalized(s)
  {
    TrimIsTrimmed(s);
    StripFacts(TrimSpace(s));
    TrimOfTrimmed(Normalized(s));
  }

  /** The word with any of its small letters made capital. */
  predicate InAnyCase(p: string, word: string) {
    && |p| == |word|
    && forall k :: 0 <= k < |word| ==>
         p[k] == word[k] || ('a' <= word[k] <= 'z' && p[k] as int == word[k] as int - 'a' as int + 'A' as int)
  }

  /** A prefix in any mix of case. */
  predicate IsPrefix(p: string) {
    InAnyCase(p, "re: ") || InAnyCase(p, "fwd: ") || InAnyCase(p, "fw: ")
  }

  lemma LowerUndoesCase(p: string, word: string)
    requires forall k :: 0 <= k < |word| ==> word[k] < 'A' || 'a' <= word[k] <= 'z'
    ensures InAnyCase(p, word) <==> Lower(p) == word
  {
    if Lower(p) == word {
      forall k | 0 <= k < |word| ensures p[k] == word[k] || p[k] as int == word[k] as int - 'a' as int + 'A' as int {
        assert LowerChar(p[k]) == word[k];
      }
    }
  }

  lemma PrefixIffLower(p: string)
    ensures IsPrefix(p) <==> Lower(p) in {"re: ", "fwd: ", "fw: "}
  {
    LowerUndoesCase(p, "re: ");
    LowerUndoesCase(p, "fwd: ");
    LowerUndoesCase(p, "fw: ");
  }

  lemma {:induction false} TrimRightAppend(p: string, s: string)
    requires HasText(s)
    ensures TrimRight(p + s) == p + TrimRight(s)
    decreases |s|
  {
    var n := |s| - 1;
    assert (p + s)[|p + s| - 1] == s[n];
    if IsSpace(s[n]) {
      var k :| 0 <= k < |s| && !IsSpace(s[k]);
      assert s[..n][k] == s[k];
      TrimRightAppend(p, s[..n]);
      assert (p + s)[..|p + s| - 1] == p + s[..n];
    }
  }

  lemma {:induction false} TrimCommutes(s: string)
    ensures TrimLeft(TrimRight(s)) == TrimRight(TrimLeft(s))
    decreases |s|
  {
    if s != [] && IsSpace(s[0]) {
      if HasText(s[1..]) {
        TrimRightAppend([s[0]], s[1..]);
        assert [s[0]] + s[1..] == s;
        TrimCommutes(s[1..]);
        assert ([s[0]] + TrimRight(s[1..]))[1..] == TrimRight(s[1..]);
      } else {
        AllSpace(s);
        AllSpace(s[1..]);
      }
    } else if s != [] {
      TrimRightEnds(s);
      if TrimRight(s) != [] { assert TrimRight(s)[0] == s[0]; }
    }
  }

  lemma {:induction false} AllSpace(s: string)
    requires forall k :: 0 <= k < |s| ==> IsSpace(s[k])
    ensures TrimLeft(s) == [] && TrimRight(s) == []
  {
    if s != [] {
      AllSpace(s[1..]);
      AllSpace(s[..|s| - 1]);
    }
  }

  lemma PrefixIsStripped(p: string, s: string)
    requires IsPrefix(p)
    ensures PrefixLength(p + s) == |p|
    ensures !IsSpace(p[0]) && p != []
  {
    PrefixIffLower(p);
    assert |Lower(p)| == |p|;
    assert Lower(p + s) == Lower(p) + Lower(s);
    assert LowerChar(p[0]) == Lower(p)[0];
    var lower := Lower(p + s);
    assert Lower(p) <= lower;
    assert "re: " <= lower ==> lower[0] == 'r';
    assert "fwd: " <= lower ==> lower[2] == 'd';
  }

  /** Some stretch at the start is a reply or forward prefix in some case. */
  predicate StartsWithPrefix(s: string) {
    exists n :: 0 <= n <= |s| && IsPrefix(s[..n])
  }

  lemma NoPrefixIffLengthZero(s: string)
    ensures PrefixLength(s) == 0 <==> !StartsWithPrefix(s)
  {
    if StartsWithPrefix(s) {
      var n :| 0 <= n <= |s| && IsPrefix(s[..n]);
      PrefixIsStripped(s[..n], s[n..]);
      assert s[..n] + s[n..] == s;
    }
    var n := PrefixLength(s);
    if n > 0 {
      var lower := Lower(s);
      PrefixIffLower(s[..n]);
      assert Lower(s[..n]) == lower[..n];
      assert "re: " <= lower ==> lower[..4] == "re: ";
      assert "fwd: " <= lower ==> lower[..5] == "fwd: ";
      assert "fw: " <= lower ==> lower[..4] == "fw: ";
    }
  }

  /** The subjects left alone are exactly the trimmed ones that start with no reply or forward prefix. */
  lemma NormalIffUnprefixed(s: string)
    ensures Normalized(s) == s <==> Trimmed(s) && !StartsWithPrefix(s)
  {
    NoPrefixIffLengthZero(s);
    NormalizeIsIdempotent(s);
    if Trimmed(s) { TrimOfTrimmed(s); }
  }

  /** One prefix in front makes no difference exactly when there is text behind it: "Re: " in front of
      a blank subject leaves "re:" standing. */
  lemma OnePrefixIgnoredIff(p: string, s: string)
    requires IsPrefix(p)
    ensures Normalized(p + s) == Normalized(s) <==> HasText(s)
  {
    PrefixIsStripped(p, TrimRight(s));
    assert TrimLeft(p + s) == p + s;
    if HasText(s) {
      TrimRightAppend(p, s);
      assert (p + TrimRight(s))[|p|..] == TrimRight(s);
      TrimOfRight(s);
      TrimLength(TrimRight(s));
    } else {
      AllSpace(s);
      BlankReply(p, s);
    }
  }

  lemma TrimOfRight(s: string)
    ensures TrimSpace(TrimRight(s)) == TrimSpace(s)
  {
    TrimCommutes(s);
    TrimRightEnds(TrimLeft(s));
  }

  lemma {:induction false} DropSpaces(p: string, s: string)
    requires forall k :: 0 <= k < |s| ==> IsSpace(s[k])
    ensures TrimRight(p + s) == TrimRight(p)
    decreases |s|
  {
    if s == [] {
      assert p + s == p;
    } else {
      DropSpaces(p, s[..|s| - 1]);
      assert (p + s)[..|p + s| - 1] == p + s[..|s| - 1];
    }
  }

  lemma BlankReply(p: string, s: string)
    requires IsPrefix(p) && !HasText(s)
    ensures Normalized(p + s) == p[..|p| - 1] && p[..|p| - 1] != [] && Normalized(s) == []
  {
    PrefixIffLower(p);
    AllSpace(s);
    DropSpaces(p, s);
    var q := p[..|p| - 1];
    assert |Lower(p)| == |p| && LowerChar(p[0]) == Lower(p)[0];
    assert LowerChar(p[|p| - 1]) == Lower(p)[|p| - 1] == ' ';
    assert LowerChar(p[|p| - 2]) == Lower(p)[|p| - 2] == ':';
    assert TrimRight(p) == q;
    assert TrimLeft(p + s) == p + s;
    assert Lower(q) == Lower(p)[..|p| - 1];
    assert PrefixLength(q) == 0;
  }

  function Stack(prefixes: seq<string>, s: string): string {
    if prefixes == [] then s else prefixes[0] + Stack(prefixes[1..], s)
  }

  lemma {:induction false} StackHasText(prefixes: seq<string>, s: string)
    requires HasText(s)
    ensures HasText(Stack(prefixes, s))
  {
    if prefixes != [] {
      StackHasText(prefixes[1..], s);
      var t := Stack(prefixes[1..], s);
      var k :| 0 <= k < |t| && !IsSpace(t[k]);
      assert (prefixes[0] + t)[|prefixes[0]| + k] == t[k];
    }
  }

  /** Any stack of reply and forward prefixes, in any case, in front of a subject with text in it
      normalises to the same subject, so replies land in the original thread. */
  lemma {:induction false} StackIsIgnored(prefixes: seq<string>, s: string)
    requires HasText(s) && forall k :: 0 <= k < |prefixes| ==> IsPrefix(prefixes[k])
    ensures Normalized(Stack(prefixes, s)) == Normalized(s)
  {
    if prefixes != [] {
      StackIsIgnored(prefixes[1..], s);
      StackHasText(prefixes[1..], s);
      OnePrefixIgnoredIff(prefixes[0], Stack(prefixes[1..], s));
    }
  }

  /** Surrounding white space makes no difference either. */
  lemma PaddingIsIgnored(s: string)
    ensures Normalized(TrimSpace(s)) == Normalized(s)
  {
    TrimIsTrimmed(s);
    TrimOfTrimmed(TrimSpace(s));
  }
}

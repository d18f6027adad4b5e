/** Text operations of Python's `str` that the modelled code relies on.
    Characters are Unicode code points; case mapping is the ASCII one. */
module Strings {

  /** `sep.join(parts)`. */
  function Join(parts: seq<string>, sep: string): string
    decreases |parts|
  {
    if |parts| == 0 then ""
    else if |parts| == 1 then parts[0]
    else parts[0] + sep + Join(parts[1..], sep)
  }

  /** Joining one more part adds exactly the separator and that part. */
  lemma {:induction false} JoinSnoc(parts: seq<string>, p: string, sep: string)
    requires |parts| > 0
    ensures Join(parts + [p], sep) == Join(parts, sep) + sep + p
    decreases |parts|
  {
    if |parts| == 1 {
      assert (parts + [p])[1..] == [p];
    } else {
      assert (parts + [p])[1..] == parts[1..] + [p];
      JoinSnoc(parts[1..], p, sep);
    }
  }

  predicate IsPrefix(p: string, s: string) {
    |p| <= |s| && s[..|p|] == p
  }

  /** Python's `sub in s`. */
  predicate Contains(s: string, sub: string)
    decreases |s|
  {
    IsPrefix(sub, s) || (|s| > 0 && Contains(s[1..], sub))
  }

  /** `sub` occurs in `s` starting at index `i`. */
  predicate OccursAt(s: string, sub: string, i: int) {
    0 <= i <= |s| - |sub| && s[i..i + |sub|] == sub
  }

  /** `Contains` is exactly "some slice of `s` equals `sub`". */
  lemma {:induction false} ContainsIffOccurs(s: string, sub: string)
    ensures Contains(s, sub) <==> exists i :: OccursAt(s, sub, i)
    decreases |s|
  {
    if IsPrefix(sub, s) {
      assert OccursAt(s, sub, 0);
    } else if |s| == 0 {
    } else {
      ContainsIffOccurs(s[1..], sub);
      if Contains(s[1..], sub) {
        var i :| OccursAt(s[1..], sub, i);
        assert s[i + 1..i + 1 + |sub|] == s[1..][i..i + |sub|];
        assert OccursAt(s, sub, i + 1);
      }
      if exists i :: OccursAt(s, sub, i) {
        var i :| OccursAt(s, sub, i);
        assert i != 0;
        assert s[1..][i - 1..i - 1 + |sub|] == s[i..i + |sub|];
        assert OccursAt(s[1..], sub, i - 1);
      }
    }
  }

  /** A text shorter than `sub` does not contain it. */
  lemma {:induction false} ShortNotContains(s: string, sub: string)
    requires |s| < |sub|
    ensures !Contains(s, sub)
    decreases |s|
  {
    if |s| > 0 {
      ShortNotContains(s[1..], sub);
    }
  }

  function LowerChar(c: char): char {
    if 'A' <= c <= 'Z' then (c as int + 32) as char else c
  }

  function UpperChar(c: char): char {
    if 'a' <= c <= 'z' then (c as int - 32) as char else c
  }

  /** `s.lower()` on ASCII letters. */
  function Lower(s: string): string {
    seq(|s|, i requires 0 <= i < |s| => LowerChar(s[i]))
  }

  /** `s.upper()` on ASCII letters. */
  function Upper(s: string): string {
    seq(|s|, i requires 0 <= i < |s| => UpperChar(s[i]))
  }

  /** `s.capitalize()`: the first character upper-cased, the rest lower-cased. */
  function Capitalize(s: string): string {
    if |s| == 0 then "" else [UpperChar(s[0])] + Lower(s[1..])
  }

  /** The characters that Python's argument-less `strip()` removes: those for which
      `str.isspace()` holds. */
  predicate IsSpace(c: char) {
    c == ' ' || ('\t' <= c <= '\r') || ('\U{1C}' <= c <= '\U{1F}') ||
    c == '\U{85}' || c == '\U{A0}' || c == '\U{1680}' || ('\U{2000}' <= c <= '\U{200A}') ||
    c == '\U{2028}' || c == '\U{2029}' || c == '\U{202F}' || c == '\U{205F}' || c == '\U{3000}'
  }

  /** `s.lstrip()`: drops the leading whitespace and nothing else. */
  function TrimStart(s: string): (r: string)
    ensures |r| <= |s| && r == s[|s| - |r|..]
    ensures forall k :: 0 <= k < |s| - |r| ==> IsSpace(s[k])
    ensures r == [] || !IsSpace(r[0])
    decreases |s|
  {
    if |s| > 0 && IsSpace(s[0]) then TrimStart(s[1..]) else s
  }

  /** `s.rstrip()`: drops the trailing whitespace and nothing else. */
  function TrimEnd(s: string): (r: string)
    ensures IsPrefix(r, s)
    ensures forall k :: |r| <= k < |s| ==> IsSpace(s[k])
    ensures r == [] || !IsSpace(r[|r| - 1])
    decreases |s|
  {
    if |s| > 0 && IsSpace(s[|s| - 1]) then TrimEnd(s[..|s| - 1]) else s
  }

  /** `s.strip()`. */
  function Strip(s: string): (r: string)
    ensures r == [] || (!IsSpace(r[0]) && !IsSpace(r[|r| - 1]))
  {
    TrimEnd(TrimStart(s))
  }

  /** `s.strip()` is the part of `s` between its leading and its trailing whitespace: only
      whitespace is removed, and only at the two ends. */
  lemma StripIsSlice(s: string)
    ensures exists i, j :: (0 <= i <= j <= |s| && Strip(s) == s[i..j] &&
      (forall k :: 0 <= k < i ==> IsSpace(s[k])) && (forall k :: j <= k < |s| ==> IsSpace(s[k])))
  {
    StripSlice(s, TrimStart(s), Strip(s));
  }

  /** Whitespace after `i`, then a prefix `r` of `t == s[i..]` followed by whitespace: `r` is
      the slice of `s` between its leading and its trailing whitespace. */
  lemma StripSlice(s: string, t: string, r: string)
    requires |t| <= |s| && t == s[|s| - |t|..] && forall k :: 0 <= k < |s| - |t| ==> IsSpace(s[k])
    requires IsPrefix(r, t) && forall k :: |r| <= k < |t| ==> IsSpace(t[k])
    ensures exists i, j :: (0 <= i <= j <= |s| && r == s[i..j] &&
      (forall k :: 0 <= k < i ==> IsSpace(s[k])) && (forall k :: j <= k < |s| ==> IsSpace(s[k])))
  {
    var i := |s| - |t|;
    assert r == s[i..i + |r|];
    forall k | i + |r| <= k < |s|
      ensures IsSpace(s[k])
    {
      assert s[k] == t[k - i];
    }
  }

  /** Python's `strip()` also removes non-ASCII whitespace: a vote written with a trailing
      no-break space names the contestant. */
  lemma StripNoBreakSpace()
    ensures Strip("Alice\U{A0}") == "Alice"
  {
    var s := "Alice\U{A0}";
    assert !IsSpace(s[0]);
    assert TrimStart(s) == s;
    assert IsSpace(s[5]) && s[..5] == "Alice";
    assert !IsSpace('e');
    assert TrimEnd("Alice") == "Alice";
  }

  /** `s.rstrip(chars)`: drops every trailing character that occurs in `chars`. */
  function RStrip(s: string, chars: string): string
    decreases |s|
  {
    if |s| > 0 && s[|s| - 1] in chars then RStrip(s[..|s| - 1], chars) else s
  }

  /** Appending only characters of `chars` to a text that does not end in one of them
      is undone by `RStrip`. */
  lemma {:induction false} RStripDropsTail(s: string, tail: string, chars: string)
    requires s == [] || s[|s| - 1] !in chars
    requires forall i :: 0 <= i < |tail| ==> tail[i] in chars
    ensures RStrip(s + tail, chars) == s
    decreases |tail|
  {
    if |tail| == 0 {
      assert s + tail == s;
    } else {
      assert (s + tail)[..|s + tail| - 1] == s + tail[..|tail| - 1];
      RStripDropsTail(s, tail[..|tail| - 1], chars);
    }
  }

  function DigitChar(d: nat): char
    requires d < 10
  {
    "0123456789"[d]
  }

  /** `str(n)` for a natural number. */
  function NatToString(n: nat): string
    decreases n
  {
    if n < 10 then [DigitChar(n)] else NatToString(n / 10) + [DigitChar(n % 10)]
  }

  /** `str(i)` for an integer. */
  function IntToString(i: int): string {
    if i < 0 then "-" + NatToString(-i) else NatToString(i)
  }

  /** `s.replace(pat, rep)` for a non-empty `pat`: leftmost, non-overlapping occurrences. */
  function ReplaceAll(s: string, pat: string, rep: string): string
    requires |pat| > 0
    decreases |s|
  {
    if |s| < |pat| then s
    else if s[..|pat|] == pat then rep + ReplaceAll(s[|pat|..], pat, rep)
    else [s[0]] + ReplaceAll(s[1..], pat, rep)
  }

  /** `s.split(pat)` for a non-empty `pat`. */
  function Split(s: string, pat: string): (parts: seq<string>)
    requires |pat| > 0
    ensures |parts| > 0
    decreases |s|
  {
    if |s| < |pat| then [s]
    else if s[..|pat|] == pat then [""] + Split(s[|pat|..], pat)
    else var rest := Split(s[1..], pat); [[s[0]] + rest[0]] + rest[1..]
  }

  lemma JoinCons(a: string, parts: seq<string>, sep: string)
    requires |parts| > 0
    ensures Join([a] + parts, sep) == a + sep + Join(parts, sep)
  {
    assert ([a] + parts)[1..] == parts;
  }

  lemma JoinExtendHead(c: string, parts: seq<string>, sep: string)
    requires |parts| > 0
    ensures Join([c + parts[0]] + parts[1..], sep) == c + Join(parts, sep)
  {
    if |parts| > 1 {
      JoinCons(c + parts[0], parts[1..], sep);
    }
  }

  /** Rejoining the pieces with the pattern gives back the text. */
  lemma {:induction false} JoinSplit(s: string, pat: string)
    requires |pat| > 0
    ensures Join(Split(s, pat), pat) == s
    decreases |s|
  {
    if |s| < |pat| {
    } else if s[..|pat|] == pat {
      var rest := Split(s[|pat|..], pat);
      assert Split(s, pat) == [""] + rest;
      JoinSplit(s[|pat|..], pat);
      JoinCons("", rest, pat);
      assert s == s[..|pat|] + s[|pat|..];
    } else {
      var rest := Split(s[1..], pat);
      assert Split(s, pat) == [[s[0]] + rest[0]] + rest[1..];
      JoinSplit(s[1..], pat);
      JoinExtendHead([s[0]], rest, pat);
      assert s == [s[0]] + s[1..];
    }
  }

  /** Python's identity `s.replace(pat, rep) == rep.join(s.split(pat))`. */
  lemma {:induction false} ReplaceIsJoinOfSplit(s: string, pat: string, rep: string)
    requires |pat| > 0
    ensures ReplaceAll(s, pat, rep) == Join(Split(s, pat), rep)
    decreases |s|
  {
    if |s| < |pat| {
    } else if s[..|pat|] == pat {
      ReplaceIsJoinOfSplit(s[|pat|..], pat, rep);
      JoinCons("", Split(s[|pat|..], pat), rep);
    } else {
      ReplaceIsJoinOfSplit(s[1..], pat, rep);
      JoinExtendHead([s[0]], Split(s[1..], pat), rep);
    }
  }

  lemma {:induction false} SplitHeadIsPrefix(s: string, pat: string)
    requires |pat| > 0
    ensures IsPrefix(Split(s, pat)[0], s)
    decreases |s|
  {
    if |s| < |pat| {
    } else if s[..|pat|] == pat {
    } else {
      SplitHeadIsPrefix(s[1..], pat);
    }
  }

  /** No piece of the split contains the pattern, so `ReplaceAll` leaves no occurrence
      of `pat` from `s` behind. */
  lemma {:induction false} SplitPartsAreFree(s: string, pat: string)
    requires |pat| > 0
    ensures forall i :: 0 <= i < |Split(s, pat)| ==> !Contains(Split(s, pat)[i], pat)
    decreases |s|
  {
    var parts := Split(s, pat);
    if |s| < |pat| {
      ShortNotContains(s, pat);
    } else if s[..|pat|] == pat {
      SplitPartsAreFree(s[|pat|..], pat);
      assert !Contains("", pat) by { ShortNotContains("", pat); }
      assert parts[1..] == Split(s[|pat|..], pat);
    } else {
      var rest := Split(s[1..], pat);
      SplitPartsAreFree(s[1..], pat);
      SplitHeadIsPrefix(s[1..], pat);
      var head := [s[0]] + rest[0];
      assert head[1..] == rest[0];
      assert !IsPrefix(pat, head);
      assert parts[0] == head;
      assert forall i :: 1 <= i < |parts| ==> parts[i] == rest[i];
    }
  }

  /** If `pat` does not occur, the text is left as it is. */
  lemma {:induction false} ReplaceAbsent(s: string, pat: string, rep: string)
    requires |pat| > 0
    requires !Contains(s, pat)
    ensures ReplaceAll(s, pat, rep) == s
    decreases |s|
  {
    if |s| >= |pat| {
      assert s[..|pat|] != pat;
      ReplaceAbsent(s[1..], pat, rep);
    }
  }
}

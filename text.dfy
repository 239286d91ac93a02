/** The string primitives the core relies on, with Python's meaning:
    str.strip, str.startswith/endswith, `in` on strings, str.lower,
    str.replace, str.join, str.find and str.rfind. */
module Text {

  /** Python's str.isspace(); it is also the set `\s` matches in a str pattern. */
  predicate IsSpace(c: char) {
    || ('\t' <= c <= '\r')
    || ('\U{1C}' <= c <= ' ')
    || c == '\U{85}' || c == '\U{A0}' || c == '\U{1680}'
    || ('\U{2000}' <= c <= '\U{200A}')
    || c == '\U{2028}' || c == '\U{2029}' || c == '\U{202F}' || c == '\U{205F}' || c == '\U{3000}'
  }

  /** No leading and no trailing white space. */
  predicate IsStripped(s: string) {
    s == [] || (!IsSpace(s[0]) && !IsSpace(s[|s| - 1]))
  }

  /** Drops the leading white space: a suffix of s. */
  function TrimStart(s: string): (r: string)
    ensures |r| <= |s| && r == s[|s| - |r|..]
    ensures r == [] || !IsSpace(r[0])
  {
    if s != [] && IsSpace(s[0]) then TrimStart(s[1..]) else s
  }

  /** What TrimStart drops is white space. */
  lemma {:induction false} TrimStartDropsSpaces(s: string)
    ensures forall i :: 0 <= i < |s| - |TrimStart(s)| ==> IsSpace(s[i])
  {
    if s != [] && IsSpace(s[0]) {
      TrimStartDropsSpaces(s[1..]);
      assert forall i :: 1 <= i < |s| ==> s[i] == s[1..][i - 1];
    }
  }

  /** Drops the trailing white space: a prefix of s. */
  function TrimEnd(s: string): (r: string)
    ensures |r| <= |s| && r == s[..|r|]
    ensures r == [] || !IsSpace(r[|r| - 1])
  {
    if s != [] && IsSpace(s[|s| - 1]) then TrimEnd(s[..|s| - 1]) else s
  }

  /** What TrimEnd drops is white space. */
  lemma {:induction false} TrimEndDropsSpaces(s: string)
    ensures forall i :: |TrimEnd(s)| <= i < |s| ==> IsSpace(s[i])
  {
    if s != [] && IsSpace(s[|s| - 1]) {
      TrimEndDropsSpaces(s[..|s| - 1]);
    }
  }

  /** str.strip() with no argument. */
  function Strip(s: string): (r: string)
    ensures IsStripped(r) && |r| <= |s|
  {
    TrimEnd(TrimStart(s))
  }

  /** Stripping a string that has no surrounding white space changes nothing. */
  lemma StripStripped(s: string)
    requires IsStripped(s)
    ensures Strip(s) == s
  {
  }

  lemma TrimStartSpace(c: char, t: string)
    requires IsSpace(c)
    ensures TrimStart([c] + t) == TrimStart(t)
  {
    assert ([c] + t)[1..] == t;
  }

  lemma TrimEndSpace(t: string, c: char)
    requires IsSpace(c)
    ensures TrimEnd(t + [c]) == TrimEnd(t)
  {
    assert (t + [c])[..|t|] == t;
  }

  /** One white-space character on each side of a stripped string is removed by strip. */
  lemma StripPadded(b: string, c1: char, c2: char)
    requires IsStripped(b) && IsSpace(c1) && IsSpace(c2)
    ensures Strip([c1] + b + [c2]) == b
  {
    var tail := b + [c2];
    assert [c1] + b + [c2] == [c1] + tail;
    TrimStartSpace(c1, tail);
    TrimStartPadded(b, c2);
    if b == [] {
      assert TrimEnd([]) == [];
    } else {
      TrimEndSpace(b, c2);
    }
  }

  /** A trailing white-space character does not change where the leading white space of a stripped string ends. */
  lemma TrimStartPadded(b: string, c: char)
    requires IsStripped(b) && IsSpace(c)
    ensures TrimStart(b + [c]) == (if b == [] then [] else b + [c])
  {
    if b == [] {
      assert b + [c] == [c] + [];
      TrimStartSpace(c, []);
    } else {
      assert (b + [c])[0] == b[0];
    }
  }

  predicate StartsWith(s: string, prefix: string) {
    |prefix| <= |s| && s[..|prefix|] == prefix
  }

  predicate EndsWith(s: string, suffix: string) {
    |suffix| <= |s| && s[|s| - |suffix|..] == suffix
  }

  /** Python's `t in s` for strings: t occurs in s as a contiguous substring. */
  predicate Contains(s: string, t: string) {
    exists i :: 0 <= i <= |s| && OccursAt(s, t, i)
  }

  /** t stands in s starting at index i. */
  predicate OccursAt(s: string, t: string, i: nat) {
    i + |t| <= |s| && s[i..i + |t|] == t
  }

  /** A substring of s is a substring of anything s is embedded in. */
  lemma ContainsInside(p: string, s: string, q: string, t: string)
    requires Contains(s, t)
    ensures Contains(p + s + q, t)
  {
    var i :| 0 <= i <= |s| && OccursAt(s, t, i);
    var w := p + s + q;
    assert w[|p| + i..|p| + i + |t|] == s[i..i + |t|];
    assert OccursAt(w, t, |p| + i);
  }

  /** Every string contains itself. */
  lemma ContainsSelf(s: string)
    ensures Contains(s, s)
  {
    assert OccursAt(s, s, 0);
  }

  /** The empty string contains only the empty string. */
  lemma ContainsInEmpty(t: string)
    ensures Contains("", t) <==> t == ""
  {
    if t == "" {
      assert OccursAt("", t, 0);
    }
  }

  /** str.lower() on one character: ASCII and Latin-1 capitals (including
      the Spanish Á, É, Í, Ó, Ú, Ü and Ñ) map to their small letters. */
  function LowerChar(c: char): (r: char)
    ensures ('A' <= c <= 'Z') ==> r as int == c as int + 32
    ensures !('A' <= c <= 'Z') && !('\U{C0}' <= c <= '\U{DE}') ==> r == c
  {
    if 'A' <= c <= 'Z' || ('\U{C0}' <= c <= '\U{DE}' && c != '\U{D7}') then (c as int + 32) as char else c
  }

  /** str.lower(): character by character, so the length is kept. */
  function Lower(s: string): (r: string)
    ensures |r| == |s|
    ensures forall i :: 0 <= i < |s| ==> r[i] == LowerChar(s[i])
  {
    seq(|s|, i requires 0 <= i < |s| => LowerChar(s[i]))
  }

  /** A pattern in the tail of s is a pattern in s. */
  lemma ContainsInTail(s: string, t: string)
    requires s != []
    ensures Contains(s[1..], t) ==> Contains(s, t)
  {
    if Contains(s[1..], t) {
      ContainsInside([s[0]], s[1..], "", t);
      assert [s[0]] + s[1..] + "" == s;
    }
  }

  /** str.replace(pat, repl): every non-overlapping occurrence, scanning left to
      right. A string without the pattern, or a pattern replaced by itself, is
      left as it is. */
  function ReplaceAll(s: string, pat: string, repl: string): (r: string)
    requires pat != []
    ensures !Contains(s, pat) ==> r == s
    ensures repl == pat ==> r == s
    decreases |s|
  {
    if |s| < |pat| then s
    else if s[..|pat|] == pat then
      assert OccursAt(s, pat, 0);
      assert s[..|pat|] + s[|pat|..] == s;
      repl + ReplaceAll(s[|pat|..], pat, repl)
    else
      ContainsInTail(s, pat);
      [s[0]] + ReplaceAll(s[1..], pat, repl)
  }

  /** Replacing by a string at least as long never shortens. */
  lemma {:induction false} ReplaceAllGrows(s: string, pat: string, repl: string)
    requires pat != [] && |repl| >= |pat|
    ensures |ReplaceAll(s, pat, repl)| >= |s|
    decreases |s|
  {
    if |s| < |pat| {
    } else if s[..|pat|] == pat {
      ReplaceAllGrows(s[|pat|..], pat, repl);
    } else {
      ReplaceAllGrows(s[1..], pat, repl);
    }
  }

  /** A string holding the pattern holds the replacement once the pattern is replaced. */
  lemma {:induction false} ReplaceAllContainsReplacement(s: string, pat: string, repl: string)
    requires pat != [] && Contains(s, pat)
    ensures Contains(ReplaceAll(s, pat, repl), repl)
    decreases |s|
  {
    var i :| 0 <= i <= |s| && OccursAt(s, pat, i);
    assert |pat| <= |s|;
    if s[..|pat|] == pat {
      var rest := ReplaceAll(s[|pat|..], pat, repl);
      assert ReplaceAll(s, pat, repl) == repl + rest;
      ContainsSelf(repl);
      ContainsInside("", repl, rest, repl);
      assert "" + repl + rest == repl + rest;
    } else {
      assert i > 0;
      assert s[1..][i - 1..i - 1 + |pat|] == s[i..i + |pat|];
      assert OccursAt(s[1..], pat, i - 1);
      var rest := ReplaceAll(s[1..], pat, repl);
      assert ReplaceAll(s, pat, repl) == [s[0]] + rest;
      ReplaceAllContainsReplacement(s[1..], pat, repl);
      ContainsInside([s[0]], rest, "", repl);
      assert [s[0]] + rest + "" == [s[0]] + rest;
    }
  }

  /** The combined length of the parts. */
  function TotalLength(parts: seq<string>): nat {
    if parts == [] then 0 else |parts[0]| + TotalLength(parts[1..])
  }

  /** sep.join(parts): the parts and one separator between each two of them. */
  function Join(parts: seq<string>, sep: string): (r: string)
    ensures parts == [] ==> r == ""
    ensures parts != [] ==> |r| == TotalLength(parts) + (|parts| - 1) * |sep|
  {
    if parts == [] then ""
    else if |parts| == 1 then parts[0]
    else parts[0] + sep + Join(parts[1..], sep)
  }

  /** The first part opens the joined string. */
  lemma JoinStartsWith(parts: seq<string>, sep: string)
    requires parts != []
    ensures StartsWith(Join(parts, sep), parts[0])
  {
    if |parts| > 1 {
      assert (parts[0] + sep + Join(parts[1..], sep))[..|parts[0]|] == parts[0];
    }
  }

  /** Every part occurs in the joined string. */
  lemma {:induction false} JoinContains(parts: seq<string>, sep: string, k: nat)
    requires k < |parts|
    ensures Contains(Join(parts, sep), parts[k])
    decreases |parts|
  {
    if |parts| == 1 {
      ContainsSelf(parts[0]);
    } else if k == 0 {
      ContainsSelf(parts[0]);
      ContainsInside("", parts[0], sep + Join(parts[1..], sep), parts[0]);
      assert "" + parts[0] + (sep + Join(parts[1..], sep)) == Join(parts, sep);
    } else {
      JoinContains(parts[1..], sep, k - 1);
      ContainsInside(parts[0] + sep, Join(parts[1..], sep), "", parts[k]);
      assert parts[0] + sep + Join(parts[1..], sep) + "" == Join(parts, sep);
    }
  }

  /** A joined list holding a non-empty part is non-empty. */
  lemma JoinNonEmpty(parts: seq<string>, sep: string, k: nat)
    requires k < |parts| && parts[k] != ""
    ensures Join(parts, sep) != ""
  {
    JoinContains(parts, sep, k);
  }

  /** str.find(c): the first index of c, or -1. */
  function Find(s: string, c: char): (r: int)
    ensures -1 <= r < |s|
    ensures r == -1 <==> c !in s
    ensures r >= 0 ==> s[r] == c && c !in s[..r]
  {
    if s == [] then -1
    else if s[0] == c then 0
    else
      var k := Find(s[1..], c);
      assert s[1..][..k + 1] == s[1..k + 2] by { if k >= 0 { assert k + 2 <= |s|; } }
      if k < 0 then -1 else k + 1
  }

  /** str.rfind(c): the last index of c, or -1. */
  function RFind(s: string, c: char): (r: int)
    ensures -1 <= r < |s|
    ensures r == -1 <==> c !in s
    ensures r >= 0 ==> s[r] == c && c !in s[r + 1..]
  {
    if s == [] then -1
    else if s[|s| - 1] == c then |s| - 1
    else
      var init := s[..|s| - 1];
      assert s == init + [s[|s| - 1]];
      var k := RFind(init, c);
      assert k >= 0 ==> s[k + 1..] == init[k + 1..] + [s[|s| - 1]];
      k
  }
}

/** The regular-expression matcher (grep.c:71-105; chapter 9 of The Practice of Programming), against
    the language a pattern denotes. Patterns and texts are strings without NUL. */
module Regex {

  // ---- What a pattern denotes ----------------------------------------------------------------

  /** One character, '.' standing for any, or any number of them. */
  datatype Item = One(c: char) | Star(c: char)

  /** A pattern: its items, and whether a trailing '$' ties it to the end of the text. */
  datatype Pattern = Pattern(items: seq<Item>, atEnd: bool)

  function Compile(re: string): (p: Pattern)
    decreases |re|
  {
    if re == [] then Pattern([], false)
    else if |re| > 1 && re[1] == '*' then
      var rest := Compile(re[2..]);
      Pattern([Star(re[0])] + rest.items, rest.atEnd)
    else if re == "$" then Pattern([], true)
    else
      var rest := Compile(re[1..]);
      Pattern([One(re[0])] + rest.items, rest.atEnd)
  }

  predicate Fits(c: char, x: char) {
    c == '.' || c == x
  }

  predicate InItem(it: Item, s: string) {
    (forall k :: 0 <= k < |s| ==> Fits(it.c, s[k])) && (it.One? ==> |s| == 1)
  }

  function Concat(parts: seq<string>): (s: string) {
    if parts == [] then [] else parts[0] + Concat(parts[1..])
  }

  /** The parts of s belong to the items one by one. */
  ghost predicate Spells(items: seq<Item>, parts: seq<string>, s: string) {
    |parts| == |items| && Concat(parts) == s && forall k :: 0 <= k < |items| ==> InItem(items[k], parts[k])
  }

  ghost predicate InLanguage(items: seq<Item>, s: string) {
    exists parts :: Spells(items, parts, s)
  }

  /** The text from i to j belongs to the pattern. */
  ghost predicate MatchAt(p: Pattern, text: string, i: nat, j: nat) {
    i <= j <= |text| && (p.atEnd ==> j == |text|) && InLanguage(p.items, text[i..j])
  }

  // ---- The matcher as functions --------------------------------------------------------------

  predicate MatchHere(re: string, text: string)
    decreases |re|, |text|, 0
  {
    if re == [] then true
    else if |re| > 1 && re[1] == '*' then MatchStar(re[0], re[2..], text)
    else if re == "$" then text == []
    else text != [] && Fits(re[0], text[0]) && MatchHere(re[1..], text[1..])
  }

  predicate MatchStar(c: char, re: string, text: string)
    decreases |re|, |text|, 1
  {
    MatchHere(re, text) || (text != [] && Fits(c, text[0]) && MatchStar(c, re, text[1..]))
  }

  // ---- The matcher as it runs ----------------------------------------------------------------

  method RunHere(re: string, text: string) returns (b: bool)
    ensures b == MatchHere(re, text)
    decreases |re|, 0
  {
    if re == [] { return true; }
    if |re| > 1 && re[1] == '*' {
      b := RunStar(re[0], re[2..], text);
      return;
    }
    if re == "$" { return text == []; }
    if text != [] && (re[0] == '.' || re[0] == text[0]) {
      b := RunHere(re[1..], text[1..]);
      return;
    }
    return false;
  }

  method RunStar(c: char, re: string, text: string) returns (b: bool)
    ensures b == MatchStar(c, re, text)
    decreases |re|, 1
  {
    var t := text;
    while true
      invariant MatchStar(c, re, t) == MatchStar(c, re, text)
      decreases |t|
    {
      var here := RunHere(re, t);
      if here { return true; }
      if t == [] || !(t[0] == c || c == '.') { return false; }
      t := t[1..];
    }
  }

  /** match: at the start if the pattern says so, otherwise anywhere, the empty end included. */
  method Match(re: string, text: string) returns (b: bool)
    ensures b <==> Matches(re, text)
  {
    if re != [] && re[0] == '^' {
      b := RunHere(re[1..], text);
      HereMeans(re[1..], text, 0);
      assert text[0..] == text;
      return;
    }
    var i := 0;
    assert text[0..] == text;
    while true
      invariant 0 <= i <= |text| && forall k :: 0 <= k < i ==> !MatchFrom(re, text, k)
      decreases |text| - i
    {
      HereMeans(re, text, i);
      var here := RunHere(re, text[i..]);
      if here {
        assert MatchFrom(re, text, i);
        return true;
      }
      if i == |text| {
        assert forall k: nat :: MatchFrom(re, text, k) ==> k <= |text|;
        return false;
      }
      i := i + 1;
    }
  }

  /** Some part of the text belongs to the pattern: one that starts where the text does if the pattern
      begins with '^', and one that ends where it does if it ends with '$'. */
  ghost predicate Matches(re: string, text: string) {
    if re != [] && re[0] == '^' then MatchFrom(re[1..], text, 0) else exists i: nat :: MatchFrom(re, text, i)
  }

  ghost predicate MatchFrom(re: string, text: string, i: nat) {
    exists j: nat :: MatchAt(Compile(re), text, i, j)
  }

  // ---- The matcher decides the language ------------------------------------------------------

  lemma LanguageEmpty(s: string)
    ensures InLanguage([], s) <==> s == []
  {
    if s == [] { assert Spells([], [], s); }
  }

  /** The first k characters of s belong to an item and the rest to the items after it. */
  ghost predicate SplitAt(it: Item, items: seq<Item>, s: string, k: nat) {
    k <= |s| && InItem(it, s[..k]) && InLanguage(items, s[k..])
  }

  lemma SplitExists(it: Item, items: seq<Item>, s: string) returns (k: nat)
    requires InLanguage([it] + items, s)
    ensures SplitAt(it, items, s, k)
  {
    var all := [it] + items;
    var parts :| Spells(all, parts, s);
    k := |parts[0]|;
    assert s[..k] == parts[0] && s[k..] == Concat(parts[1..]);
    assert InItem(all[0], parts[0]);
    forall m | 0 <= m < |items| ensures InItem(items[m], parts[1..][m]) { assert InItem(all[m + 1], parts[m + 1]); }
    assert Spells(items, parts[1..], s[k..]);
  }

  lemma SplitSuffices(it: Item, items: seq<Item>, s: string, k: nat)
    requires SplitAt(it, items, s, k)
    ensures InLanguage([it] + items, s)
  {
    var rest :| Spells(items, rest, s[k..]);
    var parts := [s[..k]] + rest;
    assert parts[1..] == rest;
    assert Concat(parts) == s[..k] + s[k..] == s;
    assert Spells([it] + items, parts, s);
  }

  /** A string of a pattern that begins with one character. */
  lemma OneFirst(c: char, items: seq<Item>, s: string)
    ensures InLanguage([One(c)] + items, s) <==> s != [] && Fits(c, s[0]) && InLanguage(items, s[1..])
  {
    hide InLanguage;
    if InLanguage([One(c)] + items, s) {
      var k := SplitExists(One(c), items, s);
      assert s[..k][0] == s[0];
    }
    if s != [] && Fits(c, s[0]) && InLanguage(items, s[1..]) { SplitSuffices(One(c), items, s, 1); }
  }

  /** A string of a pattern that begins with a star: none of its characters, or one and then as many more
      as there are. */
  lemma StarFirst(c: char, items: seq<Item>, s: string)
    ensures InLanguage([Star(c)] + items, s) <==>
      InLanguage(items, s) || (s != [] && Fits(c, s[0]) && InLanguage([Star(c)] + items, s[1..]))
  {
    hide InLanguage;
    assert s[0..] == s;
    if InLanguage([Star(c)] + items, s) {
      var k := SplitExists(Star(c), items, s);
      if k > 0 {
        assert s[..k][0] == s[0];
        StarLess(c, items, s, k);
      }
    }
    if InLanguage(items, s) { SplitSuffices(Star(c), items, s, 0); }
    if s != [] && Fits(c, s[0]) && InLanguage([Star(c)] + items, s[1..]) {
      var k := SplitExists(Star(c), items, s[1..]);
      StarMore(c, items, s, k);
    }
  }

  lemma StarLess(c: char, items: seq<Item>, s: string, k: nat)
    requires SplitAt(Star(c), items, s, k) && k > 0
    ensures InLanguage([Star(c)] + items, s[1..])
  {
    hide InLanguage;
    var a := s[1..];
    assert a[k - 1..] == s[k..];
    var few, many := a[..k - 1], s[..k];
    forall m | 0 <= m < |few| ensures Fits(c, few[m]) { assert few[m] == many[m + 1]; }
    SplitSuffices(Star(c), items, a, k - 1);
  }

  lemma StarMore(c: char, items: seq<Item>, s: string, k: nat)
    requires s != [] && Fits(c, s[0]) && SplitAt(Star(c), items, s[1..], k)
    ensures InLanguage([Star(c)] + items, s)
  {
    hide InLanguage;
    assert s[k + 1..] == s[1..][k..];
    var few, many := s[1..][..k], s[..k + 1];
    forall m | 0 <= m < |many| ensures Fits(c, many[m]) {
      if m > 0 { assert many[m] == few[m - 1]; }
    }
    SplitSuffices(Star(c), items, s, k + 1);
  }

  /** The first j characters of t belong to the pattern, all of t if it is tied to the end. */
  ghost predicate PrefixAt(p: Pattern, t: string, j: nat) {
    j <= |t| && (p.atEnd ==> j == |t|) && InLanguage(p.items, t[..j])
  }

  ghost predicate Prefix(p: Pattern, t: string) {
    exists j: nat :: PrefixAt(p, t, j)
  }

  lemma PrefixOne(c: char, p: Pattern, t: string)
    ensures Prefix(Pattern([One(c)] + p.items, p.atEnd), t) <==> t != [] && Fits(c, t[0]) && Prefix(p, t[1..])
  {
    hide InLanguage;
    var q := Pattern([One(c)] + p.items, p.atEnd);
    if Prefix(q, t) {
      var j: nat :| PrefixAt(q, t, j);
      OneFirst(c, p.items, t[..j]);
      assert t[..j][1..] == t[1..][..j - 1];
      assert PrefixAt(p, t[1..], j - 1);
    }
    if t != [] && Fits(c, t[0]) && Prefix(p, t[1..]) {
      var j: nat :| PrefixAt(p, t[1..], j);
      OneFirst(c, p.items, t[..j + 1]);
      assert t[..j + 1][1..] == t[1..][..j];
      assert PrefixAt(q, t, j + 1);
    }
  }

  lemma PrefixStar(c: char, p: Pattern, t: string)
    ensures Prefix(Pattern([Star(c)] + p.items, p.atEnd), t) <==>
      Prefix(p, t) || (t != [] && Fits(c, t[0]) && Prefix(Pattern([Star(c)] + p.items, p.atEnd), t[1..]))
  {
    hide InLanguage;
    var q := Pattern([Star(c)] + p.items, p.atEnd);
    if Prefix(q, t) {
      var j: nat :| PrefixAt(q, t, j);
      StarFirst(c, p.items, t[..j]);
      if InLanguage(p.items, t[..j]) {
        assert PrefixAt(p, t, j);
      } else {
        assert t[..j][1..] == t[1..][..j - 1];
        assert PrefixAt(q, t[1..], j - 1);
      }
    }
    if Prefix(p, t) {
      var j: nat :| PrefixAt(p, t, j);
      StarFirst(c, p.items, t[..j]);
      assert PrefixAt(q, t, j);
    }
    if t != [] && Fits(c, t[0]) && Prefix(q, t[1..]) {
      var j: nat :| PrefixAt(q, t[1..], j);
      StarFirst(c, p.items, t[..j + 1]);
      assert t[..j + 1][1..] == t[1..][..j];
      assert PrefixAt(q, t, j + 1);
    }
  }

  lemma {:induction false} StarIsPrefix(c: char, re: string, t: string)
    requires forall u: string :: |u| <= |t| ==> (MatchHere(re, u) <==> Prefix(Compile(re), u))
    ensures var p := Compile(re); MatchStar(c, re, t) <==> Prefix(Pattern([Star(c)] + p.items, p.atEnd), t)
    decreases |t|
  {
    PrefixStar(c, Compile(re), t);
    if t != [] { StarIsPrefix(c, re, t[1..]); }
  }

  lemma {:induction false} HereIsPrefix(re: string, t: string)
    ensures MatchHere(re, t) <==> Prefix(Compile(re), t)
    decreases |re|
  {
    hide InLanguage;
    if re == [] {
      LanguageEmpty(t[..0]);
      assert PrefixAt(Compile(re), t, 0);
    } else if |re| > 1 && re[1] == '*' {
      forall u: string | |u| <= |t| ensures MatchHere(re[2..], u) <==> Prefix(Compile(re[2..]), u) { HereIsPrefix(re[2..], u); }
      StarIsPrefix(re[0], re[2..], t);
    } else if re == "$" {
      LanguageEmpty(t[..|t|]);
      assert t[..|t|] == t;
      assert t == [] ==> PrefixAt(Compile(re), t, |t|);
    } else {
      PrefixOne(re[0], Compile(re[1..]), t);
      if t != [] { HereIsPrefix(re[1..], t[1..]); }
    }
  }

  lemma HereMeans(re: string, text: string, i: nat)
    requires i <= |text|
    ensures MatchHere(re, text[i..]) <==> MatchFrom(re, text, i)
  {
    hide InLanguage;
    var p, t := Compile(re), text[i..];
    HereIsPrefix(re, t);
    if Prefix(p, t) {
      var j: nat :| PrefixAt(p, t, j);
      assert t[..j] == text[i..i + j];
      assert MatchAt(p, text, i, i + j);
    }
    if MatchFrom(re, text, i) {
      var j: nat :| MatchAt(p, text, i, j);
      assert t[..j - i] == text[i..j];
      assert PrefixAt(p, t, j - i);
    }
  }
}

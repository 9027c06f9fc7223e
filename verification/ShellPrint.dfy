/** Writing commands as lines: tokens with any white space between them, and each command with parentheses
    only where the grammar needs them. */
module ShellPrint {
  import opened Common
  import opened ShellLex
  import opened ShellParse
  import opened ShellGrammar
  import opened ShellDerive

  // ---- Tokens as text ------------------------------------------------------------------------

  predicate AllSpace(s: string) {
    forall k :: 0 <= k < |s| ==> IsSpace(s[k])
  }

  predicate LexemeOk(x: Lexeme) {
    match x
    case Word(text) => LegalWord(text)
    case Sign(kind) => kind == '+' || IsSymbol(kind)
  }

  function Spelling(x: Lexeme): (s: string) {
    match x
    case Word(text) => text
    case Sign(kind) => if kind == '+' then ">>" else [kind]
  }

  /** Two tokens that would run together without white space between them. */
  predicate Clash(x: Lexeme, y: Lexeme) {
    (x.Word? && y.Word?) || (x == Sign('>') && (y == Sign('>') || y == Sign('+')))
  }

  /** White space that may stand behind the tokens of l, one piece behind each. */
  predicate GapsOk(l: seq<Lexeme>, gaps: seq<string>) {
    && |gaps| == |l| && (forall k :: 0 <= k < |l| ==> LexemeOk(l[k]) && AllSpace(gaps[k]))
    && (forall k :: 0 <= k < |l| - 1 && Clash(l[k], l[k + 1]) ==> gaps[k] != [])
  }

  function Written(l: seq<Lexeme>, gaps: seq<string>): (s: string)
    requires |gaps| == |l|
  {
    if l == [] then [] else Spelling(l[0]) + gaps[0] + Written(l[1..], gaps[1..])
  }

  lemma {:induction false} SkipsGap(s: string, i: nat, j: nat)
    requires i <= j <= |s| && AllSpace(s[i..j]) && !IsSpace(At(s, j))
    ensures Skip(s, i) == j
    decreases j - i
  {
    if i < j {
      assert IsSpace(s[i..j][0]);
      assert s[i + 1..j] == s[i..j][1..];
      SkipsGap(s, i + 1, j);
    }
  }

  lemma {:induction false} WordRun(s: string, i: nat, j: nat)
    requires i <= j <= |s| && (forall k :: i <= k < j ==> IsWordChar(s[k]))
    requires (j < |s| ==> IsSpace(s[j]) || IsSymbol(s[j]))
    ensures WordEnd(s, i) == j
    decreases j - i
  {
    if i < j { WordRun(s, i + 1, j); }
  }

  /** Token x is written at i and ends at m, where no other token runs into it; the next begins at n. */
  lemma TokenWritten(s: string, i: nat, m: nat, n: nat, x: Lexeme)
    requires NoNul(s) && i <= m <= n <= |s| && LexemeOk(x) && s[i..m] == Spelling(x)
    requires AllSpace(s[m..n]) && !IsSpace(At(s, n))
    requires x.Word? ==> !IsWordChar(At(s, m))
    requires x == Sign('>') ==> At(s, m) != '>'
    ensures !IsSpace(At(s, i)) && i < m && At(s, i) == Spelling(x)[0]
    ensures var t := GetToken(s, i); t.next == n && t.begin == i && t.end == m && t.kind == if x.Word? then 'a' else x.kind
    ensures x.Sign? ==> x.kind != 'a' && x.kind != NUL
  {
    hide Skip, WordEnd;
    assert s[i..m][0] == s[i];
    SkipsGap(s, m, n);
    assert AllSpace(s[i..i]);
    SkipsGap(s, i, i);
    if x.Word? {
      forall k | i <= k < m ensures IsWordChar(s[k]) { assert s[i..m][k - i] == s[k]; }
      WordRun(s, i, m);
    } else if x.kind == '+' {
      assert s[i..m][1] == s[i + 1];
    }
  }

  /** The tokens come back from their writing, wherever it ends a line. */
  lemma {:induction false} LexWritten(l: seq<Lexeme>, gaps: seq<string>, s: string, i: nat)
    requires i <= |s| && NoNul(s) && GapsOk(l, gaps) && s[i..] == Written(l, gaps)
    ensures Lex(s, i) == l && !IsSpace(At(s, i)) && (l != [] ==> At(s, i) == Spelling(l[0])[0])
    decreases |l|
  {
    hide Lex, GetToken, Skip, IsWordChar, IsSpace, IsSymbol, AllSpace, LegalWord;
    LexUnfold(s, i);
    if l == [] {
      assert i == |s|;
      LineEnd(s);
    } else {
      var m := i + |Spelling(l[0])|;
      var n := m + |gaps[0]|;
      WrittenParts(l, gaps, s, i, m, n);
      LexWritten(l[1..], gaps[1..], s, n);
      Unclashed(l, gaps, s, m, n);
      TokenWritten(s, i, m, n, l[0]);
      assert l == [l[0]] + l[1..];
    }
  }

  lemma LineEnd(s: string)
    ensures !IsSpace(At(s, |s|)) && GetToken(s, |s|).kind == NUL
  {
  }

  lemma WrittenParts(l: seq<Lexeme>, gaps: seq<string>, s: string, i: nat, m: nat, n: nat)
    requires i <= |s| && GapsOk(l, gaps) && l != [] && s[i..] == Written(l, gaps)
    requires m == i + |Spelling(l[0])| && n == m + |gaps[0]|
    ensures n <= |s| && s[i..m] == Spelling(l[0]) && s[m..n] == gaps[0] && s[n..] == Written(l[1..], gaps[1..])
    ensures GapsOk(l[1..], gaps[1..])
  {
    hide Spelling, LexemeOk, AllSpace, Clash;
    var w, g, rest := Spelling(l[0]), gaps[0], Written(l[1..], gaps[1..]);
    Cut3(s, i, w, g, rest);
    var l', g' := l[1..], gaps[1..];
    assert forall k :: 0 <= k < |l'| ==> l'[k] == l[k + 1] && g'[k] == gaps[k + 1];
  }

  lemma Cut3(s: string, i: nat, a: string, b: string, c: string)
    requires i <= |s| && s[i..] == a + b + c
    ensures var m := i + |a|; var n := m + |b|; n <= |s| && s[i..m] == a && s[m..n] == b && s[n..] == c
  {
    var m := i + |a|;
    var n := m + |b|;
    assert |s| - i == |a| + |b| + |c|;
    assert s[i..][..|a|] == a && s[i..][|a|..|a| + |b|] == b && s[i..][|a| + |b|..] == c;
    assert s[i..][..|a|] == s[i..m] && s[i..][|a|..|a| + |b|] == s[m..n] && s[i..][|a| + |b|..] == s[n..];
  }

  /** What follows the first token does not run into it. */
  lemma Unclashed(l: seq<Lexeme>, gaps: seq<string>, s: string, m: nat, n: nat)
    requires GapsOk(l, gaps) && l != [] && m <= n <= |s| && s[m..n] == gaps[0]
    requires |l| == 1 ==> At(s, n) == NUL
    requires |l| > 1 ==> At(s, n) == Spelling(l[1])[0]
    ensures l[0].Word? ==> !IsWordChar(At(s, m))
    ensures l[0] == Sign('>') ==> At(s, m) != '>'
  {
    if gaps[0] != [] {
      assert s[m] == s[m..n][0];
      assert IsSpace(gaps[0][0]);
    } else if |l| > 1 {
      assert !Clash(l[0], l[1]);
      assert LexemeOk(l[1]);
    }
  }

  /** White space, and then another token or the end of the line, follow a token. */
  lemma TokenGap(s: string, i: nat)
    requires i <= |s| && NoNul(s)
    ensures var t := GetToken(s, i); AllSpace(s[t.end..t.next]) && Skip(s, t.next) == t.next
  {
    var t := GetToken(s, i);
    assert t.next == Skip(s, t.end);
    SkipAgain(s, t.end);
  }

  /** The first token of s from i on, where it begins. */
  lemma TokenShape(s: string, i: nat)
    requires i <= |s| && NoNul(s) && Skip(s, i) == i && GetToken(s, i).kind != NUL
    ensures var t := GetToken(s, i); var x := Lex(s, i)[..1];
      && i < t.end <= t.next <= |s| && |x| == 1 && LexemeOk(x[0]) && s[i..t.end] == Spelling(x[0])
      && Lex(s, i) == x + Lex(s, t.next)
      && (x[0].Word? ==> !IsWordChar(At(s, t.end))) && (x[0] == Sign('>') ==> At(s, t.end) != '>')
  {
    hide Lex, WordEnd, Skip, IsSpace;
    LexUnfold(s, i);
    LexStep(s, i);
    if GetToken(s, i).kind == 'a' { WordToken(s, i); }
  }

  /** A token at the beginning of what is left of the line starts with the character there. */
  lemma TokenStarts(s: string, i: nat)
    requires i <= |s| && NoNul(s) && Skip(s, i) == i && Lex(s, i) != []
    ensures Lex(s, i)[0].Word? ==> IsWordChar(At(s, i))
    ensures Lex(s, i)[0] == Sign('>') || Lex(s, i)[0] == Sign('+') ==> At(s, i) == '>'
  {
    hide Lex;
    LexUnfold(s, i);
  }

  lemma GapsFirst(x: Lexeme, gap: string, l: seq<Lexeme>, gaps: seq<string>)
    requires GapsOk(l, gaps) && LexemeOk(x) && AllSpace(gap) && (l != [] && Clash(x, l[0]) ==> gap != [])
    ensures GapsOk([x] + l, [gap] + gaps) && Written([x] + l, [gap] + gaps) == Spelling(x) + gap + Written(l, gaps)
  {
    hide LexemeOk, AllSpace, Clash, Spelling;
    var m, g := [x] + l, [gap] + gaps;
    assert m[1..] == l && g[1..] == gaps;
    assert forall k :: 0 < k < |m| ==> m[k] == l[k - 1] && g[k] == gaps[k - 1];
  }

  lemma {:induction false} Unlex(s: string, i: nat) returns (gaps: seq<string>)
    requires i <= |s| && NoNul(s) && Skip(s, i) == i
    ensures GapsOk(Lex(s, i), gaps) && s[i..] == Written(Lex(s, i), gaps)
    decreases |s| - i
  {
    hide Lex, GetToken, Skip, IsWordChar, IsSpace, IsSymbol, AllSpace, Spelling, LexemeOk, GapsOk, Written;
    LexStep(s, i);
    if Lex(s, i) == [] {
      gaps := [];
      NoneWritten();
      return;
    }
    TokenShape(s, i);
    TokenGap(s, i);
    var t := GetToken(s, i);
    var x, rest := Lex(s, i)[0], Lex(s, t.next);
    var more := Unlex(s, t.next);
    var gap := s[t.end..t.next];
    if rest != [] { TokenStarts(s, t.next); }
    GapsFirst(x, gap, rest, more);
    gaps := [gap] + more;
    assert s[i..] == s[i..t.end] + gap + s[t.next..];
  }

  lemma NoneWritten()
    ensures GapsOk([], []) && Written([], []) == []
  {
  }

  /** s is the tokens l, with white space before, between and behind them. */
  ghost predicate WrittenAs(s: string, lead: string, l: seq<Lexeme>, gaps: seq<string>) {
    AllSpace(lead) && GapsOk(l, gaps) && s == lead + Written(l, gaps)
  }

  /** The tokens of a line are l if and only if the line is l with white space around them, some of it wherever
      two tokens would otherwise run together. */
  lemma LexExactly(s: string, l: seq<Lexeme>)
    requires NoNul(s)
    ensures Lex(s, 0) == l <==> exists lead, gaps :: WrittenAs(s, lead, l, gaps)
  {
    hide Lex, Skip, Written;
    var i := Skip(s, 0);
    LexStep(s, 0);
    if Lex(s, 0) == l {
      SkipAgain(s, 0);
      var gaps := Unlex(s, i);
      assert s == s[..i] + s[i..];
      assert WrittenAs(s, s[..i], l, gaps);
    }
    forall lead, gaps | WrittenAs(s, lead, l, gaps) ensures Lex(s, 0) == l {
      var m := |lead|;
      assert s[m..] == Written(l, gaps);
      LexWritten(l, gaps, s, m);
      assert s[0..m] == lead;
      SkipsGap(s, 0, m);
    }
  }

  // ---- Commands with as few parentheses as the grammar allows --------------------------------

  function Level(t: Tree): (n: nat) {
    match t
    case TList(_, _) => 0
    case TBack(_) => 1
    case TPipe(_, _) => 2
    case TExec(_) => 3
    case TRedir(_, _, _) => 3
  }

  function ArgItems(words: seq<string>): (items: seq<Item>) {
    seq(|words|, k requires 0 <= k < |words| => Arg(words[k]))
  }

  /** The sign of a redirection; `twice` says how to write output. */
  function ArrowItem(file: string, input: bool, twice: bool): (x: Item) {
    Arrow(if input then '<' else if twice then '+' else '>', file)
  }

  /** A plain command with its redirections in order, or a group. */
  function AsSimple(t: Tree, twice: bool): (c: Simple)
    decreases t, (Level(t) + 1) % 4
  {
    match t
    case TExec(words) => Plain(ArgItems(words))
    case TRedir(cmd, file, input) =>
      var x := ArrowItem(file, input, twice);
      (match AsSimple(cmd, twice)
       case Plain(items) => Plain(items + [x])
       case Group(line, arrows) => Group(line, arrows + [x]))
    case _ => Group(AsLine(t, twice), [])
  }

  /** Pipelines nest to the right. */
  function AsPipes(t: Tree, twice: bool): (c: Pipes)
    decreases t, (Level(t) + 2) % 4
  {
    if t.TPipe? then Into(AsSimple(t.left, twice), AsPipes(t.right, twice)) else Last(AsSimple(t, twice))
  }

  /** The pipeline that is put in the background, and how often. */
  function AsBacks(t: Tree, twice: bool): (r: (Pipes, nat))
    decreases t, (Level(t) + 3) % 4
  {
    if t.TBack? then var r := AsBacks(t.cmd, twice); (r.0, r.1 + 1) else (AsPipes(t, twice), 0)
  }

  function AsLine(t: Tree, twice: bool): (c: Line)
    decreases t, Level(t)
  {
    if t.TList? then
      var r := AsBacks(t.left, twice);
      Then(r.0, r.1, AsLine(t.right, twice))
    else
      var r := AsBacks(t, twice);
      End(r.0, r.1)
  }

  lemma {:induction false} ArgItemsMean(words: seq<string>)
    ensures ArgsOf(ArgItems(words)) == words && ArrowsOf(ArgItems(words)) == []
    decreases |words|
  {
    if words != [] {
      ArgItemsMean(words[1..]);
      assert ArgItems(words)[1..] == ArgItems(words[1..]);
    }
  }

  lemma OneArrow(items: seq<Item>, x: Item)
    requires x.Arrow?
    ensures ArgsOf(items + [x]) == ArgsOf(items) && ArrowsOf(items + [x]) == ArrowsOf(items) + [Redirect(x.file, x.kind == '<')]
  {
    hide ArgsOf, ArrowsOf;
    ItemsJoin(items, [x]);
    ItemsUnfold([x]);
    NoItems();
  }

  lemma AroundLast(t: Tree, list: seq<Redirect>, x: Redirect)
    ensures Around(t, list + [x]) == TRedir(Around(t, list), x.file, x.input)
  {
    assert (list + [x])[..|list|] == list;
  }

  lemma {:induction false} SimpleMeans(t: Tree, twice: bool)
    requires Legal(t)
    ensures SimpleOk(AsSimple(t, twice)) && SimpleTree(AsSimple(t, twice)) == t
    decreases t, (Level(t) + 1) % 4
  {
    hide ArgsOf, ArrowsOf, Around, AsLine, LineTree, LineOk, LegalWord;
    match t
    case TExec(words) =>
      ArgItemsMean(words);
      AroundNone(t);
    case TRedir(cmd, file, input) =>
      SimpleMeans(cmd, twice);
      var x := ArrowItem(file, input, twice);
      match AsSimple(cmd, twice) {
        case Plain(items) =>
          OneArrow(items, x);
          AroundLast(TExec(ArgsOf(items)), ArrowsOf(items), Redirect(file, input));
        case Group(line, arrows) =>
          OneArrow(arrows, x);
          AroundLast(LineTree(line), ArrowsOf(arrows), Redirect(file, input));
      }
    case _ =>
      LineMeans(t, twice);
      NoItems();
      AroundNone(t);
  }

  lemma AroundNone(t: Tree)
    ensures Around(t, []) == t
  {
  }

  lemma {:induction false} PipesMean(t: Tree, twice: bool)
    requires Legal(t)
    ensures PipesOk(AsPipes(t, twice)) && PipesTree(AsPipes(t, twice)) == t
    decreases t, (Level(t) + 2) % 4
  {
    hide AsSimple, SimpleOk, SimpleTree;
    if t.TPipe? {
      SimpleMeans(t.left, twice);
      PipesMean(t.right, twice);
    } else {
      SimpleMeans(t, twice);
    }
  }

  lemma {:induction false} BacksMean(t: Tree, twice: bool)
    requires Legal(t)
    ensures var r := AsBacks(t, twice); PipesOk(r.0) && Backs(PipesTree(r.0), r.1) == t
    decreases t, (Level(t) + 3) % 4
  {
    hide AsPipes, PipesOk, PipesTree;
    if t.TBack? { BacksMean(t.cmd, twice); } else { PipesMean(t, twice); }
  }

  lemma {:induction false} LineMeans(t: Tree, twice: bool)
    requires Legal(t)
    ensures LineOk(AsLine(t, twice)) && LineTree(AsLine(t, twice)) == t
    decreases t, Level(t)
  {
    hide AsBacks, Backs, PipesOk, PipesTree;
    if t.TList? {
      BacksMean(t.left, twice);
      LineMeans(t.right, twice);
    } else {
      BacksMean(t, twice);
    }
  }

  // ---- Printing ------------------------------------------------------------------------------

  predicate AllOk(l: seq<Lexeme>) {
    forall k :: 0 <= k < |l| ==> LexemeOk(l[k])
  }

  lemma {:induction false} ItemsToksOk(items: seq<Item>)
    requires ItemsOk(items)
    ensures AllOk(ItemsToks(items))
    decreases |items|
  {
    if items != [] {
      assert ItemOk(items[0]);
      ItemsToksOk(items[1..]);
    }
  }

  lemma {:induction false} AmpsOk(n: nat)
    ensures AllOk(Amps(n))
  {
    if n > 0 { AmpsOk(n - 1); }
  }

  lemma {:induction false} SimpleToksOk(c: Simple)
    requires SimpleOk(c)
    ensures AllOk(SimpleToks(c))
  {
    hide ItemsToks, LineToks, ItemOk;
    if c.Plain? {
      ItemsToksOk(c.items);
    } else {
      LineToksOk(c.line);
      ItemsToksOk(c.arrows);
    }
  }

  lemma {:induction false} PipesToksOk(c: Pipes)
    requires PipesOk(c)
    ensures AllOk(PipesToks(c))
  {
    hide SimpleToks;
    SimpleToksOk(c.cmd);
    if c.Into? { PipesToksOk(c.next); }
  }

  lemma {:induction false} LineToksOk(c: Line)
    requires LineOk(c)
    ensures AllOk(LineToks(c))
  {
    hide PipesToks, Amps;
    PipesToksOk(c.first);
    AmpsOk(c.amps);
    if c.Then? { LineToksOk(c.next); }
  }

  /** One blank where two tokens would run together, and no other white space. */
  function Blanks(l: seq<Lexeme>): (gaps: seq<string>)
    ensures |gaps| == |l|
  {
    seq(|l|, k requires 0 <= k < |l| => if k + 1 < |l| && Clash(l[k], l[k + 1]) then " " else "")
  }

  function Print(t: Tree, twice: bool): (s: string) {
    var l := LineToks(AsLine(t, twice));
    Written(l, Blanks(l))
  }

  lemma {:induction false} WrittenNoNul(l: seq<Lexeme>, gaps: seq<string>)
    requires GapsOk(l, gaps)
    ensures NoNul(Written(l, gaps))
    decreases |l|
  {
    if l != [] {
      assert LexemeOk(l[0]) && AllSpace(gaps[0]);
      var m, g := l[1..], gaps[1..];
      assert forall k :: 0 <= k < |m| ==> m[k] == l[k + 1] && g[k] == gaps[k + 1];
      WrittenNoNul(m, g);
    }
  }

  lemma BlanksOk(l: seq<Lexeme>)
    requires AllOk(l)
    ensures GapsOk(l, Blanks(l)) && NoNul(Written(l, Blanks(l)))
  {
    hide LexemeOk, Clash, Written;
    var gaps := Blanks(l);
    assert forall k :: 0 <= k < |l| ==> AllSpace(gaps[k]);
    assert forall k :: 0 <= k < |l| - 1 && Clash(l[k], l[k + 1]) ==> gaps[k] == " ";
    WrittenNoNul(l, gaps);
  }

  /** However the tokens of a printed command are spaced, the line parses to that command. */
  lemma SpacedRoundTrip(t: Tree, twice: bool, s: string, lead: string, gaps: seq<string>)
    requires Legal(t) && NoNul(s) && WrittenAs(s, lead, LineToks(AsLine(t, twice)), gaps)
    ensures ParsesTo(s, t)
  {
    hide Legal, AsLine, LineToks, LineOk, LineTree, Lex, WrittenAs, ParsesTo;
    var c := AsLine(t, twice);
    LineMeans(t, twice);
    LexExactly(s, LineToks(c));
    ParsesExactly(s, t);
    assert Derives(c, s, t);
  }

  /** Parsing the printing of a command returns that command, whichever way output is written. */
  lemma RoundTrip(t: Tree, twice: bool)
    requires Legal(t)
    ensures NoNul(Print(t, twice)) && ParsesTo(Print(t, twice), t)
  {
    hide Legal, AsLine, LineToks, LineOk, LineTree, Written, ParsesTo, GapsOk;
    LineMeans(t, twice);
    var l := LineToks(AsLine(t, twice));
    LineToksOk(AsLine(t, twice));
    BlanksOk(l);
    assert Print(t, twice) == [] + Written(l, Blanks(l));
    SpacedRoundTrip(t, twice, Print(t, twice), [], Blanks(l));
  }

  /** The commands that lines can mean are exactly the legal ones. */
  lemma LegalIsParsed(t: Tree)
    ensures Legal(t) <==> exists s :: NoNul(s) && ParsesTo(s, t)
  {
    hide ParseCmd, Meaning, Legal, Print;
    if Legal(t) { RoundTrip(t, false); }
    forall s | NoNul(s) && ParsesTo(s, t) ensures Legal(t) { ParsedIsLegal(s); }
  }

  // ---- No line has fewer parentheses ---------------------------------------------------------

  /** How many parentheses are opened. */
  function Opens(l: seq<Lexeme>): (n: nat) {
    if l == [] then 0 else (if l[0] == Sign('(') then 1 else 0) + Opens(l[1..])
  }

  lemma {:induction false} OpensJoin(a: seq<Lexeme>, b: seq<Lexeme>)
    ensures Opens(a + b) == Opens(a) + Opens(b)
    decreases |a|
  {
    if a == [] {
      assert a + b == b;
    } else {
      assert (a + b)[1..] == a[1..] + b;
      OpensJoin(a[1..], b);
    }
  }

  function SimpleGroups(c: Simple): (n: nat) {
    if c.Plain? then 0 else 1 + LineGroups(c.line)
  }

  function PipesGroups(c: Pipes): (n: nat) {
    SimpleGroups(c.cmd) + if c.Into? then PipesGroups(c.next) else 0
  }

  function LineGroups(c: Line): (n: nat) {
    PipesGroups(c.first) + if c.Then? then LineGroups(c.next) else 0
  }

  lemma {:induction false} ItemsOpen(items: seq<Item>)
    requires ItemsOk(items)
    ensures Opens(ItemsToks(items)) == 0
    decreases |items|
  {
    if items != [] {
      assert ItemOk(items[0]);
      ItemsOpen(items[1..]);
      OpensJoin(ItemToks(items[0]), ItemsToks(items[1..]));
      assert Opens(ItemToks(items[0])) == 0;
    }
  }

  lemma {:induction false} AmpsOpen(n: nat)
    ensures Opens(Amps(n)) == 0
  {
    if n > 0 {
      AmpsOpen(n - 1);
      assert Amps(n)[1..] == Amps(n - 1);
    }
  }

  lemma OneOpen(x: Lexeme)
    ensures Opens([x]) == if x == Sign('(') then 1 else 0
  {
  }

  lemma {:induction false} SimpleOpens(c: Simple)
    requires SimpleOk(c)
    ensures Opens(SimpleToks(c)) == SimpleGroups(c)
  {
    hide Opens, ItemsToks, LineToks;
    if c.Plain? {
      ItemsOpen(c.items);
    } else {
      var inner, arrows := LineToks(c.line), ItemsToks(c.arrows);
      LineOpens(c.line);
      ItemsOpen(c.arrows);
      OpensJoin([Sign('(')] + inner + [Sign(')')], arrows);
      OpensJoin([Sign('(')] + inner, [Sign(')')]);
      OpensJoin([Sign('(')], inner);
      OneOpen(Sign('('));
      OneOpen(Sign(')'));
    }
  }

  lemma {:induction false} PipesOpen(c: Pipes)
    requires PipesOk(c)
    ensures Opens(PipesToks(c)) == PipesGroups(c)
  {
    hide Opens, SimpleToks;
    SimpleOpens(c.cmd);
    if c.Into? {
      PipesOpen(c.next);
      OpensJoin(SimpleToks(c.cmd) + [Sign('|')], PipesToks(c.next));
      OpensJoin(SimpleToks(c.cmd), [Sign('|')]);
      OneOpen(Sign('|'));
    }
  }

  lemma {:induction false} LineOpens(c: Line)
    requires LineOk(c)
    ensures Opens(LineToks(c)) == LineGroups(c)
  {
    hide Opens, PipesToks, Amps;
    var first := PipesToks(c.first) + Amps(c.amps);
    PipesOpen(c.first);
    AmpsOpen(c.amps);
    OpensJoin(PipesToks(c.first), Amps(c.amps));
    if c.Then? {
      LineOpens(c.next);
      OpensJoin(first + [Sign(';')], LineToks(c.next));
      OpensJoin(first, [Sign(';')]);
      OneOpen(Sign(';'));
    }
  }

  /** Each way to write a command needs at most as many groups as the next, and a group at most one more. */
  lemma GroupsInOrder(t: Tree, twice: bool)
    ensures var line, backs, pipes, simple :=
              LineGroups(AsLine(t, twice)), PipesGroups(AsBacks(t, twice).0), PipesGroups(AsPipes(t, twice)), SimpleGroups(AsSimple(t, twice));
      line <= backs <= pipes <= simple <= line + 1
  {
  }

  lemma {:induction false} AroundGroups(t: Tree, list: seq<Redirect>, twice: bool)
    ensures SimpleGroups(AsSimple(Around(t, list), twice)) == SimpleGroups(AsSimple(t, twice))
    decreases |list|
  {
    hide AsLine, LineGroups;
    if list != [] { AroundGroups(t, list[..|list| - 1], twice); }
  }

  lemma {:induction false} BacksGroups(t: Tree, n: nat, twice: bool)
    ensures AsBacks(Backs(t, n), twice).0 == AsBacks(t, twice).0
  {
    hide AsPipes;
    if n > 0 { BacksGroups(t, n - 1, twice); }
  }

  lemma {:induction false} SimpleFewest(c: Simple, twice: bool)
    ensures SimpleGroups(AsSimple(SimpleTree(c), twice)) <= SimpleGroups(c)
  {
    hide Around, AsLine, LineTree, ArgsOf, ArrowsOf;
    if c.Plain? {
      AroundGroups(TExec(ArgsOf(c.items)), ArrowsOf(c.items), twice);
    } else {
      var t := LineTree(c.line);
      AroundGroups(t, ArrowsOf(c.arrows), twice);
      GroupsInOrder(t, twice);
      LineFewest(c.line, twice);
    }
  }

  lemma {:induction false} PipesFewest(c: Pipes, twice: bool)
    ensures PipesGroups(AsPipes(PipesTree(c), twice)) <= PipesGroups(c)
  {
    hide AsSimple, SimpleTree, SimpleGroups;
    SimpleFewest(c.cmd, twice);
    GroupsInOrder(SimpleTree(c.cmd), twice);
    if c.Into? { PipesFewest(c.next, twice); }
  }

  lemma {:induction false} LineFewest(c: Line, twice: bool)
    ensures LineGroups(AsLine(LineTree(c), twice)) <= LineGroups(c)
  {
    hide AsPipes, AsBacks, PipesTree, PipesGroups, Backs;
    var t := PipesTree(c.first);
    PipesFewest(c.first, twice);
    GroupsInOrder(t, twice);
    BacksGroups(t, c.amps, twice);
    if c.Then? { LineFewest(c.next, twice); } else { GroupsInOrder(Backs(t, c.amps), twice); }
  }

  /** Printing uses parentheses only where the grammar needs them: no line that parses to the command opens
      fewer. */
  lemma FewestParentheses(t: Tree, twice: bool, s: string)
    requires NoNul(s) && ParsesTo(s, t)
    ensures NoNul(Print(t, twice)) && Opens(Lex(Print(t, twice), 0)) <= Opens(Lex(s, 0))
  {
    hide Legal, AsLine, LineToks, LineOk, LineTree, Written, ParseCmd, Meaning, GapsOk, Opens, LineGroups, Lex;
    ParsedIsLegal(s);
    ParsesExactly(s, t);
    var c :| Derives(c, s, t);
    LineFewest(c, twice);
    LineOpens(c);
    LineMeans(t, twice);
    var best := AsLine(t, twice);
    LineOpens(best);
    LineToksOk(best);
    var l := LineToks(best);
    BlanksOk(l);
    assert Print(t, twice) == [] + Written(l, Blanks(l));
    assert WrittenAs(Print(t, twice), [], l, Blanks(l));
    LexExactly(Print(t, twice), l);
  }
}

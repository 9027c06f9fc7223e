/** The grammar of command lines, over tokens and without reference to the parser:

        line   ::= pipes '&'* [ ';' line ]
        pipes  ::= simple [ '|' pipes ]
        simple ::= { word | arrow word } | '(' line ')' { arrow word }

    with what each line means as a command, and the proof that the parser finds it. */
module ShellGrammar {
  import opened Common
  import opened ShellLex
  import opened ShellParse

  // ---- What a command says -------------------------------------------------------------------

  /** A command with its words spelled out. */
  datatype Tree =
    | TExec(words: seq<string>)
    | TRedir(cmd: Tree, file: string, input: bool)
    | TPipe(left: Tree, right: Tree)
    | TList(left: Tree, right: Tree)
    | TBack(cmd: Tree)

  function Text(s: string, w: Slice): (r: string) {
    if w.begin <= w.end <= |s| then s[w.begin..w.end] else []
  }

  function Texts(s: string, ws: seq<Slice>): (r: seq<string>)
    ensures |r| == |ws| && forall k :: 0 <= k < |ws| ==> r[k] == Text(s, ws[k])
  {
    seq(|ws|, k requires 0 <= k < |ws| => Text(s, ws[k]))
  }

  function Meaning(s: string, c: Cmd): (t: Tree) {
    match c
    case Exec(args) => TExec(Texts(s, args))
    case Redir(cmd, to) => TRedir(Meaning(s, cmd), Text(s, to.file), to.input)
    case Pipe(left, right) => TPipe(Meaning(s, left), Meaning(s, right))
    case List(left, right) => TList(Meaning(s, left), Meaning(s, right))
    case Back(cmd) => TBack(Meaning(s, cmd))
  }

  // ---- Lines as tokens -----------------------------------------------------------------------

  datatype Lexeme = Word(text: string) | Sign(kind: char)

  predicate LegalWord(w: string) {
    w != [] && forall k :: 0 <= k < |w| ==> IsWordChar(w[k])
  }

  /** The tokens of s from i on. */
  function Lex(s: string, i: nat): (l: seq<Lexeme>)
    requires i <= |s| && NoNul(s)
    decreases |s| - i
  {
    var t := GetToken(s, i);
    if t.kind == NUL then []
    else [if t.kind == 'a' then Word(s[t.begin..t.end]) else Sign(t.kind)] + Lex(s, t.next)
  }

  /** The character with which a token begins, if it is a sign. */
  function First(l: seq<Lexeme>): (c: char) {
    if l == [] || l[0].Word? then NUL else if l[0].kind == '+' then '>' else l[0].kind
  }

  /** What the parser's two ways of looking ahead tell about the tokens. */
  lemma LexStep(s: string, i: nat)
    requires i <= |s| && NoNul(s)
    ensures Lex(s, Skip(s, i)) == Lex(s, i)
    ensures Lex(s, i) == [] <==> GetToken(s, i).kind == NUL
    ensures Lex(s, i) == [] <==> Skip(s, i) == |s|
    ensures var t := GetToken(s, i); t.kind != NUL ==>
      && i < t.next && Lex(s, i) == [Lex(s, i)[0]] + Lex(s, t.next)
      && (t.kind == 'a' ==> Lex(s, i)[0] == Word(Text(s, Slice(t.begin, t.end))) && LegalWord(Lex(s, i)[0].text))
      && (t.kind != 'a' ==> Lex(s, i)[0] == Sign(t.kind))
  {
    hide Lex;
    LexUnfold(s, i);
    SkipAgain(s, i);
    LexUnfold(s, Skip(s, i));
    var t := GetToken(s, i);
    if t.kind == 'a' {
      WordToken(s, i);
      WordIsLegal(s, t.begin, t.end);
    }
  }

  lemma LexUnfold(s: string, i: nat)
    requires i <= |s| && NoNul(s)
    ensures var t := GetToken(s, i);
      Lex(s, i) == if t.kind == NUL then [] else [if t.kind == 'a' then Word(s[t.begin..t.end]) else Sign(t.kind)] + Lex(s, t.next)
  {
  }

  lemma WordIsLegal(s: string, i: nat, j: nat)
    requires i < j <= |s| && forall k :: i <= k < j ==> IsWordChar(s[k])
    ensures LegalWord(s[i..j])
  {
  }

  lemma PeekStep(s: string, i: nat, toks: string)
    requires i <= |s| && NoNul(s) && forall k :: 0 <= k < |toks| ==> IsSymbol(toks[k])
    ensures Peek(s, i, toks) <==> First(Lex(s, i)) != NUL && First(Lex(s, i)) in toks
  {
    hide Lex;
    LexUnfold(s, i);
  }

  // ---- The grammar ---------------------------------------------------------------------------

  /** An argument, or a redirection: kind is '<', '>', or '+' for >>. */
  datatype Item = Arg(word: string) | Arrow(kind: char, file: string)

  datatype Simple = Plain(items: seq<Item>) | Group(line: Line, arrows: seq<Item>)
  datatype Pipes = Last(cmd: Simple) | Into(cmd: Simple, next: Pipes)
  datatype Line = End(first: Pipes, amps: nat) | Then(first: Pipes, amps: nat, next: Line)

  function ItemToks(x: Item): (l: seq<Lexeme>) {
    match x
    case Arg(word) => [Word(word)]
    case Arrow(kind, file) => [Sign(kind), Word(file)]
  }

  function ItemsToks(items: seq<Item>): (l: seq<Lexeme>) {
    if items == [] then [] else ItemToks(items[0]) + ItemsToks(items[1..])
  }

  function Amps(n: nat): (l: seq<Lexeme>) {
    if n == 0 then [] else [Sign('&')] + Amps(n - 1)
  }

  function SimpleToks(c: Simple): (l: seq<Lexeme>) {
    match c
    case Plain(items) => ItemsToks(items)
    case Group(line, arrows) => [Sign('(')] + LineToks(line) + [Sign(')')] + ItemsToks(arrows)
  }

  function PipesToks(c: Pipes): (l: seq<Lexeme>) {
    match c
    case Last(cmd) => SimpleToks(cmd)
    case Into(cmd, next) => SimpleToks(cmd) + [Sign('|')] + PipesToks(next)
  }

  function LineToks(c: Line): (l: seq<Lexeme>) {
    match c
    case End(first, amps) => PipesToks(first) + Amps(amps)
    case Then(first, amps, next) => PipesToks(first) + Amps(amps) + [Sign(';')] + LineToks(next)
  }

  // ---- What a line means ---------------------------------------------------------------------

  function ArgsOf(items: seq<Item>): (r: seq<string>) {
    if items == [] then [] else (if items[0].Arg? then [items[0].word] else []) + ArgsOf(items[1..])
  }

  datatype Redirect = Redirect(file: string, input: bool)

  function ArrowsOf(items: seq<Item>): (r: seq<Redirect>) {
    if items == [] then []
    else (if items[0].Arrow? then [Redirect(items[0].file, items[0].kind == '<')] else []) + ArrowsOf(items[1..])
  }

  /** The command with redirections applied from left to right, the last outermost. */
  function Around(t: Tree, list: seq<Redirect>): (r: Tree)
    decreases |list|
  {
    if list == [] then t
    else var n := |list| - 1; TRedir(Around(t, list[..n]), list[n].file, list[n].input)
  }

  function Backs(t: Tree, n: nat): (r: Tree) {
    if n == 0 then t else TBack(Backs(t, n - 1))
  }

  function SimpleTree(c: Simple): (t: Tree) {
    match c
    case Plain(items) => Around(TExec(ArgsOf(items)), ArrowsOf(items))
    case Group(line, arrows) => Around(LineTree(line), ArrowsOf(arrows))
  }

  function PipesTree(c: Pipes): (t: Tree) {
    match c
    case Last(cmd) => SimpleTree(cmd)
    case Into(cmd, next) => TPipe(SimpleTree(cmd), PipesTree(next))
  }

  function LineTree(c: Line): (t: Tree) {
    match c
    case End(first, amps) => Backs(PipesTree(first), amps)
    case Then(first, amps, next) => TList(Backs(PipesTree(first), amps), LineTree(next))
  }

  predicate ItemOk(x: Item) {
    match x
    case Arg(word) => LegalWord(word)
    case Arrow(kind, file) => (kind == '<' || kind == '>' || kind == '+') && LegalWord(file)
  }

  predicate ItemsOk(items: seq<Item>) {
    forall k :: 0 <= k < |items| ==> ItemOk(items[k])
  }

  predicate AllArrows(items: seq<Item>) {
    forall k :: 0 <= k < |items| ==> items[k].Arrow?
  }

  predicate SimpleOk(c: Simple) {
    match c
    case Plain(items) => ItemsOk(items) && |ArgsOf(items)| < MAXARGS
    case Group(line, arrows) => LineOk(line) && ItemsOk(arrows) && AllArrows(arrows)
  }

  predicate PipesOk(c: Pipes) {
    match c
    case Last(cmd) => SimpleOk(cmd)
    case Into(cmd, next) => SimpleOk(cmd) && PipesOk(next)
  }

  predicate LineOk(c: Line) {
    match c
    case End(first, _) => PipesOk(first)
    case Then(first, _, next) => PipesOk(first) && LineOk(next)
  }

  // ---- Items ---------------------------------------------------------------------------------

  lemma ItemsUnfold(items: seq<Item>)
    requires items != []
    ensures var x, rest := items[0], items[1..];
      && ItemsToks(items) == ItemToks(x) + ItemsToks(rest)
      && ArgsOf(items) == (if x.Arg? then [x.word] else []) + ArgsOf(rest)
      && ArrowsOf(items) == (if x.Arrow? then [Redirect(x.file, x.kind == '<')] else []) + ArrowsOf(rest)
  {
  }

  lemma {:induction false} ItemsJoin(a: seq<Item>, b: seq<Item>)
    ensures ItemsToks(a + b) == ItemsToks(a) + ItemsToks(b) && ArgsOf(a + b) == ArgsOf(a) + ArgsOf(b)
    ensures ArrowsOf(a + b) == ArrowsOf(a) + ArrowsOf(b)
    decreases |a|
  {
    if a == [] {
      assert a + b == b;
      return;
    }
    hide ItemsToks, ArgsOf, ArrowsOf, ItemToks;
    var rest, c := a[1..], a + b;
    assert c[1..] == rest + b && c[0] == a[0];
    ItemsUnfold(a);
    ItemsUnfold(c);
    ItemsJoin(rest, b);
    Assoc(ItemToks(a[0]), ItemsToks(rest), ItemsToks(b));
    Assoc(if a[0].Arg? then [a[0].word] else [], ArgsOf(rest), ArgsOf(b));
    Assoc(if a[0].Arrow? then [Redirect(a[0].file, a[0].kind == '<')] else [], ArrowsOf(rest), ArrowsOf(b));
  }

  lemma Assoc<T>(a: seq<T>, b: seq<T>, c: seq<T>)
    ensures a + b + c == a + (b + c)
  {
  }

  lemma {:induction false} OnlyArrows(items: seq<Item>)
    requires AllArrows(items)
    ensures ArgsOf(items) == []
  {
    if items != [] { OnlyArrows(items[1..]); }
  }

  /** The redirections that a parsed list stands for. */
  function Redirects(s: string, list: seq<Redirection>): (r: seq<Redirect>)
    ensures |r| == |list| && forall k :: 0 <= k < |list| ==> r[k] == Redirect(Text(s, list[k].file), list[k].input)
  {
    seq(|list|, k requires 0 <= k < |list| => Redirect(Text(s, list[k].file), list[k].input))
  }

  lemma RedirectsJoin(s: string, a: seq<Redirection>, b: seq<Redirection>)
    ensures Redirects(s, a + b) == Redirects(s, a) + Redirects(s, b)
  {
  }

  lemma {:induction false} AroundFirst(t: Tree, x: Redirect, list: seq<Redirect>)
    ensures Around(TRedir(t, x.file, x.input), list) == Around(t, [x] + list)
    decreases |list|
  {
    if list == [] {
      assert ([x] + list)[..0] == [];
    } else {
      var n := |list| - 1;
      AroundFirst(t, x, list[..n]);
      assert ([x] + list)[..n + 1] == [x] + list[..n];
    }
  }

  lemma {:induction false} WrapMeans(s: string, c: Cmd, list: seq<Redirection>)
    ensures Meaning(s, WithRedirs(c, list)) == Around(Meaning(s, c), Redirects(s, list))
    decreases |list|
  {
    if list != [] {
      var x := list[0];
      WrapMeans(s, Redir(c, x), list[1..]);
      AroundFirst(Meaning(s, c), Redirect(Text(s, x.file), x.input), Redirects(s, list[1..]));
      assert Redirects(s, list) == [Redirect(Text(s, x.file), x.input)] + Redirects(s, list[1..]);
    }
  }

  // ---- Reading what the grammar derives ------------------------------------------------------

  lemma TakeWord(s: string, i: nat, w: string, rest: seq<Lexeme>)
    requires i <= |s| && NoNul(s) && Lex(s, i) == [Word(w)] + rest
    ensures var t := GetToken(s, i); t.kind == 'a' && i < t.next && Text(s, Slice(t.begin, t.end)) == w && Lex(s, t.next) == rest
  {
    hide Lex, GetToken, Text;
    LexStep(s, i);
    assert Lex(s, i)[0] == Word(w) && Lex(s, i)[1..] == rest;
    TokenKind(s, i);
    assert ([Lex(s, i)[0]] + Lex(s, GetToken(s, i).next))[1..] == Lex(s, GetToken(s, i).next);
  }

  lemma TakeSign(s: string, i: nat, kind: char, rest: seq<Lexeme>)
    requires i <= |s| && NoNul(s) && Lex(s, i) == [Sign(kind)] + rest
    ensures var t := GetToken(s, i); t.kind == kind && i < t.next && Lex(s, t.next) == rest
  {
    hide Lex, GetToken, Text;
    LexStep(s, i);
    assert Lex(s, i)[0] == Sign(kind) && Lex(s, i)[1..] == rest;
    TokenKind(s, i);
    assert ([Lex(s, i)[0]] + Lex(s, GetToken(s, i).next))[1..] == Lex(s, GetToken(s, i).next);
  }

  lemma TokenKind(s: string, i: nat)
    requires i <= |s| && NoNul(s)
    ensures var k := GetToken(s, i).kind; k == NUL || k == 'a' || k == '+' || IsSymbol(k)
  {
  }

  /** No redirection comes next. */
  predicate NoArrow(l: seq<Lexeme>) {
    First(l) != '<' && First(l) != '>'
  }

  lemma {:induction false} RedirsRead(items: seq<Item>, s: string, i: nat, rest: seq<Lexeme>)
    requires i <= |s| && NoNul(s) && ItemsOk(items) && AllArrows(items) && Lex(s, i) == ItemsToks(items) + rest && NoArrow(rest)
    ensures var r := ReadRedirs(s, i); r.Redirs? && Lex(s, r.next) == rest && Redirects(s, r.list) == ArrowsOf(items)
    decreases |items|
  {
    hide Lex, GetToken, Skip, Peek, ReadRedirs, Text, ItemsToks, ArrowsOf, LegalWord;
    PeekStep(s, i, "<>");
    RedirsStep(s, i);
    if items == [] {
      NoItems();
      assert ItemsToks(items) + rest == rest;
      LexStep(s, i);
    } else {
      var x, more := items[0], items[1..];
      ItemsUnfold(items);
      assert ItemsToks(items) + rest == [Sign(x.kind)] + ([Word(x.file)] + (ItemsToks(more) + rest));
      TakeSign(s, i, x.kind, [Word(x.file)] + (ItemsToks(more) + rest));
      var tok := GetToken(s, i);
      TakeWord(s, tok.next, x.file, ItemsToks(more) + rest);
      var f := GetToken(s, tok.next);
      RedirsRead(more, s, f.next, rest);
      var r := ReadRedirs(s, f.next);
      assert Redirects(s, ReadRedirs(s, i).list) == [Redirect(x.file, x.kind == '<')] + Redirects(s, r.list);
    }
  }

  lemma NoItems()
    ensures ItemsToks([]) == [] && ArgsOf([]) == [] && ArrowsOf([]) == []
  {
  }

  /** How many redirections come before the first argument. */
  function Lead(items: seq<Item>): (m: nat)
    ensures m <= |items| && AllArrows(items[..m]) && (m < |items| ==> items[m].Arg?)
  {
    if items != [] && items[0].Arrow? then
      assert items[1..][..Lead(items[1..])] == items[1..1 + Lead(items[1..])];
      1 + Lead(items[1..])
    else 0
  }

  /** Nothing that belongs to a simple command comes next. */
  predicate Stop(l: seq<Lexeme>) {
    l == [] || First(l) == '|' || First(l) == ')' || First(l) == '&' || First(l) == ';'
  }

  /** What comes before the first argument, and the rest. */
  lemma Split(items: seq<Item>, rest: seq<Lexeme>)
    requires Stop(rest) && ItemsOk(items)
    ensures var m := Lead(items); var a, b := items[..m], items[m..];
      && ItemsToks(items) + rest == ItemsToks(a) + (ItemsToks(b) + rest) && NoArrow(ItemsToks(b) + rest)
      && ArgsOf(b) == ArgsOf(items) && ArrowsOf(items) == ArrowsOf(a) + ArrowsOf(b)
      && ItemsOk(a) && ItemsOk(b) && (b == [] || b[0].Arg?)
  {
    hide ArgsOf, ArrowsOf, ItemOk, ItemsToks, Lead, Stop, NoArrow;
    var m := Lead(items);
    var a, b := items[..m], items[m..];
    assert items == a + b;
    ItemsJoin(a, b);
    OnlyArrows(a);
    Assoc(ItemsToks(a), ItemsToks(b), rest);
    ArgStarts(b, rest);
  }

  lemma ArgStarts(items: seq<Item>, rest: seq<Lexeme>)
    requires Stop(rest) && (items == [] || items[0].Arg?)
    ensures NoArrow(ItemsToks(items) + rest)
  {
    if items != [] {
      ItemsUnfold(items);
      assert (ItemsToks(items) + rest)[0] == Word(items[0].word);
    } else {
      assert ItemsToks(items) + rest == rest;
    }
  }

  lemma {:induction false} ArgsRead(items: seq<Item>, s: string, i: nat, n: nat, rest: seq<Lexeme>)
    requires i <= |s| && NoNul(s) && ItemsOk(items) && (items == [] || items[0].Arg?) && n + |ArgsOf(items)| < MAXARGS
    requires Lex(s, i) == ItemsToks(items) + rest && Stop(rest)
    ensures var r := ReadArgs(s, i, n);
      r.Args? && Lex(s, r.next) == rest && Texts(s, r.args) == ArgsOf(items) && Redirects(s, r.list) == ArrowsOf(items)
    decreases |items|
  {
    hide Lex, GetToken, Skip, Peek, ReadRedirs, ReadArgs, Text, ItemsToks, ArrowsOf, ArgsOf, Lead, ItemOk, Redirects;
    PeekStep(s, i, "|)&;");
    ArgsStep(s, i, n);
    LexStep(s, i);
    if items == [] {
      NoItems();
      assert ItemsToks(items) + rest == rest && Redirects(s, []) == [];
      if GetToken(s, i).kind == NUL { LexEnd(s, i); }
      return;
    }
    var more := items[1..];
    ItemsUnfold(items);
    assert ItemsToks(items) + rest == [Word(items[0].word)] + (ItemsToks(more) + rest);
    TakeWord(s, i, items[0].word, ItemsToks(more) + rest);
    var tok := GetToken(s, i);
    var m := Lead(more);
    Split(more, rest);
    RedirsRead(more[..m], s, tok.next, ItemsToks(more[m..]) + rest);
    var redirs := ReadRedirs(s, tok.next);
    ArgsRead(more[m..], s, redirs.next, n + 1, rest);
    var r := ReadArgs(s, redirs.next, n + 1);
    assert Texts(s, [Slice(tok.begin, tok.end)] + r.args) == [items[0].word] + Texts(s, r.args);
    RedirectsJoin(s, redirs.list, r.list);
  }

  lemma LexEnd(s: string, i: nat)
    requires i <= |s| && NoNul(s) && GetToken(s, i).kind == NUL
    ensures Lex(s, GetToken(s, i).next) == []
  {
    LexStep(s, i);
    SkipAgain(s, i);
  }

  /** The parser at i finds a command that means t and leaves rest. */
  ghost predicate Finds(s: string, r: Result, t: Tree, rest: seq<Lexeme>)
    requires NoNul(s)
  {
    r.Parsed? && r.next <= |s| && Meaning(s, r.cmd) == t && Lex(s, r.next) == rest
  }

  lemma ItemsRead(items: seq<Item>, s: string, i: nat, rest: seq<Lexeme>)
    requires i <= |s| && NoNul(s) && ItemsOk(items) && |ArgsOf(items)| < MAXARGS && Lex(s, i) == ItemsToks(items) + rest && Stop(rest)
    ensures var redirs := ReadRedirs(s, i);
      redirs.Redirs? && var args := ReadArgs(s, redirs.next, 0);
        && args.Args? && Lex(s, args.next) == rest && Texts(s, args.args) == ArgsOf(items)
        && Redirects(s, redirs.list + args.list) == ArrowsOf(items)
  {
    hide Lex, ReadRedirs, ReadArgs, ArrowsOf, ArgsOf, Lead, ItemOk, ItemsToks, Stop, NoArrow, Texts, Redirects;
    var m := Lead(items);
    Split(items, rest);
    RedirsRead(items[..m], s, i, ItemsToks(items[m..]) + rest);
    var redirs := ReadRedirs(s, i);
    ArgsRead(items[m..], s, redirs.next, 0, rest);
    RedirectsJoin(s, redirs.list, ReadArgs(s, redirs.next, 0).list);
  }

  lemma PlainRead(items: seq<Item>, s: string, i: nat, rest: seq<Lexeme>)
    requires i <= |s| && NoNul(s) && SimpleOk(Plain(items)) && Lex(s, i) == ItemsToks(items) + rest && Stop(rest)
    ensures Finds(s, ParseExec(s, i), Around(TExec(ArgsOf(items)), ArrowsOf(items)), rest)
  {
    hide Lex, Peek, ReadRedirs, ReadArgs, ArrowsOf, ArgsOf, ItemsOk, WithRedirs, Around, ParseBlock, ItemsToks, Stop, First, Texts, Redirects;
    PeekStep(s, i, "(");
    PlainStarts(items, rest);
    ItemsRead(items, s, i, rest);
    var redirs := ReadRedirs(s, i);
    var args := ReadArgs(s, redirs.next, 0);
    WrapMeans(s, Exec(args.args), redirs.list + args.list);
  }

  lemma PlainStarts(items: seq<Item>, rest: seq<Lexeme>)
    requires ItemsOk(items) && Stop(rest)
    ensures First(ItemsToks(items) + rest) != '('
  {
    if items == [] {
      assert ItemsToks(items) + rest == rest;
    } else {
      ItemsUnfold(items);
      assert (ItemsToks(items) + rest)[0] == ItemToks(items[0])[0];
    }
  }

  lemma {:induction false} GroupRead(c: Simple, s: string, i: nat, rest: seq<Lexeme>)
    requires i <= |s| && NoNul(s) && c.Group? && SimpleOk(c) && Lex(s, i) == SimpleToks(c) + rest && Stop(rest)
    ensures Finds(s, ParseExec(s, i), SimpleTree(c), rest)
    decreases c, 0
  {
    hide Lex, GetToken, Skip, Peek, ReadRedirs, Text, ArrowsOf, ItemOk, WithRedirs, Around, ItemsToks, LineToks, LineTree, ParseLine;
    var after := [Sign(')')] + (ItemsToks(c.arrows) + rest);
    assert SimpleToks(c) + rest == [Sign('(')] + (LineToks(c.line) + after);
    PeekStep(s, i, "(");
    TakeSign(s, i, '(', LineToks(c.line) + after);
    var open := GetToken(s, i);
    LineRead(c.line, s, open.next, after);
    var line := ParseLine(s, open.next);
    PeekStep(s, line.next, ")");
    TakeSign(s, line.next, ')', ItemsToks(c.arrows) + rest);
    var close := GetToken(s, line.next);
    RedirsRead(c.arrows, s, close.next, rest);
    WrapMeans(s, line.cmd, ReadRedirs(s, close.next).list);
  }

  lemma {:induction false} SimpleRead(c: Simple, s: string, i: nat, rest: seq<Lexeme>)
    requires i <= |s| && NoNul(s) && SimpleOk(c) && Lex(s, i) == SimpleToks(c) + rest && Stop(rest)
    ensures Finds(s, ParseExec(s, i), SimpleTree(c), rest)
    decreases c, 1
  {
    hide Lex, ParseExec, Finds, ItemsToks, ArgsOf, ArrowsOf, Around, LineToks, LineTree;
    if c.Plain? { PlainRead(c.items, s, i, rest); } else { GroupRead(c, s, i, rest); }
  }

  lemma {:induction false} PipesRead(c: Pipes, s: string, i: nat, rest: seq<Lexeme>)
    requires i <= |s| && NoNul(s) && PipesOk(c) && Lex(s, i) == PipesToks(c) + rest && Stop(rest) && First(rest) != '|'
    ensures Finds(s, ParsePipe(s, i), PipesTree(c), rest)
    decreases c
  {
    hide Lex, GetToken, Skip, Peek, ParseExec, SimpleToks, SimpleTree;
    if c.Last? {
      SimpleRead(c.cmd, s, i, rest);
      var left := ParseExec(s, i);
      PeekStep(s, left.next, "|");
      LexStep(s, left.next);
    } else {
      var after := PipesToks(c.next) + rest;
      assert PipesToks(c) + rest == SimpleToks(c.cmd) + ([Sign('|')] + after);
      SimpleRead(c.cmd, s, i, [Sign('|')] + after);
      var left := ParseExec(s, i);
      PeekStep(s, left.next, "|");
      TakeSign(s, left.next, '|', after);
      PipesRead(c.next, s, GetToken(s, left.next).next, rest);
    }
  }

  lemma {:induction false} BacksRead(n: nat, s: string, i: nat, cmd: Cmd, rest: seq<Lexeme>)
    requires i <= |s| && NoNul(s) && Lex(s, i) == Amps(n) + rest && First(rest) != '&'
    ensures Finds(s, ReadBacks(s, i, cmd), Backs(Meaning(s, cmd), n), rest)
    decreases n
  {
    hide Lex, GetToken, Skip, Peek;
    PeekStep(s, i, "&");
    LexStep(s, i);
    if n == 0 {
      assert Amps(n) + rest == rest;
    } else {
      assert Amps(n) + rest == [Sign('&')] + (Amps(n - 1) + rest);
      TakeSign(s, i, '&', Amps(n - 1) + rest);
      BacksRead(n - 1, s, GetToken(s, i).next, Back(cmd), rest);
      BacksInner(Meaning(s, cmd), n - 1);
    }
  }

  lemma {:induction false} BacksInner(t: Tree, n: nat)
    ensures Backs(TBack(t), n) == TBack(Backs(t, n))
  {
    if n > 0 { BacksInner(t, n - 1); }
  }

  lemma AmpsStart(n: nat, rest: seq<Lexeme>)
    requires First(rest) != '|' && Stop(rest)
    ensures Stop(Amps(n) + rest) && First(Amps(n) + rest) != '|'
  {
    if n == 0 { assert Amps(n) + rest == rest; }
  }

  lemma {:induction false} LineRead(c: Line, s: string, i: nat, rest: seq<Lexeme>)
    requires i <= |s| && NoNul(s) && LineOk(c) && Lex(s, i) == LineToks(c) + rest && (rest == [] || First(rest) == ')')
    ensures Finds(s, ParseLine(s, i), LineTree(c), rest)
    decreases c
  {
    hide Lex, GetToken, Skip, Peek, ParsePipe, ReadBacks, PipesToks, PipesTree, Amps, Backs;
    var after := if c.End? then rest else [Sign(';')] + (LineToks(c.next) + rest);
    assert LineToks(c) + rest == PipesToks(c.first) + (Amps(c.amps) + after);
    AmpsStart(c.amps, after);
    PipesRead(c.first, s, i, Amps(c.amps) + after);
    var first := ParsePipe(s, i);
    BacksRead(c.amps, s, first.next, first.cmd, after);
    var left := ReadBacks(s, first.next, first.cmd);
    PeekStep(s, left.next, ";");
    LexStep(s, left.next);
    if c.Then? {
      TakeSign(s, left.next, ';', LineToks(c.next) + rest);
      LineRead(c.next, s, GetToken(s, left.next).next, rest);
    }
  }
}

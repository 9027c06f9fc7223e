/** What the parser accepts: a line parses if and only if the grammar derives its tokens, and then to the
    command that the derivation means. */
module ShellDerive {
  import opened Common
  import opened ShellLex
  import opened ShellParse
  import opened ShellGrammar

  // ---- A derivation for whatever parses ------------------------------------------------------

  lemma {:induction false} RedirsDerive(s: string, i: nat) returns (items: seq<Item>)
    requires i <= |s| && NoNul(s) && ReadRedirs(s, i).Redirs?
    ensures ItemsOk(items) && AllArrows(items) && ArrowsOf(items) == Redirects(s, ReadRedirs(s, i).list)
    ensures Lex(s, i) == ItemsToks(items) + Lex(s, ReadRedirs(s, i).next) && NoArrow(Lex(s, ReadRedirs(s, i).next))
    decreases |s| - i
  {
    hide Lex, GetToken, Skip, Peek, ReadRedirs, Text, ItemsToks, ArrowsOf, LegalWord;
    PeekStep(s, i, "<>");
    RedirsStep(s, i);
    LexStep(s, i);
    NoItems();
    if !Peek(s, i, "<>") {
      items := [];
    } else {
      var tok := GetToken(s, i);
      LexStep(s, tok.next);
      var f := GetToken(s, tok.next);
      var more := RedirsDerive(s, f.next);
      var x := Arrow(tok.kind, Text(s, Slice(f.begin, f.end)));
      items := [x] + more;
      assert items[1..] == more;
      ItemsUnfold(items);
      var list := ReadRedirs(s, f.next).list;
      assert Redirects(s, ReadRedirs(s, i).list) == [Redirect(x.file, x.kind == '<')] + Redirects(s, list);
      assert Lex(s, i) == [Sign(x.kind), Word(x.file)] + Lex(s, f.next);
    }
  }

  lemma {:induction false} ArgsDerive(s: string, i: nat, n: nat) returns (items: seq<Item>)
    requires i <= |s| && NoNul(s) && n < MAXARGS && ReadArgs(s, i, n).Args?
    ensures ItemsOk(items) && n + |ArgsOf(items)| < MAXARGS
    ensures ArgsOf(items) == Texts(s, ReadArgs(s, i, n).args) && ArrowsOf(items) == Redirects(s, ReadArgs(s, i, n).list)
    ensures Lex(s, i) == ItemsToks(items) + Lex(s, ReadArgs(s, i, n).next)
    decreases |s| - i
  {
    hide Lex, GetToken, Skip, Peek, ReadRedirs, ReadArgs, Text, ItemsToks, ArrowsOf, ArgsOf, LegalWord, Redirects, Texts, NoArrow;
    ArgsStep(s, i, n);
    LexStep(s, i);
    NoItems();
    var tok := GetToken(s, i);
    if Peek(s, i, "|)&;") || tok.kind == NUL {
      if !Peek(s, i, "|)&;") { LexEnd(s, i); }
      NothingRead(s);
      items := [];
      return;
    }
    var w := Text(s, Slice(tok.begin, tok.end));
    var arrows := RedirsDerive(s, tok.next);
    var redirs := ReadRedirs(s, tok.next);
    var more := ArgsDerive(s, redirs.next, n + 1);
    var r := ReadArgs(s, redirs.next, n + 1);
    items := [Arg(w)] + (arrows + more);
    assert items[1..] == arrows + more;
    ItemsUnfold(items);
    ItemsJoin(arrows, more);
    OnlyArrows(arrows);
    RedirectsJoin(s, redirs.list, r.list);
    TextsFirst(s, Slice(tok.begin, tok.end), r.args);
    Assoc(ItemsToks(arrows), ItemsToks(more), Lex(s, r.next));
    Assoc([Word(w)], ItemsToks(arrows + more), Lex(s, r.next));
  }

  lemma NothingRead(s: string)
    ensures Texts(s, []) == [] && Redirects(s, []) == []
  {
  }

  lemma TextsFirst(s: string, w: Slice, ws: seq<Slice>)
    ensures Texts(s, [w] + ws) == [Text(s, w)] + Texts(s, ws)
  {
  }

  lemma PlainDerive(s: string, i: nat) returns (c: Simple)
    requires i <= |s| && NoNul(s) && !Peek(s, i, "(") && ParseExec(s, i).Parsed?
    ensures SimpleOk(c) && SimpleTree(c) == Meaning(s, ParseExec(s, i).cmd)
    ensures Lex(s, i) == SimpleToks(c) + Lex(s, ParseExec(s, i).next)
  {
    hide Lex, Peek, ReadRedirs, ReadArgs, ItemsToks, ArrowsOf, ArgsOf, Redirects, Texts, WithRedirs, Around, NoArrow;
    var arrows := RedirsDerive(s, i);
    var redirs := ReadRedirs(s, i);
    var more := ArgsDerive(s, redirs.next, 0);
    var args := ReadArgs(s, redirs.next, 0);
    ItemsJoin(arrows, more);
    OnlyArrows(arrows);
    RedirectsJoin(s, redirs.list, args.list);
    Assoc(ItemsToks(arrows), ItemsToks(more), Lex(s, args.next));
    WrapMeans(s, Exec(args.args), redirs.list + args.list);
    assert [] + ArgsOf(more) == ArgsOf(more);
    c := Plain(arrows + more);
  }

  lemma {:induction false} GroupDerive(s: string, i: nat) returns (c: Simple)
    requires i <= |s| && NoNul(s) && Peek(s, i, "(") && ParseBlock(s, i).Parsed?
    ensures SimpleOk(c) && SimpleTree(c) == Meaning(s, ParseBlock(s, i).cmd)
    ensures Lex(s, i) == SimpleToks(c) + Lex(s, ParseBlock(s, i).next)
    decreases |s| - i, 0
  {
    hide Lex, Skip, GetToken, Peek, ReadRedirs, ItemsToks, ArrowsOf, Redirects, Text, WithRedirs, Around, ParseLine, LineToks, LineTree, LineOk, NoArrow;
    PeekStep(s, i, "(");
    LexStep(s, i);
    var open := GetToken(s, i);
    var line := LineDerive(s, open.next);
    var r := ParseLine(s, open.next);
    PeekStep(s, r.next, ")");
    LexStep(s, r.next);
    var close := GetToken(s, r.next);
    var arrows := RedirsDerive(s, close.next);
    var redirs := ReadRedirs(s, close.next);
    WrapMeans(s, r.cmd, redirs.list);
    c := Group(line, arrows);
    GroupToks(LineToks(line), ItemsToks(arrows), Lex(s, redirs.next));
  }

  lemma GroupToks(a: seq<Lexeme>, b: seq<Lexeme>, rest: seq<Lexeme>)
    ensures [Sign('(')] + a + [Sign(')')] + b + rest == [Sign('(')] + (a + ([Sign(')')] + (b + rest)))
  {
  }

  lemma {:induction false} SimpleDerive(s: string, i: nat) returns (c: Simple)
    requires i <= |s| && NoNul(s) && ParseExec(s, i).Parsed?
    ensures SimpleOk(c) && SimpleTree(c) == Meaning(s, ParseExec(s, i).cmd)
    ensures Lex(s, i) == SimpleToks(c) + Lex(s, ParseExec(s, i).next)
    decreases |s| - i, 1
  {
    hide Lex, Peek, ReadRedirs, ReadArgs, ParseBlock, SimpleOk, SimpleTree, SimpleToks, WithRedirs;
    if Peek(s, i, "(") { c := GroupDerive(s, i); } else { c := PlainDerive(s, i); }
  }

  lemma {:induction false} PipesDerive(s: string, i: nat) returns (c: Pipes)
    requires i <= |s| && NoNul(s) && ParsePipe(s, i).Parsed?
    ensures PipesOk(c) && PipesTree(c) == Meaning(s, ParsePipe(s, i).cmd)
    ensures Lex(s, i) == PipesToks(c) + Lex(s, ParsePipe(s, i).next)
    decreases |s| - i, 2
  {
    hide Lex, Skip, GetToken, Peek, ParseExec, SimpleOk, SimpleTree, SimpleToks;
    var cmd := SimpleDerive(s, i);
    var left := ParseExec(s, i);
    PeekStep(s, left.next, "|");
    LexStep(s, left.next);
    if !Peek(s, left.next, "|") {
      c := Last(cmd);
    } else {
      var m := GetToken(s, left.next).next;
      var next := PipesDerive(s, m);
      c := Into(cmd, next);
      Between(SimpleToks(cmd), Sign('|'), PipesToks(next), Lex(s, ParsePipe(s, m).next));
    }
  }

  lemma Between(a: seq<Lexeme>, x: Lexeme, b: seq<Lexeme>, rest: seq<Lexeme>)
    ensures a + [x] + b + rest == a + ([x] + (b + rest))
  {
  }

  lemma {:induction false} BacksDerive(s: string, i: nat, cmd: Cmd) returns (n: nat)
    requires i <= |s| && NoNul(s)
    ensures Meaning(s, ReadBacks(s, i, cmd).cmd) == Backs(Meaning(s, cmd), n)
    ensures Lex(s, i) == Amps(n) + Lex(s, ReadBacks(s, i, cmd).next)
    decreases |s| - i
  {
    hide Lex, Skip, GetToken, Peek;
    PeekStep(s, i, "&");
    LexStep(s, i);
    if !Peek(s, i, "&") {
      n := 0;
    } else {
      var m := BacksDerive(s, GetToken(s, i).next, Back(cmd));
      BacksInner(Meaning(s, cmd), m);
      n := m + 1;
      assert Amps(n) + Lex(s, ReadBacks(s, i, cmd).next) == [Sign('&')] + (Amps(m) + Lex(s, ReadBacks(s, i, cmd).next));
    }
  }

  lemma {:induction false} LineDerive(s: string, i: nat) returns (c: Line)
    requires i <= |s| && NoNul(s) && ParseLine(s, i).Parsed?
    ensures LineOk(c) && LineTree(c) == Meaning(s, ParseLine(s, i).cmd)
    ensures Lex(s, i) == LineToks(c) + Lex(s, ParseLine(s, i).next)
    decreases |s| - i, 3
  {
    hide Lex, Skip, GetToken, Peek, ParsePipe, ReadBacks, PipesOk, PipesTree, PipesToks, Amps, Backs;
    var first := PipesDerive(s, i);
    var r := ParsePipe(s, i);
    var n := BacksDerive(s, r.next, r.cmd);
    var left := ReadBacks(s, r.next, r.cmd);
    PeekStep(s, left.next, ";");
    LexStep(s, left.next);
    Assoc(PipesToks(first), Amps(n), Lex(s, left.next));
    if !Peek(s, left.next, ";") {
      c := End(first, n);
    } else {
      var m := GetToken(s, left.next).next;
      var next := LineDerive(s, m);
      c := Then(first, n, next);
      Between(PipesToks(first) + Amps(n), Sign(';'), LineToks(next), Lex(s, ParseLine(s, m).next));
    }
  }

  // ---- Exactly the grammar -------------------------------------------------------------------

  /** The grammar derives line s, as c, and it means t. */
  ghost predicate Derives(c: Line, s: string, t: Tree)
    requires NoNul(s)
  {
    LineOk(c) && LineToks(c) == Lex(s, 0) && LineTree(c) == t
  }

  /** s parses to a command that means t. */
  ghost predicate ParsesTo(s: string, t: Tree)
    requires NoNul(s)
  {
    ParseCmd(s).Parsed? && Meaning(s, ParseCmd(s).cmd) == t
  }

  /** For every line and every command: the line parses to that command if and only if the grammar derives the
      line with that meaning. In particular every derivation of a line has the same meaning. */
  lemma ParsesExactly(s: string, t: Tree)
    requires NoNul(s)
    ensures ParsesTo(s, t) <==> exists c :: Derives(c, s, t)
  {
    hide ParseLine, LineOk, LineToks, LineTree, Lex, Skip, Meaning;
    if ParsesTo(s, t) {
      var c := LineDerive(s, 0);
      LexStep(s, ParseLine(s, 0).next);
      assert LineToks(c) + [] == LineToks(c);
      assert Derives(c, s, t);
    }
    forall c | Derives(c, s, t) ensures ParsesTo(s, t) {
      assert Lex(s, 0) == LineToks(c) + [];
      LineRead(c, s, 0, []);
      LexStep(s, ParseLine(s, 0).next);
    }
  }

  // ---- Legal commands ------------------------------------------------------------------------

  predicate LegalWords(ws: seq<string>) {
    forall k :: 0 <= k < |ws| ==> LegalWord(ws[k])
  }

  predicate Legal(t: Tree) {
    match t
    case TExec(words) => |words| < MAXARGS && LegalWords(words)
    case TRedir(cmd, file, _) => Legal(cmd) && LegalWord(file)
    case TPipe(left, right) => Legal(left) && Legal(right)
    case TList(left, right) => Legal(left) && Legal(right)
    case TBack(cmd) => Legal(cmd)
  }

  lemma {:induction false} AroundLegal(t: Tree, list: seq<Redirect>)
    requires Legal(t) && forall k :: 0 <= k < |list| ==> LegalWord(list[k].file)
    ensures Legal(Around(t, list))
    decreases |list|
  {
    if list != [] { AroundLegal(t, list[..|list| - 1]); }
  }

  lemma {:induction false} ItemsLegal(items: seq<Item>)
    requires ItemsOk(items)
    ensures LegalWords(ArgsOf(items)) && forall k :: 0 <= k < |ArrowsOf(items)| ==> LegalWord(ArrowsOf(items)[k].file)
    decreases |items|
  {
    if items != [] {
      assert ItemOk(items[0]);
      ItemsLegal(items[1..]);
    }
  }

  lemma {:induction false} BacksLegal(t: Tree, n: nat)
    requires Legal(t)
    ensures Legal(Backs(t, n))
  {
    if n > 0 { BacksLegal(t, n - 1); }
  }

  lemma {:induction false} SimpleLegal(c: Simple)
    requires SimpleOk(c)
    ensures Legal(SimpleTree(c))
  {
    hide ArgsOf, ArrowsOf, Around, LineTree, LegalWord;
    if c.Plain? {
      ItemsLegal(c.items);
      AroundLegal(TExec(ArgsOf(c.items)), ArrowsOf(c.items));
    } else {
      LineLegal(c.line);
      ItemsLegal(c.arrows);
      AroundLegal(LineTree(c.line), ArrowsOf(c.arrows));
    }
  }

  lemma {:induction false} PipesLegal(c: Pipes)
    requires PipesOk(c)
    ensures Legal(PipesTree(c))
  {
    SimpleLegal(c.cmd);
    if c.Into? { PipesLegal(c.next); }
  }

  lemma {:induction false} LineLegal(c: Line)
    requires LineOk(c)
    ensures Legal(LineTree(c))
  {
    PipesLegal(c.first);
    BacksLegal(PipesTree(c.first), c.amps);
    if c.Then? { LineLegal(c.next); }
  }

  /** Every simple command leaves room for the NULL behind its arguments. */
  predicate ArgsFit(c: Cmd) {
    match c
    case Exec(args) => |args| < MAXARGS
    case Redir(cmd, _) => ArgsFit(cmd)
    case Pipe(left, right) => ArgsFit(left) && ArgsFit(right)
    case List(left, right) => ArgsFit(left) && ArgsFit(right)
    case Back(cmd) => ArgsFit(cmd)
  }

  lemma {:induction false} LegalFits(s: string, c: Cmd)
    requires Legal(Meaning(s, c))
    ensures ArgsFit(c)
  {
    match c
    case Exec(_) =>
    case Redir(cmd, _) => LegalFits(s, cmd);
    case Pipe(left, right) =>
      LegalFits(s, left);
      LegalFits(s, right);
    case List(left, right) =>
      LegalFits(s, left);
      LegalFits(s, right);
    case Back(cmd) => LegalFits(s, cmd);
  }

  /** Whatever parses is a legal command, with no argument vector filled past its end. */
  lemma ParsedIsLegal(s: string)
    requires NoNul(s) && ParseCmd(s).Parsed?
    ensures ArgsFit(ParseCmd(s).cmd) && Legal(Meaning(s, ParseCmd(s).cmd))
  {
    hide ParseCmd, LineOk, LineToks, LineTree, Lex, Meaning, Legal;
    var t := Meaning(s, ParseCmd(s).cmd);
    ParsesExactly(s, t);
    var c :| Derives(c, s, t);
    LineLegal(c);
    LegalFits(s, ParseCmd(s).cmd);
  }
}

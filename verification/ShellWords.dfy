/** Which words a parsed command has: exactly the words of the line, and, once the ends of words have
    been overwritten with NUL (sh.c:449-494), each still spelled as it was. */
module ShellWords {
  import opened Common
  import opened ShellLex
  import opened ShellParse

  // ---- Words of a line -----------------------------------------------------------------------

  /** A maximal run of word characters. */
  predicate IsWord(s: string, b: nat, e: nat) {
    && b < e <= |s| && (forall k :: b <= k < e ==> IsWordChar(s[k]))
    && (b > 0 ==> !IsWordChar(s[b - 1])) && !IsWordChar(At(s, e))
  }

  /** No word runs across position i. */
  predicate Cut(s: string, i: nat) {
    i <= |s| && (0 < i < |s| ==> !IsWordChar(s[i - 1]) || !IsWordChar(s[i]))
  }

  /** The slices in ws are the words of s between i and j, all of them and nothing else. */
  ghost predicate Covers(ws: set<Slice>, s: string, i: nat, j: nat) {
    && i <= j && Cut(s, i) && Cut(s, j)
    && forall w: Slice :: w in ws <==> i <= w.begin && w.end <= j && IsWord(s, w.begin, w.end)
  }

  lemma CoversJoin(a: set<Slice>, b: set<Slice>, s: string, i: nat, j: nat, k: nat)
    requires Covers(a, s, i, j) && Covers(b, s, j, k)
    ensures Covers(a + b, s, i, k)
  {
  }

  lemma NoWordsIn(s: string, i: nat, j: nat)
    requires i <= j <= |s| && Cut(s, i) && Cut(s, j) && forall k :: i <= k < j ==> !IsWordChar(s[k])
    ensures Covers({}, s, i, j)
  {
    forall w: Slice | i <= w.begin && w.end <= j && w.begin < w.end ensures !IsWord(s, w.begin, w.end) {
      assert !IsWordChar(s[w.begin]);
    }
  }

  lemma CoversSkip(s: string, i: nat)
    requires Cut(s, i)
    ensures Covers({}, s, i, Skip(s, i))
  {
    NoWordsIn(s, i, Skip(s, i));
  }

  /** The words of one token. */
  function TokenWords(t: Token): (r: set<Slice>) {
    if t.kind == 'a' then {Slice(t.begin, t.end)} else {}
  }

  lemma CoversToken(s: string, i: nat)
    requires Cut(s, i) && NoNul(s)
    ensures Covers(TokenWords(GetToken(s, i)), s, i, GetToken(s, i).next)
  {
    hide Skip, WordEnd;
    var t := GetToken(s, i);
    CoversSkip(s, i);
    assert Covers({}, s, i, t.begin);
    TokenBody(s, i);
    CoversSkip(s, t.end);
    CoversJoin(TokenWords(t), {}, s, t.begin, t.end, t.next);
    CoversJoin({}, TokenWords(t), s, i, t.begin, t.next);
    assert TokenWords(t) + {} == TokenWords(t) && {} + TokenWords(t) == TokenWords(t);
  }

  lemma TokenShape(s: string, i: nat)
    requires NoNul(s) && i <= |s|
    ensures var t := GetToken(s, i);
      && t.begin == Skip(s, i) && t.next == Skip(s, t.end)
      && (t.kind == 'a' ==> t.begin < t.end && (forall k :: t.begin <= k < t.end ==> IsWordChar(s[k])) && !IsWordChar(At(s, t.end)))
      && (t.kind != 'a' ==> (forall k :: t.begin <= k < t.end ==> IsSymbol(s[k])) && (t.begin == t.end ==> t.end == |s|))
  {
    hide Skip;
    if GetToken(s, i).kind == 'a' { WordToken(s, i); }
  }

  lemma TokenBody(s: string, i: nat)
    requires NoNul(s) && i <= |s| && Cut(s, GetToken(s, i).begin)
    ensures var t := GetToken(s, i); Covers(TokenWords(t), s, t.begin, t.end) && t.begin == Skip(s, i) && t.next == Skip(s, t.end)
  {
    hide GetToken, Skip;
    var t := GetToken(s, i);
    TokenShape(s, i);
    if t.kind == 'a' { OneWord(s, t.begin, t.end); } else { NoWordsIn(s, t.begin, t.end); }
  }

  lemma OneWord(s: string, b: nat, e: nat)
    requires b < e <= |s| && Cut(s, b) && (forall k :: b <= k < e ==> IsWordChar(s[k])) && !IsWordChar(At(s, e))
    ensures Covers({Slice(b, e)}, s, b, e)
  {
    forall w: Slice | b <= w.begin && w.end <= e && IsWord(s, w.begin, w.end) ensures w == Slice(b, e) {}
  }

  // ---- Words of a command --------------------------------------------------------------------

  function RedirWords(list: seq<Redirection>): (r: set<Slice>) {
    set x | x in list :: x.file
  }

  function ArgWords(args: seq<Slice>): (r: set<Slice>) {
    set x | x in args
  }

  function WordsOf(c: Cmd): (r: set<Slice>) {
    match c
    case Exec(args) => ArgWords(args)
    case Redir(cmd, to) => WordsOf(cmd) + {to.file}
    case Pipe(left, right) => WordsOf(left) + WordsOf(right)
    case List(left, right) => WordsOf(left) + WordsOf(right)
    case Back(cmd) => WordsOf(cmd)
  }

  lemma {:induction false} WrapWords(c: Cmd, list: seq<Redirection>)
    ensures WordsOf(WithRedirs(c, list)) == WordsOf(c) + RedirWords(list)
    decreases |list|
  {
    if list != [] {
      WrapWords(Redir(c, list[0]), list[1..]);
      assert list == [list[0]] + list[1..];
      assert RedirWords(list) == {list[0].file} + RedirWords(list[1..]);
    } else {
      assert RedirWords(list) == {};
    }
  }

  lemma RedirWordsJoin(a: seq<Redirection>, b: seq<Redirection>)
    ensures RedirWords(a + b) == RedirWords(a) + RedirWords(b)
  {
  }

  lemma ArgWordsFirst(x: Slice, rest: seq<Slice>)
    ensures ArgWords([x] + rest) == {x} + ArgWords(rest)
  {
  }

  lemma {:induction false} RedirsCover(s: string, i: nat)
    requires Cut(s, i) && NoNul(s) && ReadRedirs(s, i).Redirs?
    ensures Covers(RedirWords(ReadRedirs(s, i).list), s, i, ReadRedirs(s, i).next)
    decreases |s| - i
  {
    hide ReadRedirs, GetToken, Skip, Peek, Covers;
    RedirsStep(s, i);
    if !Peek(s, i, "<>") {
      CoversSkip(s, i);
      assert RedirWords([]) == {};
    } else {
      var tok := GetToken(s, i);
      var f := GetToken(s, tok.next);
      CoversToken(s, i);
      NotAWord(s, i, "<>");
      CutAfter(s, i);
      CoversToken(s, tok.next);
      CutAfter(s, tok.next);
      RedirsCover(s, f.next);
      var rest := ReadRedirs(s, f.next);
      CoversJoin({Slice(f.begin, f.end)}, RedirWords(rest.list), s, tok.next, f.next, rest.next);
      CoversJoin({}, {Slice(f.begin, f.end)} + RedirWords(rest.list), s, i, tok.next, rest.next);
      var one := Redirection(Slice(f.begin, f.end), tok.kind == '<');
      RedirWordsJoin([one], rest.list);
      assert RedirWords([one]) == {Slice(f.begin, f.end)};
      assert {} + ({Slice(f.begin, f.end)} + RedirWords(rest.list)) == RedirWords([one] + rest.list);
    }
  }

  lemma CutAfter(s: string, i: nat)
    requires Cut(s, i) && NoNul(s)
    ensures Cut(s, GetToken(s, i).next)
  {
    hide GetToken;
    CoversToken(s, i);
  }

  /** A token announced by one of the symbols is no word. */
  lemma NotAWord(s: string, i: nat, toks: string)
    requires i <= |s| && NoNul(s) && Peek(s, i, toks) && (forall k :: 0 <= k < |toks| ==> IsSymbol(toks[k]))
    ensures TokenWords(GetToken(s, i)) == {} && GetToken(s, i).kind != 'a'
  {
  }

  lemma {:induction false} ArgsCover(s: string, i: nat, n: nat)
    requires Cut(s, i) && NoNul(s) && ReadArgs(s, i, n).Args?
    ensures var r := ReadArgs(s, i, n); Covers(ArgWords(r.args) + RedirWords(r.list), s, i, r.next)
    decreases |s| - i
  {
    hide ReadArgs, ReadRedirs, GetToken, Skip, Peek, Covers, TokenWords, ArgWords, RedirWords;
    ArgsStep(s, i, n);
    NoWords();
    var tok := GetToken(s, i);
    CoversToken(s, i);
    CutAfter(s, i);
    WordsOfToken(tok);
    if Peek(s, i, "|)&;") {
      CoversSkip(s, i);
    } else if tok.kind == 'a' {
      var redirs := ReadRedirs(s, tok.next);
      RedirsCover(s, tok.next);
      CutBefore(RedirWords(redirs.list), s, tok.next, redirs.next);
      var rest := ReadArgs(s, redirs.next, n + 1);
      ArgsCover(s, redirs.next, n + 1);
      var w := Slice(tok.begin, tok.end);
      CoversJoin(RedirWords(redirs.list), ArgWords(rest.args) + RedirWords(rest.list), s, tok.next, redirs.next, rest.next);
      CoversJoin({w}, RedirWords(redirs.list) + (ArgWords(rest.args) + RedirWords(rest.list)), s, i, tok.next, rest.next);
      ArgWordsFirst(w, rest.args);
      RedirWordsJoin(redirs.list, rest.list);
      assert ArgWords([w] + rest.args) + RedirWords(redirs.list + rest.list) == {w} + (RedirWords(redirs.list) + (ArgWords(rest.args) + RedirWords(rest.list)));
    }
  }

  lemma NoWords()
    ensures ArgWords([]) + RedirWords([]) == {}
  {
  }

  lemma WordsOfToken(t: Token)
    ensures TokenWords(t) == if t.kind == 'a' then {Slice(t.begin, t.end)} else {}
  {
  }

  lemma CutBefore(ws: set<Slice>, s: string, i: nat, j: nat)
    requires Covers(ws, s, i, j)
    ensures Cut(s, j) && Cut(s, i)
  {
  }

  /** A command read from i on has exactly the words up to where its reading ended. */
  ghost predicate CmdCovers(s: string, i: nat, r: Result) {
    r.Parsed? ==> Covers(WordsOf(r.cmd), s, i, r.next)
  }

  lemma {:induction false} ExecCovers(s: string, i: nat)
    requires Cut(s, i) && NoNul(s)
    ensures CmdCovers(s, i, ParseExec(s, i))
    decreases |s| - i, 1
  {
    hide ReadArgs, ReadRedirs, GetToken, Skip, Peek, Covers, ArgWords, RedirWords, ParseBlock, WithRedirs;
    if Peek(s, i, "(") {
      BlockCovers(s, i);
    } else {
      var redirs := ReadRedirs(s, i);
      if redirs.Redirs? {
        RedirsCover(s, i);
        CutBefore(RedirWords(redirs.list), s, i, redirs.next);
        var args := ReadArgs(s, redirs.next, 0);
        if args.Args? {
          ArgsCover(s, redirs.next, 0);
          CoversJoin(RedirWords(redirs.list), ArgWords(args.args) + RedirWords(args.list), s, i, redirs.next, args.next);
          WrapWords(Exec(args.args), redirs.list + args.list);
          RedirWordsJoin(redirs.list, args.list);
          assert WordsOf(WithRedirs(Exec(args.args), redirs.list + args.list)) == RedirWords(redirs.list) + (ArgWords(args.args) + RedirWords(args.list));
        }
      }
    }
  }

  lemma {:induction false} BlockCovers(s: string, i: nat)
    requires Cut(s, i) && NoNul(s) && Peek(s, i, "(")
    ensures CmdCovers(s, i, ParseBlock(s, i))
    decreases |s| - i, 0
  {
    hide ReadRedirs, Skip, Covers, RedirWords, ParseLine, WithRedirs, WordsOf;
    var open := GetToken(s, i);
    SymbolCovers(s, i, "(");
    LineCovers(s, open.next);
    var line := ParseLine(s, open.next);
    if line.Parsed? && Peek(s, line.next, ")") {
      CutBefore(WordsOf(line.cmd), s, open.next, line.next);
      var close := GetToken(s, line.next);
      SymbolCovers(s, line.next, ")");
      var redirs := ReadRedirs(s, close.next);
      if redirs.Redirs? {
        RedirsCover(s, close.next);
        CoversJoin({}, RedirWords(redirs.list), s, line.next, close.next, redirs.next);
        CoversJoin(WordsOf(line.cmd), {} + RedirWords(redirs.list), s, open.next, line.next, redirs.next);
        CoversJoin({}, WordsOf(line.cmd) + ({} + RedirWords(redirs.list)), s, i, open.next, redirs.next);
        WrapWords(line.cmd, redirs.list);
        assert {} + (WordsOf(line.cmd) + ({} + RedirWords(redirs.list))) == WordsOf(line.cmd) + RedirWords(redirs.list);
      }
    }
  }

  lemma SymbolCovers(s: string, i: nat, toks: string)
    requires Cut(s, i) && NoNul(s) && Peek(s, i, toks) && (forall k :: 0 <= k < |toks| ==> IsSymbol(toks[k]))
    ensures Covers({}, s, i, GetToken(s, i).next) && Cut(s, GetToken(s, i).next) && i < GetToken(s, i).next
  {
    hide Covers;
    CoversToken(s, i);
    NotAWord(s, i, toks);
    CutAfter(s, i);
  }

  lemma {:induction false} PipeCovers(s: string, i: nat)
    requires Cut(s, i) && NoNul(s)
    ensures CmdCovers(s, i, ParsePipe(s, i))
    decreases |s| - i, 2
  {
    hide Skip, GetToken, Peek, Covers, ParseExec, WordsOf;
    ExecCovers(s, i);
    var left := ParseExec(s, i);
    if left.Parsed? {
      CutBefore(WordsOf(left.cmd), s, i, left.next);
      if !Peek(s, left.next, "|") {
        CoversSkip(s, left.next);
        CoversJoin(WordsOf(left.cmd), {}, s, i, left.next, Skip(s, left.next));
        assert WordsOf(left.cmd) + {} == WordsOf(left.cmd);
      } else {
        SymbolCovers(s, left.next, "|");
        var m := GetToken(s, left.next).next;
        PipeCovers(s, m);
        var right := ParsePipe(s, m);
        if right.Parsed? { TwoCover(left.cmd, right.cmd, s, i, left.next, m, right.next); }
      }
    }
  }

  lemma TwoCover(left: Cmd, right: Cmd, s: string, i: nat, j: nat, m: nat, k: nat)
    requires Covers(WordsOf(left), s, i, j) && Covers({}, s, j, m) && Covers(WordsOf(right), s, m, k)
    ensures Covers(WordsOf(Pipe(left, right)), s, i, k) && Covers(WordsOf(List(left, right)), s, i, k)
  {
    hide Covers;
    CoversJoin({}, WordsOf(right), s, j, m, k);
    CoversJoin(WordsOf(left), {} + WordsOf(right), s, i, j, k);
    assert WordsOf(left) + ({} + WordsOf(right)) == WordsOf(left) + WordsOf(right);
  }

  lemma {:induction false} BacksCover(s: string, i: nat, c: Cmd)
    requires Cut(s, i) && NoNul(s)
    ensures var r := ReadBacks(s, i, c); WordsOf(r.cmd) == WordsOf(c) && Covers({}, s, i, r.next)
    decreases |s| - i
  {
    hide Skip, Covers;
    if Peek(s, i, "&") {
      SymbolCovers(s, i, "&");
      var m := GetToken(s, i).next;
      BacksCover(s, m, Back(c));
      var none: set<Slice> := {};
      CoversJoin(none, none, s, i, m, ReadBacks(s, m, Back(c)).next);
      assert none + none == none;
    } else {
      CoversSkip(s, i);
    }
  }

  lemma {:induction false} LineCovers(s: string, i: nat)
    requires Cut(s, i) && NoNul(s)
    ensures CmdCovers(s, i, ParseLine(s, i))
    decreases |s| - i, 3
  {
    hide Skip, GetToken, Peek, Covers, ParsePipe, ReadBacks, WordsOf;
    PipeCovers(s, i);
    var first := ParsePipe(s, i);
    if first.Parsed? {
      CutBefore(WordsOf(first.cmd), s, i, first.next);
      BacksCover(s, first.next, first.cmd);
      var left := ReadBacks(s, first.next, first.cmd);
      CutBefore({}, s, first.next, left.next);
      CoversJoin(WordsOf(first.cmd), {}, s, i, first.next, left.next);
      assert WordsOf(left.cmd) == WordsOf(first.cmd) + {};
      if !Peek(s, left.next, ";") {
        CoversSkip(s, left.next);
        CoversJoin(WordsOf(left.cmd), {}, s, i, left.next, Skip(s, left.next));
        assert WordsOf(left.cmd) + {} == WordsOf(left.cmd);
      } else {
        SymbolCovers(s, left.next, ";");
        var m := GetToken(s, left.next).next;
        LineCovers(s, m);
        var right := ParseLine(s, m);
        if right.Parsed? { TwoCover(left.cmd, right.cmd, s, i, left.next, m, right.next); }
      }
    }
  }

  /** A line that parses has all its words in the command, and the command has no others. */
  lemma AllWordsParsed(s: string)
    requires NoNul(s) && ParseCmd(s).Parsed?
    ensures Covers(WordsOf(ParseCmd(s).cmd), s, 0, |s|)
  {
    hide ParseLine, Covers, WordsOf, Skip;
    LineCovers(s, 0);
    var line := ParseLine(s, 0);
    CutBefore(WordsOf(line.cmd), s, 0, line.next);
    CoversSkip(s, line.next);
    CoversJoin(WordsOf(line.cmd), {}, s, 0, line.next, |s|);
    assert WordsOf(line.cmd) + {} == WordsOf(line.cmd);
  }

  // ---- nulterminate --------------------------------------------------------------------------

  /** Position k is the end of a word. */
  predicate EndsAt(ws: set<Slice>, k: nat) {
    exists w :: w in ws && w.end == k
  }

  /** The buffer with NUL put at the ends of the words. */
  ghost predicate Terminated(before: seq<char>, after: seq<char>, ws: set<Slice>) {
    && |before| == |after|
    && forall k :: 0 <= k < |after| ==> after[k] == if EndsAt(ws, k) then NUL else before[k]
  }

  lemma TerminatedTwice(a: seq<char>, b: seq<char>, c: seq<char>, v: set<Slice>, w: set<Slice>)
    requires Terminated(a, b, v) && Terminated(b, c, w)
    ensures Terminated(a, c, v + w)
  {
    forall k: nat | k < |c| ensures EndsAt(v + w, k) <==> EndsAt(v, k) || EndsAt(w, k) {
      if EndsAt(v, k) { var x :| x in v && x.end == k; assert x in v + w; }
      if EndsAt(w, k) { var x :| x in w && x.end == k; assert x in v + w; }
    }
  }

  method Nulterminate(buf: array<char>, c: Cmd)
    requires forall w :: w in WordsOf(c) ==> w.end < buf.Length
    modifies buf
    ensures Terminated(old(buf[..]), buf[..], WordsOf(c))
    decreases c
  {
    hide Terminated;
    ghost var before := buf[..];
    match c
    case Exec(args) =>
      var i := 0;
      TerminatedNone(before, ArgWords(args[..0]));
      while i < |args|
        invariant 0 <= i <= |args| && Terminated(before, buf[..], ArgWords(args[..i]))
      {
        assert args[i] in WordsOf(c);
        ghost var b := buf[..];
        buf[args[i].end] := NUL;
        TerminatedOne(b, args[i]);
        TerminatedTwice(before, b, buf[..], ArgWords(args[..i]), {args[i]});
        assert ArgWords(args[..i + 1]) == ArgWords(args[..i]) + {args[i]};
        i := i + 1;
      }
      assert args[..|args|] == args;
    case Redir(cmd, to) =>
      Nulterminate(buf, cmd);
      ghost var b := buf[..];
      assert to.file in WordsOf(c);
      buf[to.file.end] := NUL;
      TerminatedOne(b, to.file);
      TerminatedTwice(before, b, buf[..], WordsOf(cmd), {to.file});
    case Pipe(left, right) =>
      Nulterminate(buf, left);
      ghost var b := buf[..];
      Nulterminate(buf, right);
      TerminatedTwice(before, b, buf[..], WordsOf(left), WordsOf(right));
    case List(left, right) =>
      Nulterminate(buf, left);
      ghost var b := buf[..];
      Nulterminate(buf, right);
      TerminatedTwice(before, b, buf[..], WordsOf(left), WordsOf(right));
    case Back(cmd) =>
      Nulterminate(buf, cmd);
  }

  lemma TerminatedNone(a: seq<char>, ws: set<Slice>)
    requires ws == {}
    ensures Terminated(a, a, ws)
  {
  }

  lemma TerminatedOne(a: seq<char>, w: Slice)
    requires w.end < |a|
    ensures Terminated(a, a[w.end := NUL], {w})
  {
    assert EndsAt({w}, w.end) by { assert w in {w}; }
  }

  /** The string that begins at position i of a buffer. */
  function CString(buf: seq<char>, i: nat): (r: string)
    decreases |buf| - i
  {
    if i >= |buf| || buf[i] == NUL then [] else [buf[i]] + CString(buf, i + 1)
  }

  lemma {:induction false} CStringIs(buf: seq<char>, i: nat, j: nat)
    requires i <= j < |buf| && buf[j] == NUL && forall k :: i <= k < j ==> buf[k] != NUL
    ensures CString(buf, i) == buf[i..j]
    decreases j - i
  {
    if i < j {
      CStringIs(buf, i + 1, j);
      assert buf[i..j] == [buf[i]] + buf[i + 1..j];
    }
  }

  /** After parsecmd every word of the command is a string of its own, spelled as in the line. */
  lemma WordsSurvive(s: string, before: seq<char>, after: seq<char>, w: Slice)
    requires NoNul(s) && ParseCmd(s).Parsed? && before == s + [NUL]
    requires Terminated(before, after, WordsOf(ParseCmd(s).cmd)) && w in WordsOf(ParseCmd(s).cmd)
    ensures w.begin < w.end <= |s| && CString(after, w.begin) == s[w.begin..w.end]
  {
    var ws := WordsOf(ParseCmd(s).cmd);
    AllWordsParsed(s);
    WordsApart(ws, s, w, after);
    CStringIs(after, w.begin, w.end);
  }

  lemma WordsApart(ws: set<Slice>, s: string, w: Slice, after: seq<char>)
    requires NoNul(s) && Covers(ws, s, 0, |s|) && w in ws && Terminated(s + [NUL], after, ws)
    ensures w.begin < w.end <= |s| < |after| && after[w.end] == NUL && after[w.begin..w.end] == s[w.begin..w.end]
    ensures forall k :: w.begin <= k < w.end ==> after[k] != NUL
  {
    assert EndsAt(ws, w.end);
    forall k | w.begin <= k < w.end ensures !EndsAt(ws, k) {
      assert IsWordChar(s[k]) && At(s, k) == s[k];
    }
  }

  /** parsecmd on a line in a buffer: the command, or the error; on success each word of the command
      is a string in the buffer, spelled as it was. */
  method Parsecmd(buf: array<char>, ghost s: string) returns (r: Result)
    requires NoNul(s) && buf[..] == s + [NUL]
    modifies buf
    ensures r == ParseCmd(s)
    ensures r.Failed? ==> buf[..] == old(buf[..])
    ensures r.Parsed? ==> forall w :: w in WordsOf(r.cmd) ==> w.begin < w.end <= |s| && CString(buf[..], w.begin) == s[w.begin..w.end]
  {
    hide ParseCmd, Terminated, WordsOf, CString, Covers;
    assert buf[..buf.Length - 1] == s;
    r := RunCmd(buf[..buf.Length - 1]);
    if r.Parsed? {
      WordsInside(s);
      Nulterminate(buf, r.cmd);
      forall w | w in WordsOf(r.cmd) ensures w.begin < w.end <= |s| && CString(buf[..], w.begin) == s[w.begin..w.end] {
        WordsSurvive(s, s + [NUL], buf[..], w);
      }
    }
  }

  lemma WordsInside(s: string)
    requires NoNul(s) && ParseCmd(s).Parsed?
    ensures forall w :: w in WordsOf(ParseCmd(s).cmd) ==> w.end <= |s|
  {
    hide ParseCmd, WordsOf;
    AllWordsParsed(s);
  }
}

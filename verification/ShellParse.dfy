/** The shell's recursive-descent parser (sh.c:328-447). A parsed command refers to its words by their
    place in the line. */
module ShellParse {
  import opened Common
  import opened ShellLex

  const MAXARGS := 10

  datatype Slice = Slice(begin: nat, end: nat)

  /** A redirection; > and >> are the same to the parser (sh.c:389-394). */
  datatype Redirection = Redirection(file: Slice, input: bool)

  datatype Cmd =
    | Exec(args: seq<Slice>)
    | Redir(cmd: Cmd, to: Redirection)
    | Pipe(left: Cmd, right: Cmd)
    | List(left: Cmd, right: Cmd)
    | Back(cmd: Cmd)

  datatype Error = MissingFile | MissingParen | Syntax | TooManyArgs | Leftovers

  datatype Result = Parsed(cmd: Cmd, next: nat) | Failed(error: Error)
  datatype RedirResult = Redirs(list: seq<Redirection>, next: nat) | RedirFailed(error: Error)
  datatype ArgResult = Args(args: seq<Slice>, list: seq<Redirection>, next: nat) | ArgFailed(error: Error)

  /** Redirections are put around a command one by one, the first innermost. */
  function WithRedirs(cmd: Cmd, list: seq<Redirection>): (r: Cmd)
    decreases |list|
  {
    if list == [] then cmd else WithRedirs(Redir(cmd, list[0]), list[1..])
  }

  // ---- The grammar as functions --------------------------------------------------------------

  function ReadRedirs(s: string, i: nat): (r: RedirResult)
    requires i <= |s| && NoNul(s)
    ensures r.Redirs? ==> i <= r.next <= |s|
    decreases |s| - i
  {
    if !Peek(s, i, "<>") then Redirs([], Skip(s, i))
    else
      var tok := GetToken(s, i);
      var f := GetToken(s, tok.next);
      if f.kind != 'a' then RedirFailed(MissingFile)
      else
        var rest := ReadRedirs(s, f.next);
        if rest.RedirFailed? then rest
        else Redirs([Redirection(Slice(f.begin, f.end), tok.kind == '<')] + rest.list, rest.next)
  }

  /** The arguments and redirections that follow when n arguments have been read. */
  function ReadArgs(s: string, i: nat, n: nat): (r: ArgResult)
    requires i <= |s| && NoNul(s)
    ensures r.Args? ==> i <= r.next <= |s|
    decreases |s| - i
  {
    if Peek(s, i, "|)&;") then Args([], [], Skip(s, i))
    else
      var tok := GetToken(s, i);
      if tok.kind == NUL then Args([], [], tok.next)
      else if tok.kind != 'a' then ArgFailed(Syntax)
      else if n + 1 >= MAXARGS then ArgFailed(TooManyArgs)
      else
        var redirs := ReadRedirs(s, tok.next);
        if redirs.RedirFailed? then ArgFailed(redirs.error)
        else
          var rest := ReadArgs(s, redirs.next, n + 1);
          if rest.ArgFailed? then rest
          else Args([Slice(tok.begin, tok.end)] + rest.args, redirs.list + rest.list, rest.next)
  }

  function ParseExec(s: string, i: nat): (r: Result)
    requires i <= |s| && NoNul(s)
    ensures r.Parsed? ==> i <= r.next <= |s|
    decreases |s| - i, 1
  {
    if Peek(s, i, "(") then ParseBlock(s, i)
    else
      var redirs := ReadRedirs(s, i);
      if redirs.RedirFailed? then Failed(redirs.error)
      else
        var args := ReadArgs(s, redirs.next, 0);
        if args.ArgFailed? then Failed(args.error)
        else Parsed(WithRedirs(Exec(args.args), redirs.list + args.list), args.next)
  }

  function ParseBlock(s: string, i: nat): (r: Result)
    requires i <= |s| && NoNul(s) && Peek(s, i, "(")
    ensures r.Parsed? ==> i <= r.next <= |s|
    decreases |s| - i, 0
  {
    var line := ParseLine(s, GetToken(s, i).next);
    if line.Failed? then line
    else if !Peek(s, line.next, ")") then Failed(MissingParen)
    else
      var redirs := ReadRedirs(s, GetToken(s, line.next).next);
      if redirs.RedirFailed? then Failed(redirs.error) else Parsed(WithRedirs(line.cmd, redirs.list), redirs.next)
  }

  function ParsePipe(s: string, i: nat): (r: Result)
    requires i <= |s| && NoNul(s)
    ensures r.Parsed? ==> i <= r.next <= |s|
    decreases |s| - i, 2
  {
    var left := ParseExec(s, i);
    if left.Failed? then left
    else if !Peek(s, left.next, "|") then Parsed(left.cmd, Skip(s, left.next))
    else
      var right := ParsePipe(s, GetToken(s, left.next).next);
      if right.Failed? then right else Parsed(Pipe(left.cmd, right.cmd), right.next)
  }

  /** The ampersands after a pipeline, each putting it in the background once more. */
  function ReadBacks(s: string, i: nat, cmd: Cmd): (r: Result)
    requires i <= |s| && NoNul(s)
    ensures r.Parsed? && i <= r.next <= |s|
    decreases |s| - i
  {
    if Peek(s, i, "&") then ReadBacks(s, GetToken(s, i).next, Back(cmd)) else Parsed(cmd, Skip(s, i))
  }

  function ParseLine(s: string, i: nat): (r: Result)
    requires i <= |s| && NoNul(s)
    ensures r.Parsed? ==> i <= r.next <= |s|
    decreases |s| - i, 3
  {
    var first := ParsePipe(s, i);
    if first.Failed? then first
    else
      var left := ReadBacks(s, first.next, first.cmd);
      if !Peek(s, left.next, ";") then Parsed(left.cmd, Skip(s, left.next))
      else
        var right := ParseLine(s, GetToken(s, left.next).next);
        if right.Failed? then right else Parsed(List(left.cmd, right.cmd), right.next)
  }

  function ParseCmd(s: string): (r: Result)
    requires NoNul(s)
  {
    var line := ParseLine(s, 0);
    if line.Failed? then line
    else if Skip(s, line.next) != |s| then Failed(Leftovers)
    else Parsed(line.cmd, |s|)
  }

  // ---- The parser as it runs -----------------------------------------------------------------

  /** One turn of the redirections. */
  lemma RedirsStep(s: string, i: nat)
    requires i <= |s| && NoNul(s)
    ensures ReadRedirs(s, Skip(s, i)) == ReadRedirs(s, i)
    ensures !Peek(s, i, "<>") ==> ReadRedirs(s, i) == Redirs([], Skip(s, i))
    ensures Peek(s, i, "<>") ==>
      var tok := GetToken(s, i);
      var f := GetToken(s, tok.next);
      var rest := ReadRedirs(s, f.next);
      && i < f.next && ReadRedirs(s, i) ==
        if f.kind != 'a' then RedirFailed(MissingFile) else if rest.RedirFailed? then rest
        else Redirs([Redirection(Slice(f.begin, f.end), tok.kind == '<')] + rest.list, rest.next)
  {
    SkipAgain(s, i);
  }

  /** What is read so far and what is left make up the whole. */
  ghost predicate RedirsSoFar(whole: RedirResult, done: seq<Redirection>, rest: RedirResult) {
    if rest.RedirFailed? then whole == rest else whole == Redirs(done + rest.list, rest.next)
  }

  /** The loop of parseredirs. The redirections around a command are kept as a list, because
      parseexec goes on filling in the arguments of the command inside. */
  method RunRedirs(s: string, i: nat, list: seq<Redirection>) returns (r: RedirResult)
    requires i <= |s| && NoNul(s)
    ensures var spec := ReadRedirs(s, i); r == if spec.RedirFailed? then spec else Redirs(list + spec.list, spec.next)
  {
    hide ReadRedirs, Skip, GetToken, Peek;
    ghost var done: seq<Redirection> := [];
    var all := list;
    RedirsStep(s, i);
    SkipAgain(s, i);
    assert RedirsSoFar(ReadRedirs(s, i), done, ReadRedirs(s, i)) by { RedirsBegin(ReadRedirs(s, i)); }
    var more, j := PeekAt(s, i, "<>");
    while more
      invariant i <= j <= |s| && Skip(s, j) == j && more == Peek(s, j, "<>") && all == list + done
      invariant RedirsSoFar(ReadRedirs(s, i), done, ReadRedirs(s, j))
      decreases |s| - j
    {
      RedirsStep(s, j);
      var tok := NextToken(s, j);
      var f := NextToken(s, tok.next);
      if f.kind != 'a' { return RedirFailed(MissingFile); }
      var one := Redirection(Slice(f.begin, f.end), tok.kind == '<');
      RedirsMore(ReadRedirs(s, i), done, one, ReadRedirs(s, f.next));
      all, done := all + [one], done + [one];
      RedirsStep(s, f.next);
      SkipAgain(s, f.next);
      more, j := PeekAt(s, f.next, "<>");
    }
    RedirsStep(s, j);
    assert done + [] == done;
    r := Redirs(all, j);
  }

  lemma RedirsBegin(whole: RedirResult)
    ensures RedirsSoFar(whole, [], whole)
  {
    if whole.Redirs? { assert [] + whole.list == whole.list; }
  }

  lemma RedirsMore(whole: RedirResult, done: seq<Redirection>, one: Redirection, rest: RedirResult)
    requires rest.RedirFailed? ==> whole == rest
    requires rest.Redirs? ==> whole == Redirs(done + ([one] + rest.list), rest.next)
    ensures RedirsSoFar(whole, done + [one], rest)
  {
    if rest.Redirs? { assert done + ([one] + rest.list) == done + [one] + rest.list; }
  }

  /** One turn of the arguments. */
  lemma ArgsStep(s: string, i: nat, n: nat)
    requires i <= |s| && NoNul(s)
    ensures ReadArgs(s, Skip(s, i), n) == ReadArgs(s, i, n)
    ensures Peek(s, i, "|)&;") ==> ReadArgs(s, i, n) == Args([], [], Skip(s, i))
    ensures !Peek(s, i, "|)&;") ==>
      var tok := GetToken(s, i);
      var redirs := ReadRedirs(s, tok.next);
      && (tok.kind == NUL ==> ReadArgs(s, i, n) == Args([], [], tok.next))
      && (tok.kind != NUL && tok.kind != 'a' ==> ReadArgs(s, i, n) == ArgFailed(Syntax))
      && (tok.kind == 'a' && n + 1 >= MAXARGS ==> ReadArgs(s, i, n) == ArgFailed(TooManyArgs))
      && (tok.kind == 'a' && n + 1 < MAXARGS && redirs.RedirFailed? ==> ReadArgs(s, i, n) == ArgFailed(redirs.error))
      && (tok.kind == 'a' && n + 1 < MAXARGS && redirs.Redirs? ==>
           var rest := ReadArgs(s, redirs.next, n + 1);
           i < redirs.next && ReadArgs(s, i, n) == if rest.ArgFailed? then rest
             else Args([Slice(tok.begin, tok.end)] + rest.args, redirs.list + rest.list, rest.next))
  {
    hide ReadRedirs;
    SkipAgain(s, i);
  }

  ghost predicate ArgsSoFar(whole: ArgResult, args: seq<Slice>, list: seq<Redirection>, rest: ArgResult) {
    if rest.ArgFailed? then whole == rest else whole == Args(args + rest.args, list + rest.list, rest.next)
  }

  lemma ArgsBegin(whole: ArgResult)
    ensures ArgsSoFar(whole, [], [], whole)
  {
    if whole.Args? { assert [] + whole.args == whole.args && [] + whole.list == whole.list; }
  }

  lemma ArgsMore(whole: ArgResult, args: seq<Slice>, list: seq<Redirection>, one: Slice, redirs: seq<Redirection>,
                 rest: ArgResult)
    requires rest.ArgFailed? ==> whole == rest
    requires rest.Args? ==> whole == Args(args + ([one] + rest.args), list + (redirs + rest.list), rest.next)
    ensures ArgsSoFar(whole, args + [one], list + redirs, rest)
  {
    if rest.Args? {
      assert args + ([one] + rest.args) == args + [one] + rest.args && list + (redirs + rest.list) == list + redirs + rest.list;
    }
  }

  /** The loop of parseexec, once the first redirections have been read. */
  method RunArgs(s: string, i: nat, first: seq<Redirection>) returns (r: ArgResult)
    requires i <= |s| && NoNul(s)
    ensures var spec := ReadArgs(s, i, 0); r == if spec.ArgFailed? then spec else Args(spec.args, first + spec.list, spec.next)
  {
    hide ReadArgs, ReadRedirs, Skip, GetToken, Peek;
    var args: seq<Slice> := [];
    ghost var done: seq<Redirection> := [];
    var all := first;
    ArgsStep(s, i, 0);
    SkipAgain(s, i);
    ArgsBegin(ReadArgs(s, i, 0));
    var stop, j := PeekAt(s, i, "|)&;");
    while !stop
      invariant i <= j <= |s| && Skip(s, j) == j
      invariant stop == Peek(s, j, "|)&;") && all == first + done && |args| < MAXARGS
      invariant ArgsSoFar(ReadArgs(s, i, 0), args, done, ReadArgs(s, j, |args|))
      decreases |s| - j
    {
      ArgsStep(s, j, |args|);
      var tok := NextToken(s, j);
      if tok.kind == NUL {
        assert args + [] == args && done + [] == done;
        return Args(args, all, tok.next);
      }
      if tok.kind != 'a' { return ArgFailed(Syntax); }
      if |args| + 1 >= MAXARGS { return ArgFailed(TooManyArgs); }
      var redirs := RunRedirs(s, tok.next, all);
      if redirs.RedirFailed? { return ArgFailed(redirs.error); }
      ghost var spec := ReadRedirs(s, tok.next);
      ArgsMore(ReadArgs(s, i, 0), args, done, Slice(tok.begin, tok.end), spec.list, ReadArgs(s, spec.next, |args| + 1));
      assert all + spec.list == first + (done + spec.list);
      args, done, all := args + [Slice(tok.begin, tok.end)], done + spec.list, redirs.list;
      ArgsStep(s, redirs.next, |args|);
      SkipAgain(s, redirs.next);
      stop, j := PeekAt(s, redirs.next, "|)&;");
    }
    ArgsStep(s, j, |args|);
    assert args + [] == args && done + [] == done;
    r := Args(args, all, j);
  }

  method RunExec(s: string, i: nat) returns (r: Result)
    requires i <= |s| && NoNul(s)
    ensures r == ParseExec(s, i)
    decreases |s| - i, 1
  {
    hide ReadArgs, ReadRedirs, Skip, GetToken, ParseBlock, WithRedirs;
    var block, j := PeekAt(s, i, "(");
    SkipAgain(s, i);
    if block {
      r := RunBlock(s, j);
      BlockSkip(s, i);
      return;
    }
    RedirsStep(s, i);
    var redirs := RunRedirs(s, j, []);
    if redirs.RedirFailed? { return Failed(redirs.error); }
    assert [] + ReadRedirs(s, i).list == ReadRedirs(s, i).list;
    var args := RunArgs(s, redirs.next, redirs.list);
    if args.ArgFailed? { return Failed(args.error); }
    return Parsed(WithRedirs(Exec(args.args), args.list), args.next);
  }

  lemma BlockSkip(s: string, i: nat)
    requires i <= |s| && NoNul(s) && Peek(s, i, "(")
    ensures Peek(s, Skip(s, i), "(") && ParseBlock(s, Skip(s, i)) == ParseBlock(s, i)
  {
    hide ReadRedirs, ParseLine, WithRedirs;
    SkipAgain(s, i);
  }

  method RunBlock(s: string, i: nat) returns (r: Result)
    requires i <= |s| && NoNul(s) && Peek(s, i, "(")
    ensures r == ParseBlock(s, i)
    decreases |s| - i, 0
  {
    hide ReadRedirs, ParseLine, WithRedirs;
    var open := NextToken(s, i);
    r := RunLine(s, open.next);
    if r.Failed? { return; }
    var close, j := PeekAt(s, r.next, ")");
    if !close { return Failed(MissingParen); }
    SkipAgain(s, r.next);
    var tok := NextToken(s, j);
    var redirs := RunRedirs(s, tok.next, []);
    if redirs.RedirFailed? { return Failed(redirs.error); }
    assert [] + ReadRedirs(s, tok.next).list == ReadRedirs(s, tok.next).list;
    return Parsed(WithRedirs(r.cmd, redirs.list), redirs.next);
  }

  method RunPipe(s: string, i: nat) returns (r: Result)
    requires i <= |s| && NoNul(s)
    ensures r == ParsePipe(s, i)
    decreases |s| - i, 2
  {
    hide ParseExec;
    r := RunExec(s, i);
    if r.Failed? { return; }
    var bar, j := PeekAt(s, r.next, "|");
    if !bar { return Parsed(r.cmd, j); }
    SkipAgain(s, r.next);
    var tok := NextToken(s, j);
    var right := RunPipe(s, tok.next);
    if right.Failed? { return right; }
    return Parsed(Pipe(r.cmd, right.cmd), right.next);
  }

  method RunBacks(s: string, i: nat, cmd: Cmd) returns (r: Result)
    requires i <= |s| && NoNul(s)
    ensures r == ReadBacks(s, i, cmd)
  {
    hide Skip, GetToken, Peek;
    var c := cmd;
    BacksStep(s, i, c);
    SkipAgain(s, i);
    var more, j := PeekAt(s, i, "&");
    while more
      invariant i <= j <= |s| && Skip(s, j) == j && more == Peek(s, j, "&")
      invariant ReadBacks(s, i, cmd) == ReadBacks(s, j, c)
      decreases |s| - j
    {
      BacksStep(s, j, c);
      var tok := NextToken(s, j);
      c := Back(c);
      BacksStep(s, tok.next, c);
      SkipAgain(s, tok.next);
      more, j := PeekAt(s, tok.next, "&");
    }
    return Parsed(c, j);
  }

  lemma BacksStep(s: string, i: nat, cmd: Cmd)
    requires i <= |s| && NoNul(s)
    ensures ReadBacks(s, Skip(s, i), cmd) == ReadBacks(s, i, cmd)
    ensures Peek(s, i, "&") ==> i < GetToken(s, i).next && ReadBacks(s, i, cmd) == ReadBacks(s, GetToken(s, i).next, Back(cmd))
  {
    SkipAgain(s, i);
  }

  method RunLine(s: string, i: nat) returns (r: Result)
    requires i <= |s| && NoNul(s)
    ensures r == ParseLine(s, i)
    decreases |s| - i, 3
  {
    hide ParsePipe, ReadBacks;
    r := RunPipe(s, i);
    if r.Failed? { return; }
    r := RunBacks(s, r.next, r.cmd);
    var more, j := PeekAt(s, r.next, ";");
    if !more { return Parsed(r.cmd, j); }
    SkipAgain(s, r.next);
    var tok := NextToken(s, j);
    var right := RunLine(s, tok.next);
    if right.Failed? { return right; }
    return Parsed(List(r.cmd, right.cmd), right.next);
  }

  /** parsecmd, up to the NUL characters it leaves in the line. */
  method RunCmd(s: string) returns (r: Result)
    requires NoNul(s)
    ensures r == ParseCmd(s)
  {
    r := RunLine(s, 0);
    if r.Failed? { return; }
    var some, j := PeekAt(s, r.next, "");
    if j != |s| { return Failed(Leftovers); }
    return Parsed(r.cmd, |s|);
  }
}

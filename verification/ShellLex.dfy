/** Tokens of the shell's command lines (sh.c:263-321). A line is a string without NUL characters;
    reading at its end yields NUL. */
module ShellLex {
  import opened Common

  predicate IsSpace(c: char) {
    c == ' ' || c == '\t' || c == '\r' || c == '\n' || c == '\U{0B}'
  }

  predicate IsSymbol(c: char) {
    c == '<' || c == '|' || c == '>' || c == '&' || c == ';' || c == '(' || c == ')'
  }

  predicate IsWordChar(c: char) {
    !IsSpace(c) && !IsSymbol(c) && c != NUL
  }

  /** The first position from i on that holds no white space. */
  function Skip(s: string, i: nat): (j: nat)
    requires i <= |s|
    ensures i <= j <= |s| && !IsSpace(At(s, j))
    ensures forall k :: i <= k < j ==> IsSpace(s[k])
    decreases |s| - i
  {
    if i < |s| && IsSpace(s[i]) then Skip(s, i + 1) else i
  }

  /** The end of the word that goes on at i. */
  function WordEnd(s: string, i: nat): (j: nat)
    requires i <= |s|
    ensures i <= j <= |s| && (j < |s| ==> IsSpace(s[j]) || IsSymbol(s[j]))
    ensures forall k :: i <= k < j ==> !IsSpace(s[k]) && !IsSymbol(s[k])
    decreases |s| - i
  {
    if i < |s| && !IsSpace(s[i]) && !IsSymbol(s[i]) then WordEnd(s, i + 1) else i
  }

  /** A token: its kind ('a' for a word, '+' for >>, NUL at the end of the line, otherwise the symbol
      itself), where it begins and ends, and where the next one begins. */
  datatype Token = Token(kind: char, begin: nat, end: nat, next: nat)

  function GetToken(s: string, i: nat): (t: Token)
    requires i <= |s|
    ensures i <= t.begin <= t.end <= t.next <= |s|
    ensures t.kind != NUL && NoNul(s) ==> i < t.end
  {
    var q := Skip(s, i);
    var c := At(s, q);
    if c == NUL then Token(NUL, q, q, Skip(s, q))
    else if c == '>' then
      if At(s, q + 1) == '>' then Token('+', q, q + 2, Skip(s, q + 2)) else Token('>', q, q + 1, Skip(s, q + 1))
    else if IsSymbol(c) then Token(c, q, q + 1, Skip(s, q + 1))
    else
      var e := WordEnd(s, q);
      Token('a', q, e, Skip(s, e))
  }

  /** Whether the next character that is no white space is one of toks. */
  predicate Peek(s: string, i: nat, toks: string)
    requires i <= |s|
  {
    var c := At(s, Skip(s, i));
    c != NUL && c in toks
  }

  // ---- The loops -----------------------------------------------------------------------------

  method SkipSpace(s: string, i: nat) returns (j: nat)
    requires i <= |s|
    ensures j == Skip(s, i)
  {
    j := i;
    while j < |s| && IsSpace(s[j])
      invariant i <= j <= |s| && Skip(s, j) == Skip(s, i)
    {
      j := j + 1;
    }
  }

  /** peek: looks past white space, and leaves the cursor there. */
  method PeekAt(s: string, i: nat, toks: string) returns (found: bool, j: nat)
    requires i <= |s|
    ensures j == Skip(s, i) && (found <==> Peek(s, i, toks))
  {
    j := SkipSpace(s, i);
    found := At(s, j) != NUL && At(s, j) in toks;
  }

  /** Looking past white space first makes no difference. */
  lemma SkipAgain(s: string, i: nat)
    requires i <= |s|
    ensures Skip(s, Skip(s, i)) == Skip(s, i) && GetToken(s, Skip(s, i)) == GetToken(s, i)
    ensures forall toks :: Peek(s, Skip(s, i), toks) == Peek(s, i, toks)
  {
  }

  method NextToken(s: string, i: nat) returns (t: Token)
    requires i <= |s|
    ensures t == GetToken(s, i)
  {
    var j := SkipSpace(s, i);
    var q := j;
    var kind := At(s, j);
    if kind == NUL {
    } else if kind == '|' || kind == '(' || kind == ')' || kind == ';' || kind == '&' || kind == '<' {
      j := j + 1;
    } else if kind == '>' {
      j := j + 1;
      if At(s, j) == '>' {
        kind := '+';
        j := j + 1;
      }
    } else {
      kind := 'a';
      while j < |s| && !IsSpace(s[j]) && !IsSymbol(s[j])
        invariant q <= j <= |s| && WordEnd(s, j) == WordEnd(s, q)
      {
        j := j + 1;
      }
    }
    var next := SkipSpace(s, j);
    t := Token(kind, q, j, next);
  }

  /** What a word token is: a maximal run of word characters. */
  lemma WordToken(s: string, i: nat)
    requires i <= |s| && NoNul(s) && GetToken(s, i).kind == 'a'
    ensures var t := GetToken(s, i); t.begin < t.end && (forall k :: t.begin <= k < t.end ==> IsWordChar(s[k])) && !IsWordChar(At(s, t.end))
  {
  }
}

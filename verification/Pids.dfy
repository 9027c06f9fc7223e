/** allocpid (proc.c:29-39): any number of callers, each loading `nextpid` and trying to advance it by a
    compare-and-swap, one memory access a step. Numbers are 32-bit and wrap. */
module Pids {
  import opened Common

  /** Where a caller is: about to load, holding what it loaded, or back with its number; `turn` counts the
      successful swaps before its own. */
  datatype Caller = Loading | Loaded(pid: nat) | Returned(pid: nat, turn: nat)

  datatype State = State(nextpid: nat, callers: seq<Caller>, swaps: nat)

  datatype Step = Call | Load(c: nat) | Swap(c: nat)

  predicate Enabled(s: State, step: Step) {
    match step
    case Call => true
    case Load(c) => c < |s.callers| && s.callers[c].Loading?
    case Swap(c) => c < |s.callers| && s.callers[c].Loaded?
  }

  function Next(s: State, step: Step): (t: State)
    requires Enabled(s, step)
  {
    match step
    case Call => s.(callers := s.callers + [Loading])
    case Load(c) => s.(callers := s.callers[c := Loaded(s.nextpid)])
    case Swap(c) =>
      var pid := s.callers[c].pid;
      if s.nextpid == pid
      then State(Wrap(pid + 1), s.callers[c := Returned(Wrap(pid + 1), s.swaps)], s.swaps + 1)
      else s.(callers := s.callers[c := Loading])
  }

  predicate Init(s: State) {
    s.nextpid == 1 && s.callers == [] && s.swaps == 0
  }

  predicate CanRun(s: State, steps: seq<Step>)
    decreases |steps|
  {
    steps == [] || (Enabled(s, steps[0]) && CanRun(Next(s, steps[0]), steps[1..]))
  }

  function After(s: State, steps: seq<Step>): (t: State)
    requires CanRun(s, steps)
    decreases |steps|
  {
    if steps == [] then s else After(Next(s, steps[0]), steps[1..])
  }

  /** Each successful swap has its own turn, and the turn tells the number. */
  ghost predicate Inv(s: State) {
    && s.nextpid == Wrap(1 + s.swaps)
    && (forall c :: 0 <= c < |s.callers| && s.callers[c].Returned? ==> s.callers[c].turn < s.swaps && s.callers[c].pid == Wrap(2 + s.callers[c].turn))
    && (forall c, d :: 0 <= c < d < |s.callers| && s.callers[c].Returned? && s.callers[d].Returned? ==> s.callers[c].turn != s.callers[d].turn)
  }

  lemma StepKeepsInv(s: State, step: Step)
    requires Inv(s) && Enabled(s, step)
    ensures Inv(Next(s, step))
  {
    hide Wrap;
    if step.Swap? && s.nextpid == s.callers[step.c].pid { WrapOn(1 + s.swaps); }
  }

  lemma WrapOn(n: int)
    ensures Wrap(Wrap(n) + 1) == Wrap(n + 1)
  {
  }

  lemma {:induction false} RunKeepsInv(s: State, steps: seq<Step>)
    requires Inv(s) && CanRun(s, steps)
    ensures Inv(After(s, steps))
    decreases |steps|
  {
    if steps != [] {
      StepKeepsInv(s, steps[0]);
      RunKeepsInv(Next(s, steps[0]), steps[1..]);
    }
  }

  /** In every interleaving two callers get the same number if and only if a multiple of 2^32 numbers were
      handed out between them; so with at most 2^32 handed out all are different. */
  lemma PidsRepeatOnlyByWrapping(s: State, steps: seq<Step>, c: nat, d: nat)
    requires Init(s) && CanRun(s, steps) && c < d
    requires var t := After(s, steps); d < |t.callers| && t.callers[c].Returned? && t.callers[d].Returned?
    ensures var t := After(s, steps); var m, n := t.callers[c].turn, t.callers[d].turn;
      && m != n && m < t.swaps && n < t.swaps
      && (t.callers[c].pid == t.callers[d].pid <==> (m - n) % TWO32 == 0)
      && (t.swaps <= TWO32 ==> t.callers[c].pid != t.callers[d].pid)
  {
    RunKeepsInv(s, steps);
    var t := After(s, steps);
    SameResidue(2 + t.callers[c].turn, 2 + t.callers[d].turn);
  }

  /** Steps of everybody but caller c. */
  predicate Others(steps: seq<Step>, c: nat) {
    forall k :: 0 <= k < |steps| ==> steps[k].Call? || steps[k].c != c
  }

  lemma {:induction false} OthersLeave(s: State, steps: seq<Step>, c: nat)
    requires CanRun(s, steps) && Others(steps, c) && c < |s.callers|
    ensures var t := After(s, steps); c < |t.callers| && t.callers[c] == s.callers[c] && t.swaps >= s.swaps
    decreases |steps|
  {
    if steps != [] { OthersLeave(Next(s, steps[0]), steps[1..], c); }
  }

  /** Whatever the others do between a caller's load and its swap, it returns with the next number if and only
      if a multiple of 2^32 of them returned meanwhile, in particular if none did; otherwise it tries again. */
  lemma SwapSucceeds(s: State, c: nat, steps: seq<Step>)
    requires Inv(s) && c < |s.callers| && s.callers[c].Loading?
    requires CanRun(Next(s, Load(c)), steps) && Others(steps, c)
    ensures var t := After(Next(s, Load(c)), steps);
      && t.swaps >= s.swaps && Enabled(t, Swap(c))
      && var u := Next(t, Swap(c));
         && (u.callers[c] == Returned(u.nextpid, t.swaps) <==> (t.swaps - s.swaps) % TWO32 == 0)
         && ((t.swaps - s.swaps) % TWO32 != 0 ==> u == t.(callers := t.callers[c := Loading]))
  {
    hide Wrap;
    var loaded := Next(s, Load(c));
    StepKeepsInv(s, Load(c));
    RunKeepsInv(loaded, steps);
    OthersLeave(loaded, steps, c);
    SameResidue(1 + After(loaded, steps).swaps, 1 + s.swaps);
  }

  lemma SameResidue(a: int, b: int)
    ensures Wrap(a) == Wrap(b) <==> (a - b) % TWO32 == 0
  {
    var k, m := a / TWO32, b / TWO32;
    assert a == Wrap(a) + k * TWO32 && b == Wrap(b) + m * TWO32;
    if Wrap(a) == Wrap(b) {
      assert a - b == (k - m) * TWO32;
    } else {
      var r := Wrap(a) - Wrap(b);
      assert a - b == r + (k - m) * TWO32;
      assert (r + (k - m) * TWO32) % TWO32 == r % TWO32 by { Shifted(r, k - m); }
    }
  }

  lemma Shifted(r: int, k: int)
    ensures (r + k * TWO32) % TWO32 == r % TWO32
  {
  }
}

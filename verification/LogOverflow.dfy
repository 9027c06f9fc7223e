/** When the log can overflow. Operations that follow a rule reach log_write's panic exactly when the log's
    capacity is below the rule's reach; and because log_write's check is made without the lock, operations
    that all pass it can then record a sector for which there is no place, with no panic, exactly when the
    region has at most LogNeed sectors and at most LOGSIZE. The image that mkfs builds has LOGSIZE sectors,
    one of them the header, so on it operations must keep below what begin_op reserves. */
module LogOverflow {
  import opened Common
  import opened LogFormat
  import opened Storage
  import opened StorageProof
  import opened StorageSpace

  /** Some operation would panic at a log_write that the rule lets it make. */
  ghost predicate Panics(t: State, rule: Rule) {
    TooBig(t) && exists op: nat, i: nat :: MayCall(t, op, i, rule)
  }

  // ---- Runs in pieces ------------------------------------------------------------------------

  lemma {:induction false} RunConcat(s: State, a: seq<Step>, b: seq<Step>)
    requires CanRun(s, a) && CanRun(After(s, a), b)
    ensures CanRun(s, a + b) && After(s, a + b) == After(After(s, a), b)
    ensures forall rule :: Follows(s, a + b, rule) <==> Follows(s, a, rule) && Follows(After(s, a), b, rule)
    decreases |a|
  {
    hide Next, Enabled, HeldOnDisk;
    if a == [] {
      assert a + b == b;
    } else {
      assert (a + b)[1..] == a[1..] + b && (a + b)[0] == a[0];
      RunConcat(Next(s, a[0]), a[1..], b);
    }
  }

  lemma NoStep(t: State)
    ensures CanRun(t, []) && After(t, []) == t && forall rule :: Follows(t, [], rule)
  {
  }

  lemma OneStep(t: State, step: Step, u: State)
    requires Enabled(t, step) && HeldOnDisk(t) && u == Next(t, step)
    ensures CanRun(t, [step]) && After(t, [step]) == u
    ensures forall rule :: Follows(t, [step], rule) <==> Allowed(t, step, rule)
  {
    assert [step][1..] == [];
  }

  lemma OneMore(s: State, a: seq<Step>, step: Step, u: State)
    requires CanRun(s, a) && Enabled(After(s, a), step) && HeldOnDisk(After(s, a)) && u == Next(After(s, a), step)
    ensures CanRun(s, a + [step]) && After(s, a + [step]) == u
    ensures forall rule :: Follows(s, a + [step], rule) <==> Follows(s, a, rule) && Allowed(After(s, a), step, rule)
  {
    hide Next, Enabled, HeldOnDisk;
    OneStep(After(s, a), step, u);
    RunConcat(s, a, [step]);
  }

  // ---- Logging sectors in order --------------------------------------------------------------

  predicate Upto(secs: seq<int>, k: nat) {
    |secs| == k && forall i :: 0 <= i < k ==> secs[i] == i
  }

  predicate BufsAt(bufs: seq<Buf>, k: nat) {
    && |bufs| == NBUF
    && (forall i :: 0 <= i < NBUF && i < k ==> bufs[i].sector == i && bufs[i].holder == Nobody && bufs[i].valid)
    && (forall i :: 0 <= i < NBUF && k <= i ==> Blank(bufs[i]))
  }

  /** Sectors 0 to k - 1 are logged, and no operation is in the middle of anything. */
  predicate LoggedSoFar(t: State, k: nat) {
    && Upto(t.secs, k) && BufsAt(t.bufs, k) && NoChecks(t.ops)
    && t.outstanding >= 1 && !t.committing && t.phase == Idle && NBUF <= t.g.start <= |t.disk|
  }

  /** An operation with calls left can log one more sector. */
  predicate CanLog(t: State, op: nat, k: nat, b: nat) {
    LoggedSoFar(t, k) && k < LOGSIZE && k < t.g.size - 1 && op < |t.ops| && t.ops[op].active && t.ops[op].calls < b
  }

  /** The operation reads the next sector into the next buffer. */
  function Acquired(t: State, op: nat, k: nat, b: nat): (u: State)
    requires CanLog(t, op, k, b)
  {
    t.(bufs := t.bufs[k := Buf(k, Op(op), true, false, false, t.disk[k])])
  }

  /** It has called log_write and released the buffer. */
  function Released(t: State, op: nat, k: nat, b: nat): (u: State)
    requires CanLog(t, op, k, b)
  {
    t.(bufs := t.bufs[k := Buf(k, Nobody, true, true, false, t.disk[k])],
       secs := t.secs + [k],
       ops := t.ops[op := OpState(true, t.ops[op].calls + 1, t.ops[op].blocks + {k}, -1)])
  }

  lemma Acquire(t: State, op: nat, k: nat, b: nat) returns (steps: seq<Step>)
    requires CanLog(t, op, k, b)
    ensures CanRun(t, steps) && After(t, steps) == Acquired(t, op, k, b) && Follows(t, steps, Calls(b))
  {
    hide CanRun, After, Follows;
    assert Home(t.g, t.disk, k) && Active(t.ops, op) && Uncached(t.bufs, k);
    var a, f := Recycle(Op(op), k, k), Fill(k);
    var t1 := Next(t, a);
    OneStep(t, a, t1);
    OneMore(t, [a], f, Acquired(t, op, k, b));
    steps := [a] + [f];
  }

  lemma Record(t: State, op: nat, k: nat, b: nat) returns (steps: seq<Step>)
    requires CanLog(t, op, k, b)
    ensures var u := Acquired(t, op, k, b);
            CanRun(u, steps) && After(u, steps) == Released(t, op, k, b) && Follows(u, steps, Calls(b))
  {
    hide CanRun, After, Follows;
    var u := Acquired(t, op, k, b);
    var c, r, p := LogCheck(op, k), LogRecord(op), Put(k);
    var u1 := Next(u, c);
    OneStep(u, c, u1);
    var u2 := Next(u1, r);
    assert u2 == Released(t, op, k, b).(bufs := t.bufs[k := Buf(k, Op(op), true, true, false, t.disk[k])]);
    OneMore(u, [c], r, u2);
    assert NobodyChecks(u2.ops, k);
    OneMore(u, [c] + [r], p, Released(t, op, k, b));
    steps := [c] + [r] + [p];
  }

  lemma LogOne(t: State, op: nat, k: nat, b: nat) returns (steps: seq<Step>)
    requires CanLog(t, op, k, b)
    ensures CanRun(t, steps) && After(t, steps) == Released(t, op, k, b) && Follows(t, steps, Calls(b))
    ensures LoggedSoFar(After(t, steps), k + 1)
  {
    hide CanRun, After, Follows;
    var a := Acquire(t, op, k, b);
    var c := Record(t, op, k, b);
    RunConcat(t, a, c);
    steps := a + c;
  }

  /** The operation after it has logged sectors k to n - 1. */
  function Spent(o: OpState, k: nat, n: nat): (r: OpState)
    requires k <= n
  {
    OpState(true, o.calls + n - k, o.blocks + Interval(k, n), -1)
  }

  /** One operation logs until n sectors are logged. */
  lemma {:induction false} LogMany(t: State, op: nat, k: nat, n: nat, b: nat) returns (steps: seq<Step>)
    requires LoggedSoFar(t, k) && k <= n <= LOGSIZE && n < t.g.size && op < |t.ops| && t.ops[op].active
    requires t.ops[op].calls + n - k <= b
    ensures CanRun(t, steps) && LoggedSoFar(After(t, steps), n) && Follows(t, steps, Calls(b))
    ensures After(t, steps).ops == t.ops[op := Spent(t.ops[op], k, n)]
    ensures After(t, steps).outstanding == t.outstanding
    decreases n - k
  {
    hide Next, Enabled, HeldOnDisk, CanRun, After, Follows, Home, Upto, BufsAt;
    if k == n {
      steps := [];
      NoStep(t);
      assert t.ops[op] == Spent(t.ops[op], k, n);
    } else {
      var first := LogOne(t, op, k, b);
      var u := After(t, first);
      var rest := LogMany(u, op, k + 1, n, b);
      RunConcat(t, first, rest);
      assert Spent(u.ops[op], k + 1, n) == Spent(t.ops[op], k, n);
      steps := first + rest;
    }
  }

  // ---- Filling the log -----------------------------------------------------------------------

  /** Operation 0 is open and has logged nothing, and no other is open. */
  predicate FirstAlone(t: State, k: nat) {
    LoggedSoFar(t, k) && t.outstanding == 1 && t.ops != [] && t.ops[0] == OpState(true, 0, {}, -1)
  }

  lemma FirstBegins(s: State) returns (steps: seq<Step>)
    requires Boot(s) && NBUF <= s.g.start
    ensures CanRun(s, steps) && FirstAlone(After(s, steps), 0) && forall b :: Follows(s, steps, Calls(b))
  {
    steps := [BeginOp];
    OneStep(s, BeginOp, Next(s, BeginOp));
  }

  /** Another operation begins. */
  lemma OtherBegins(t: State, k: nat) returns (u: State)
    requires FirstAlone(t, k) && k <= LOGSIZE - 2 * MAXOPBLOCKS
    ensures CanRun(t, [BeginOp]) && After(t, [BeginOp]) == u && forall b :: Follows(t, [BeginOp], Calls(b))
    ensures LoggedSoFar(u, k) && u.outstanding == 2 && u.ops == t.ops + [OpState(true, 0, {}, -1)]
  {
    assert HeldOnDisk(t);
    u := Next(t, BeginOp);
    OneStep(t, BeginOp, u);
  }

  /** Another operation comes, logs one sector and ends. */
  lemma ComeAndGo(t: State, k: nat, b: nat) returns (steps: seq<Step>)
    requires FirstAlone(t, k) && k < LOGSIZE - 2 * MAXOPBLOCKS && k < t.g.size - 1 && b >= 1
    ensures CanRun(t, steps) && FirstAlone(After(t, steps), k + 1) && Follows(t, steps, Calls(b))
  {
    hide CanRun, After, Follows;
    var u := OtherBegins(t, k);
    var op := |t.ops|;
    var a := LogOne(u, op, k, b);
    RunConcat(t, [BeginOp], a);
    var v := After(u, a);
    assert Active(v.ops, op) && NothingTouched(v.bufs, op) && HeldOnDisk(v);
    OneMore(t, [BeginOp] + a, EndOp(op), Next(v, EndOp(op)));
    steps := [BeginOp] + a + [EndOp(op)];
  }

  lemma {:induction false} ComeAndGoes(t: State, k: nat, n: nat, b: nat) returns (steps: seq<Step>)
    requires FirstAlone(t, k) && k <= n <= LOGSIZE - 2 * MAXOPBLOCKS && n < t.g.size && b >= 1
    ensures CanRun(t, steps) && FirstAlone(After(t, steps), n) && Follows(t, steps, Calls(b))
    decreases n - k
  {
    hide Next, Enabled, HeldOnDisk, CanRun, After, Follows, Home;
    if k == n {
      steps := [];
      NoStep(t);
    } else {
      var first := ComeAndGo(t, k, b);
      var rest := ComeAndGoes(After(t, first), k + 1, n, b);
      RunConcat(t, first, rest);
      steps := first + rest;
    }
  }

  /** n sectors are logged, and operation 0 and one more are open. Both have calls left if n is two below
      what they can log together, the first one has if it is one below; the first one logged sector n - 1
      if it has none left. */
  predicate TwoOpen(t: State, n: nat, b: nat) {
    && LoggedSoFar(t, n) && 2 <= |t.ops| && t.outstanding == 2
    && var one, two := t.ops[0], t.ops[|t.ops| - 1];
       && one.active && two.active && one.calls <= b && two.calls <= b
       && (n + 2 <= LogNeed(b) ==> one.calls < b && two.calls < b)
       && (n < LogNeed(b) ==> one.calls < b)
       && |one.blocks| <= one.calls && (one.calls == b && b > 0 ==> n - 1 in one.blocks)
  }

  /** How many sectors the last operation logs, so that both have calls left as long as possible. */
  function Share(n: nat, b: nat): (m: nat)
    requires n >= 10 && b >= 1
  {
    if n - 10 < b - 1 then n else if n + 2 <= LogNeed(b) then 10 + b - 1 else if n < 10 + b then n else 10 + b
  }

  lemma TwoLog(t: State, n: nat, b: nat) returns (steps: seq<Step>)
    requires FirstAlone(t, 10) && 10 <= n <= LogNeed(b) && n <= LOGSIZE && n < t.g.size && b >= 1
    ensures CanRun(t, steps) && TwoOpen(After(t, steps), n, b) && Follows(t, steps, Calls(b))
  {
    hide CanRun, After, Follows, Next, Enabled, HeldOnDisk, Home, Upto, BufsAt;
    var u := OtherBegins(t, 10);
    var op := |t.ops|;
    var m := Share(n, b);
    var a := LogMany(u, op, 10, m, b);
    RunConcat(t, [BeginOp], a);
    var v := After(u, a);
    var c := LogMany(v, 0, m, n, b);
    RunConcat(t, [BeginOp] + a, c);
    steps := [BeginOp] + a + c;
    IntervalSize(m, n);
    assert After(v, c).ops[0].blocks == Interval(m, n);
  }

  /** A run that leaves n sectors logged and two operations open. */
  lemma FillTo(s: State, n: nat, b: nat) returns (steps: seq<Step>)
    requires Boot(s) && NBUF <= s.g.start && n < s.g.size && n <= LOGSIZE && n <= LogNeed(b) && b >= 1
    ensures CanRun(s, steps) && TwoOpen(After(s, steps), n, b) && Follows(s, steps, Calls(b))
  {
    hide CanRun, After, Follows;
    var a := FirstBegins(s);
    var t := After(s, a);
    if n < 10 {
      var c := ComeAndGoes(t, 0, n, b);
      RunConcat(s, a, c);
      var u := OtherBegins(After(t, c), n);
      RunConcat(s, a + c, [BeginOp]);
      steps := a + c + [BeginOp];
    } else {
      var c := ComeAndGoes(t, 0, 10, b);
      RunConcat(s, a, c);
      var d := TwoLog(After(t, c), n, b);
      RunConcat(s, a + c, d);
      steps := a + c + d;
    }
  }

  // ---- Panics --------------------------------------------------------------------------------

  /** Operation 0 takes a buffer: of the last logged sector, or of sector 0. */
  lemma TakeBuffer(t: State, n: nat) returns (steps: seq<Step>, i: nat)
    requires LoggedSoFar(t, n) && n <= NBUF && t.ops != [] && t.ops[0].active && n < t.g.size
    ensures CanRun(t, steps) && (forall b :: Follows(t, steps, Calls(b)))
    ensures var u := After(t, steps);
            && u.secs == t.secs && u.g == t.g && u.ops == t.ops
            && i < |u.bufs| && u.bufs[i].holder == Op(0) && u.bufs[i].valid && (n > 0 ==> u.bufs[i].sector == n - 1)
  {
    assert Home(t.g, t.disk, 0) && Active(t.ops, 0) && HeldOnDisk(t);
    if n > 0 {
      i := n - 1;
      assert Home(t.g, t.disk, i);
      OneStep(t, Get(Op(0), i), Next(t, Get(Op(0), i)));
      steps := [Get(Op(0), i)];
    } else {
      i := 0;
      var t1 := Next(t, Recycle(Op(0), 0, 0));
      OneStep(t, Recycle(Op(0), 0, 0), t1);
      OneMore(t, [Recycle(Op(0), 0, 0)], Fill(0), Next(t1, Fill(0)));
      steps := [Recycle(Op(0), 0, 0)] + [Fill(0)];
    }
  }

  /** An operation within a number of calls is within the same number of blocks. */
  lemma {:induction false} CallsAreBlocks(s: State, steps: seq<Step>, b: nat)
    requires forall op :: 0 <= op < |s.ops| ==> |s.ops[op].blocks| <= s.ops[op].calls
    requires CanRun(s, steps) && Follows(s, steps, Calls(b))
    ensures Follows(s, steps, Blocks(b))
    decreases |steps|
  {
    if steps != [] {
      var step, t := steps[0], Next(s, steps[0]);
      if step.LogCheck? { OneMoreBlock(s.ops[step.op].blocks, s.bufs[step.i].sector); }
      if step.LogRecord? { OneMoreBlock(s.ops[step.op].blocks, s.bufs[s.ops[step.op].checking].sector); }
      CallsAreBlocks(t, steps[1..], b);
    }
  }

  /** A run into the panic, for every log whose capacity is below the rule's reach. */
  lemma SmallLogPanics(s: State, rule: Rule) returns (steps: seq<Step>)
    requires Boot(s) && NBUF <= s.g.start && !rule.Fitting? && rule.most >= 1 && Capacity(s.g) < Reach(rule)
    ensures CanRun(s, steps) && Follows(s, steps, rule) && Panics(After(s, steps), rule)
  {
    hide CanRun, After, Follows;
    var b, n := rule.most, Capacity(s.g);
    var a := FillTo(s, n, b);
    var t := After(s, a);
    var c, i := TakeBuffer(t, n);
    RunConcat(s, a, c);
    steps := a + c;
    CallsAreBlocks(s, steps, b);
    var u := After(t, c);
    OneMoreBlock(u.ops[0].blocks, u.bufs[i].sector);
    assert MayCall(u, 0, i, rule);
  }

  ghost predicate PanicsAfter(s: State, steps: seq<Step>, rule: Rule) {
    CanRun(s, steps) && Follows(s, steps, rule) && Panics(After(s, steps), rule)
  }

  /** Operations that follow a rule reach log_write's panic in some run if and only if they log at all and
      the capacity of the log is below the rule's reach. */
  lemma PanicCondition(s: State, rule: Rule)
    requires Boot(s) && NBUF <= s.g.start && !rule.Fitting?
    ensures (exists steps :: PanicsAfter(s, steps, rule)) <==> rule.most >= 1 && Capacity(s.g) < Reach(rule)
  {
    hide CanRun, After, Follows;
    if rule.most >= 1 && Capacity(s.g) < Reach(rule) {
      var steps := SmallLogPanics(s, rule);
      assert PanicsAfter(s, steps, rule);
    } else {
      forall steps ensures !PanicsAfter(s, steps, rule) {
        if CanRun(s, steps) && Follows(s, steps, rule) && rule.most >= 1 {
          forall op: nat, i: nat | MayCall(After(s, steps), op, i, rule) ensures !TooBig(After(s, steps)) {
            NoPanic(s, steps, rule, op, i);
          }
        }
      }
    }
  }

  // ---- Overruns ------------------------------------------------------------------------------

  /** Both operations have read a sector that is not logged yet. */
  function BothHold(t: State, n: nat): (u: State)
    requires |t.bufs| == NBUF && n + 2 <= NBUF <= |t.disk| && 2 <= |t.ops|
  {
    t.(bufs := t.bufs[n := Buf(n, Op(0), true, false, false, t.disk[n])]
               [n + 1 := Buf(n + 1, Op(|t.ops| - 1), true, false, false, t.disk[n + 1])])
  }

  lemma BothAcquire(t: State, n: nat, b: nat) returns (steps: seq<Step>)
    requires TwoOpen(t, n, b) && n + 2 <= NBUF
    ensures CanRun(t, steps) && Follows(t, steps, Calls(b)) && After(t, steps) == BothHold(t, n)
  {
    hide CanRun, After, Follows;
    var other := |t.ops| - 1;
    assert Home(t.g, t.disk, n) && Home(t.g, t.disk, n + 1);
    var a, c, d, e := Recycle(Op(0), n, n), Fill(n), Recycle(Op(other), n + 1, n + 1), Fill(n + 1);
    var t1 := Next(t, a);
    OneStep(t, a, t1);
    var t2 := Next(t1, c);
    OneMore(t, [a], c, t2);
    assert Uncached(t2.bufs, n + 1);
    var t3 := Next(t2, d);
    OneMore(t, [a] + [c], d, t3);
    OneMore(t, [a] + [c] + [d], e, BothHold(t, n));
    steps := [a] + [c] + [d] + [e];
  }

  /** Both have passed log_write's check. */
  function BothChecked(t: State, n: nat): (u: State)
    requires |t.bufs| == NBUF && n + 2 <= NBUF <= |t.disk| && 2 <= |t.ops|
  {
    BothHold(t, n).(ops := t.ops[0 := t.ops[0].(checking := n)][|t.ops| - 1 := t.ops[|t.ops| - 1].(checking := n + 1)])
  }

  lemma BothCheck(t: State, n: nat, b: nat) returns (steps: seq<Step>)
    requires TwoOpen(t, n, b) && n + 2 <= NBUF && n + 2 <= LogNeed(b) && n + 2 == t.g.size
    ensures var u := BothHold(t, n);
            CanRun(u, steps) && Follows(u, steps, Calls(b)) && Follows(u, steps, Fitting) && After(u, steps) == BothChecked(t, n)
  {
    hide CanRun, After, Follows;
    var u := BothHold(t, n);
    var a, c := LogCheck(0, n), LogCheck(|t.ops| - 1, n + 1);
    var u1 := Next(u, a);
    OneStep(u, a, u1);
    OneMore(u, [a], c, BothChecked(t, n));
    steps := [a] + [c];
  }

  /** Both have passed the check before either records its sector. */
  lemma BothRecord(t: State, n: nat, b: nat) returns (steps: seq<Step>)
    requires TwoOpen(t, n, b) && n + 2 <= NBUF && n + 2 == t.g.size
    ensures var u := BothChecked(t, n);
            && CanRun(u, steps) && Follows(u, steps, Calls(b)) && !Follows(u, steps, Fitting)
            && |After(u, steps).secs| == t.g.size
  {
    hide CanRun, After, Follows;
    var u := BothChecked(t, n);
    var d, e := LogRecord(0), LogRecord(|t.ops| - 1);
    var u1 := Next(u, d);
    assert u1.secs == t.secs + [n];
    OneStep(u, d, u1);
    OneMore(u, [d], e, Next(u1, e));
    steps := [d] + [e];
  }

  /** A run in which the log gets as many sectors as the whole region has, header included, although every
      call passed log_write's check. */
  lemma SmallLogOverruns(s: State, b: nat) returns (steps: seq<Step>)
    requires Boot(s) && NBUF <= s.g.start && b >= 1 && 2 <= s.g.size <= LogNeed(b) && s.g.size <= LOGSIZE
    ensures CanRun(s, steps) && Follows(s, steps, Calls(b)) && !Follows(s, steps, Fitting)
    ensures |After(s, steps).secs| == s.g.size
  {
    hide CanRun, After, Follows;
    var n := s.g.size - 2;
    var a := FillTo(s, n, b);
    var t := After(s, a);
    var c := BothAcquire(t, n, b);
    RunConcat(s, a, c);
    var d := BothCheck(t, n, b);
    RunConcat(s, a + c, d);
    var e := BothRecord(t, n, b);
    RunConcat(s, a + c + d, e);
    steps := a + c + d + e;
  }

  ghost predicate OverrunsAfter(s: State, steps: seq<Step>, rule: Rule) {
    CanRun(s, steps) && Follows(s, steps, rule) && !Follows(s, steps, Fitting)
  }

  /** Operations that follow a rule record a sector without a place in some run if and only if they log at
      all, the region has at most LOGSIZE sectors and at most as many as the operations can log together,
      and it has a place besides the header. */
  lemma OverrunCondition(s: State, rule: Rule)
    requires Boot(s) && NBUF <= s.g.start && !rule.Fitting?
    ensures (exists steps :: OverrunsAfter(s, steps, rule)) <==>
            rule.most >= 1 && 2 <= s.g.size <= LOGSIZE && s.g.size <= LogNeed(rule.most)
  {
    hide CanRun, After, Follows, Inv;
    if rule.most >= 1 && 2 <= s.g.size <= LOGSIZE && s.g.size <= LogNeed(rule.most) {
      var steps := SmallLogOverruns(s, rule.most);
      CallsAreBlocks(s, steps, rule.most);
      assert OverrunsAfter(s, steps, rule);
    } else {
      BootInv(s);
      BootSpace(s, rule.most);
      forall steps ensures !OverrunsAfter(s, steps, rule) {
        if CanRun(s, steps) && Follows(s, steps, rule) {
          if rule.most == 0 || s.g.size < 2 {
            NothingLogged(s, steps, rule);
          } else if LOGSIZE < s.g.size {
            LargeLogFits(s, steps);
          } else {
            RunFits(s, steps, rule, rule.most);
          }
        }
      }
    }
  }

  // ---- Buffers for the commit ----------------------------------------------------------------

  /** Both operations end, and the commit begins. */
  lemma BothEnd(t: State, n: nat, b: nat) returns (steps: seq<Step>)
    requires TwoOpen(t, n, b) && 0 < n <= NBUF
    ensures CanRun(t, steps) && Follows(t, steps, Calls(b))
    ensures var u := After(t, steps); u.committing && u.phase == Logging(0) && u.secs == t.secs && u.bufs == t.bufs && u.g == t.g
  {
    hide CanRun, After, Follows;
    var other := |t.ops| - 1;
    assert NothingTouched(t.bufs, 0) && NothingTouched(t.bufs, other) && HeldOnDisk(t);
    var t1 := Next(t, EndOp(0));
    OneStep(t, EndOp(0), t1);
    OneMore(t, [EndOp(0)], EndOp(other), Next(t1, EndOp(other)));
    steps := [EndOp(0)] + [EndOp(other)];
  }

  /** A commit that holds nothing asks for a block of the log and no buffer is left, although nobody else holds
      one either. */
  ghost predicate Starves(t: State) {
    t.committing && HeldClean(t.bufs) == {} && exists x :: t.g.start <= x < t.g.start + t.g.size && NoBuffer(t, x)
  }

  ghost predicate StarvesAfter(s: State, steps: seq<Step>, rule: Rule) {
    CanRun(s, steps) && Follows(s, steps, rule) && Follows(s, steps, Fitting) && Starves(After(s, steps))
  }

  lemma AllPinned(s: State, rule: Rule) returns (steps: seq<Step>)
    requires Boot(s) && NBUF <= s.g.start && !rule.Fitting? && rule.most >= MAXOPBLOCKS && LOGSIZE < s.g.size
    ensures StarvesAfter(s, steps, rule)
  {
    hide CanRun, After, Follows, Inv, Backed, NoBuffer;
    var a := FillTo(s, NBUF, rule.most);
    var t := After(s, a);
    var c := BothEnd(t, NBUF, rule.most);
    RunConcat(s, a, c);
    steps := a + c;
    var u := After(s, steps);
    CallsAreBlocks(s, steps, rule.most);
    BootInv(s);
    BootBacked(s);
    LargeLogFits(s, steps);
    RunBacked(s, steps);
    assert HeldClean(u.bufs) == {};
    CommitFinds(u, u.g.start + 1);
    assert NoBuffer(u, u.g.start + 1);
  }

  lemma BootBacked(s: State)
    requires Boot(s)
    ensures Backed(s)
  {
  }

  lemma LoggedBound(t: State, b: nat)
    requires SpaceOk(t, b)
    ensures |t.secs| <= LogNeed(b)
  {
    assert forall op :: 0 <= op < |t.ops| ==> OpSpaceOk(t.ops[op], t.bufs, t.secs, b);
    UnspentBounds(t.ops, b);
  }

  /** Operations that follow a rule leave a commit without a buffer in some run, with nobody else holding one
      and every recorded sector in its place, if and only if the rule lets them log MAXOPBLOCKS blocks each and
      the region has more than LOGSIZE sectors: NBUF is no larger than LOGSIZE. */
  lemma StarveCondition(s: State, rule: Rule)
    requires Boot(s) && NBUF <= s.g.start && !rule.Fitting?
    ensures (exists steps :: StarvesAfter(s, steps, rule)) <==> rule.most >= MAXOPBLOCKS && LOGSIZE < s.g.size
  {
    hide CanRun, After, Follows, Inv, Backed, NoBuffer, SpaceOk, HeldClean;
    if rule.most >= MAXOPBLOCKS && LOGSIZE < s.g.size {
      var steps := AllPinned(s, rule);
    } else {
      BootInv(s);
      BootBacked(s);
      BootSpace(s, rule.most);
      forall steps ensures !StarvesAfter(s, steps, rule) {
        if StarvesAfter(s, steps, rule) {
          RunBacked(s, steps);
          var t := After(s, steps);
          var x :| t.g.start <= x < t.g.start + t.g.size && NoBuffer(t, x);
          CommitFinds(t, x);
          PinnedPart(t);
          if LOGSIZE < s.g.size {
            RunFits(s, steps, rule, rule.most);
            LoggedBound(t, rule.most);
          }
        }
      }
    }
  }

  lemma PinnedPart(t: State)
    requires Inv(t)
    ensures |Pinned(t.secs, t.phase)| <= |t.secs| < t.g.size
  {
    hide CopiesOk, DurableOk, HistoryOk, Count, OpsOk, BufsOk;
  }

  /** The image of mkfs, whose log region has LOGSIZE sectors: calls and different blocks alike, operations
      that log at most nine blocks never reach the panic and never overrun the log; with what begin_op
      reserves, and with anything more, they can do both. */
  lemma ImageBudget(s: State, rule: Rule)
    requires Boot(s) && NBUF <= s.g.start && s.g.size == LOGSIZE && !rule.Fitting?
    ensures (exists steps :: PanicsAfter(s, steps, rule)) <==> rule.most >= MAXOPBLOCKS
    ensures (exists steps :: OverrunsAfter(s, steps, rule)) <==> rule.most >= MAXOPBLOCKS
  {
    PanicCondition(s, rule);
    OverrunCondition(s, rule);
  }
}

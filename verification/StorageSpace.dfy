/** Space in the log: what a run has to follow so that no recorded sector lacks its place, and when
    log_write's panic is out of reach. */
module StorageSpace {
  import opened Common
  import opened LogFormat
  import opened Storage
  import opened StorageProof

  // ---- The space that operations may still take ----------------------------------------------

  /** The new blocks that the active operations may still log. */
  function Unspent(ops: seq<OpState>, b: nat): (n: int)
  {
    if ops == [] then 0
    else Unspent(ops[..|ops| - 1], b) + if ops[|ops| - 1].active then b - |ops[|ops| - 1].blocks| else 0
  }

  lemma {:induction false} UpdateUnspent(ops: seq<OpState>, i: nat, o: OpState, b: nat)
    requires i < |ops|
    ensures Unspent(ops[i := o], b) == Unspent(ops, b) - (if ops[i].active then b - |ops[i].blocks| else 0)
                                       + (if o.active then b - |o.blocks| else 0)
  {
    var n := |ops| - 1;
    if i == n {
      assert ops[i := o][..n] == ops[..n];
    } else {
      assert ops[i := o][..n] == ops[..n][i := o];
      UpdateUnspent(ops[..n], i, o, b);
    }
  }

  lemma AppendUnspent(ops: seq<OpState>, o: OpState, b: nat)
    ensures Unspent(ops + [o], b) == Unspent(ops, b) + if o.active then b - |o.blocks| else 0
  {
    assert (ops + [o])[..|ops|] == ops;
  }

  lemma {:induction false} UnspentBounds(ops: seq<OpState>, b: nat)
    requires forall i :: 0 <= i < |ops| && ops[i].active ==> |ops[i].blocks| <= b
    ensures 0 <= Unspent(ops, b) <= Count(ops) * b
    ensures forall i :: 0 <= i < |ops| && ops[i].active ==> b - |ops[i].blocks| <= Unspent(ops, b)
  {
    if ops != [] {
      var n := |ops| - 1;
      UnspentBounds(ops[..n], b);
      forall i | 0 <= i < |ops| && ops[i].active ensures b - |ops[i].blocks| <= Unspent(ops, b) {
        if i < n { assert ops[..n][i] == ops[i]; }
      }
      assert ops[n].active ==> Count(ops) * b == Count(ops[..n]) * b + b;
    }
  }

  lemma {:induction false} EndedUnspent(n: nat, b: nat)
    ensures Unspent(EndedOps(n), b) == 0
  {
    if n > 0 {
      assert EndedOps(n)[..n - 1] == EndedOps(n - 1);
      EndedUnspent(n - 1, b);
    }
  }

  /** The most blocks that operations of at most b blocks each can have in the log at once: the last one is
      let in when it and one other are outstanding with at most LOGSIZE - 2 * MAXOPBLOCKS logged. */
  function LogNeed(b: nat): (n: int) {
    LOGSIZE - 2 * MAXOPBLOCKS + 2 * b
  }

  predicate OpSpaceOk(o: OpState, bufs: seq<Buf>, secs: seq<int>, b: nat) {
    && (o.active ==> |o.blocks| <= b && |o.blocks| <= o.calls && forall x :: x in o.blocks ==> x in secs)
    && (o.checking != -1 ==> 0 <= o.checking < |bufs| && |o.blocks + {bufs[o.checking].sector}| <= b)
  }

  /** What is logged and what the active operations may still log fit together. */
  predicate SpaceOk(s: State, b: nat) {
    && (forall op :: 0 <= op < |s.ops| ==> OpSpaceOk(s.ops[op], s.bufs, s.secs, b))
    && |s.secs| + Unspent(s.ops, b) <= LogNeed(b)
  }

  /** The bound that a rule sets on the operations. */
  predicate Bounded(rule: Rule, b: nat) {
    rule == Calls(b) || rule == Blocks(b)
  }

  /** An operation with calls left can log any block; so can one that has logged the block before. */
  lemma OneMoreBlock(blocks: set<int>, x: int)
    ensures |blocks + {x}| <= |blocks| + 1
    ensures x in blocks ==> blocks + {x} == blocks
    ensures x !in blocks ==> |blocks + {x}| == |blocks| + 1
  {
    if x in blocks { assert blocks + {x} == blocks; }
  }

  lemma InvHeld(s: State)
    requires Inv(s)
    ensures HeldOnDisk(s)
  {
    assert forall i :: 0 <= i < |s.bufs| ==> BufOk(s.bufs[i], s.g, s.disk, s.ops);
  }

  // ---- Steps keep the space ------------------------------------------------------------------

  lemma BeginSpace(s: State, b: nat)
    requires Inv(s) && SpaceOk(s, b) && b <= MAXOPBLOCKS && Enabled(s, BeginOp)
    ensures SpaceOk(Next(s, BeginOp), b)
  {
    hide BufsOk, CopiesOk, PinsOk, RegionOk, DurableOk, HistoryOk, Unspent;
    AppendUnspent(s.ops, OpState(true, 0, {}, -1), b);
    UnspentBounds(s.ops, b);
    assert s.outstanding == Count(s.ops) <= 2;
    assert s.outstanding == 0 ==> s.secs == [];
  }

  lemma CheckSpace(s: State, op: nat, i: nat, rule: Rule, b: nat)
    requires Inv(s) && SpaceOk(s, b) && Bounded(rule, b)
    requires Enabled(s, LogCheck(op, i)) && Allowed(s, LogCheck(op, i), rule)
    ensures SpaceOk(Next(s, LogCheck(op, i)), b)
  {
    hide Unspent;
    assert OpSpaceOk(s.ops[op], s.bufs, s.secs, b);
    OneMoreBlock(s.ops[op].blocks, s.bufs[i].sector);
    UpdateUnspent(s.ops, op, s.ops[op].(checking := i), b);
  }

  lemma RecordSpace(s: State, op: nat, b: nat)
    requires Inv(s) && SpaceOk(s, b) && Enabled(s, LogRecord(op))
    ensures SpaceOk(Next(s, LogRecord(op)), b)
    ensures var x := s.bufs[s.ops[op].checking].sector; x !in s.secs ==> |s.secs| < LogNeed(b)
  {
    hide BufsOk, CopiesOk, PinsOk, RegionOk, DurableOk, HistoryOk, Unspent, Count;
    InvHeld(s);
    var t := Next(s, LogRecord(op));
    var x := s.bufs[s.ops[op].checking].sector;
    assert OpSpaceOk(s.ops[op], s.bufs, s.secs, b);
    OneMoreBlock(s.ops[op].blocks, x);
    UpdateUnspent(s.ops, op, t.ops[op], b);
    UnspentBounds(s.ops, b);
    forall k | 0 <= k < |t.ops| ensures OpSpaceOk(t.ops[k], t.bufs, t.secs, b) {
      assert OpSpaceOk(s.ops[k], s.bufs, s.secs, b);
    }
  }

  lemma EndSpace(s: State, op: nat, b: nat)
    requires Inv(s) && SpaceOk(s, b) && Enabled(s, EndOp(op))
    ensures SpaceOk(Next(s, EndOp(op)), b)
  {
    hide BufsOk, CopiesOk, PinsOk, RegionOk, DurableOk, HistoryOk, Unspent, Count;
    assert OpSpaceOk(s.ops[op], s.bufs, s.secs, b);
    UpdateUnspent(s.ops, op, s.ops[op].(active := false), b);
  }

  lemma OtherKeeps(s: State, step: Step)
    requires Enabled(s, step) && HeldOnDisk(s)
    requires !step.BeginOp? && !step.LogCheck? && !step.LogRecord? && !step.EndOp? && !step.Crash? && !step.ForgetTransaction?
    ensures var t := Next(s, step);
            && t.ops == s.ops && t.secs == s.secs && |t.bufs| == |s.bufs|
            && forall i :: 0 <= i < |s.bufs| ==> t.bufs[i].sector == s.bufs[i].sector || s.bufs[i].holder == Nobody
  {
    hide HeaderBlock;
  }

  /** Steps of the cache and of the commit leave the operations and the buffers they are checking. */
  lemma OtherSpace(s: State, step: Step, b: nat)
    requires Inv(s) && SpaceOk(s, b) && Enabled(s, step)
    requires !step.BeginOp? && !step.LogCheck? && !step.LogRecord? && !step.EndOp? && !step.Crash? && !step.ForgetTransaction?
    ensures SpaceOk(Next(s, step), b)
  {
    hide BufsOk, CopiesOk, PinsOk, RegionOk, DurableOk, HistoryOk, Unspent, Count, Next, Enabled;
    InvHeld(s);
    var t := Next(s, step);
    OtherKeeps(s, step);
    forall k | 0 <= k < |t.ops| ensures OpSpaceOk(t.ops[k], t.bufs, t.secs, b) {
      assert OpSpaceOk(s.ops[k], s.bufs, s.secs, b);
    }
  }

  lemma SpaceStep(s: State, step: Step, rule: Rule, b: nat)
    requires Inv(s) && SpaceOk(s, b) && b <= MAXOPBLOCKS && Bounded(rule, b)
    requires Enabled(s, step) && Allowed(s, step, rule)
    ensures SpaceOk(Next(s, step), b)
  {
    hide BufsOk, CopiesOk, PinsOk, RegionOk, DurableOk, HistoryOk, Unspent, Count, HeaderBlock;
    if step.BeginOp? { BeginSpace(s, b); }
    else if step.LogCheck? { CheckSpace(s, step.op, step.i, rule, b); }
    else if step.LogRecord? { RecordSpace(s, step.op, b); }
    else if step.EndOp? { EndSpace(s, step.op, b); }
    else if step.Crash? { EndedUnspent(|s.ops|, b); }
    else if step.ForgetTransaction? {
      ActiveCounts(s.ops);
      UnspentBounds(s.ops, b);
    }
    else { OtherSpace(s, step, b); }
  }

  /** In a region larger than what the operations can log together, every sector that passes log_write's
      unlocked check still fits when it is recorded. */
  lemma {:induction false} RunFits(s: State, steps: seq<Step>, rule: Rule, b: nat)
    requires Inv(s) && SpaceOk(s, b) && b <= MAXOPBLOCKS && LogNeed(b) < s.g.size && Bounded(rule, b)
    requires CanRun(s, steps) && Follows(s, steps, rule)
    ensures Follows(s, steps, Fitting) && Inv(After(s, steps)) && SpaceOk(After(s, steps), b)
    decreases |steps|
  {
    hide Inv, SpaceOk, Enabled, Next, HeldOnDisk;
    if steps != [] {
      RecordFits(s, steps[0], b);
      StepKeepsInv(s, steps[0]);
      SpaceStep(s, steps[0], rule, b);
      RunFits(Next(s, steps[0]), steps[1..], rule, b);
    }
  }

  lemma RecordFits(s: State, step: Step, b: nat)
    requires Inv(s) && SpaceOk(s, b) && b <= MAXOPBLOCKS && LogNeed(b) < s.g.size && Enabled(s, step)
    ensures Allowed(s, step, Fitting)
  {
    hide Inv, SpaceOk, Next;
    if step.LogRecord? { RecordSpace(s, step.op, b); }
  }

  lemma BootSpace(s: State, b: nat)
    requires Boot(s)
    ensures SpaceOk(s, b)
  {
  }

  // ---- Panics --------------------------------------------------------------------------------

  /** Operation op has buffer i, and its next log_write is one that the rule lets it make. */
  ghost predicate MayCall(t: State, op: nat, i: nat, rule: Rule) {
    && Active(t.ops, op) && i < |t.bufs| && t.bufs[i].holder == Op(op) && t.bufs[i].valid
    && match rule
       case Fitting => true
       case Calls(b) => t.ops[op].calls < b
       case Blocks(b) => |t.ops[op].blocks + {t.bufs[i].sector}| <= b
  }

  /** How many sectors log_write lets into the header. */
  function Capacity(g: Geometry): (n: int) {
    if g.size - 1 < LOGSIZE then g.size - 1 else LOGSIZE
  }

  /** The most sectors that can be logged when an operation that follows the rule calls log_write, and one
      more: with a bound on different blocks it may call again for a block when all space is spent. */
  function Reach(rule: Rule): (n: int)
    requires !rule.Fitting?
  {
    LogNeed(rule.most) + if rule.Blocks? then 1 else 0
  }

  /** Within the capacity of the log no operation meets log_write's panics, although its check is made
      without the lock, and end_op never meets a running commit. */
  lemma NoPanic(s: State, steps: seq<Step>, rule: Rule, op: nat, i: nat)
    requires Boot(s) && !rule.Fitting? && Reach(rule) <= Capacity(s.g)
    requires CanRun(s, steps) && Follows(s, steps, rule)
    requires MayCall(After(s, steps), op, i, rule)
    ensures var t := After(s, steps); !TooBig(t) && !t.committing && t.outstanding >= 1
  {
    hide CanRun, After, Follows, Inv;
    var b, t := rule.most, After(s, steps);
    BootInv(s);
    BootSpace(s, b);
    RunFits(s, steps, rule, b);
    ActiveMeansIdle(t, op);
    assert OpSpaceOk(t.ops[op], t.bufs, t.secs, b);
    OneMoreBlock(t.ops[op].blocks, t.bufs[i].sector);
    UnspentBounds(t.ops, b);
  }

  // ---- Pinned buffers bound the log ----------------------------------------------------------

  /** Buffer i is pinned for sector x. */
  predicate Pins(bufs: seq<Buf>, i: nat, x: int) {
    i < |bufs| && bufs[i].sector == x && bufs[i].dirty
  }

  /** Until it is installed, each logged sector has its buffer in the cache. */
  ghost predicate Backed(s: State) {
    |s.bufs| == NBUF && forall x :: x in Pinned(s.secs, s.phase) ==> exists i: nat :: Pins(s.bufs, i, x)
  }

  lemma PinnedNext(s: State, step: Step, x: int)
    requires Inv(s) && Enabled(s, step) && HeldOnDisk(s) && !step.Crash? && !step.ForgetTransaction?
    requires x in Pinned(Next(s, step).secs, Next(s, step).phase)
    ensures x in Pinned(s.secs, s.phase) || (step.LogRecord? && x == s.bufs[s.ops[step.op].checking].sector)
    ensures step.InstallBlock? ==> s.bufs[step.to].sector != x
  {
    hide CopiesOk, PinsOk, DurableOk, HistoryOk, Count, HeaderBlock, Recovered, BufsOk;
    if step.InstallBlock? {
      var k :| 0 <= k < |s.secs[s.phase.tail + 1..]| && s.secs[s.phase.tail + 1..][k] == x;
      assert s.secs[s.phase.tail..][k + 1] == x;
    } else if step.EndOp? {
      ActiveMeansIdle(s, step.op);
    }
  }

  lemma BackedStep(s: State, step: Step)
    requires Inv(s) && Backed(s) && Enabled(s, step)
    ensures Backed(Next(s, step))
  {
    hide CopiesOk, PinsOk, RegionOk, DurableOk, HistoryOk, Count, HeaderBlock, Recovered, Pinned;
    InvHeld(s);
    var t := Next(s, step);
    if step.Crash? || step.ForgetTransaction? {
      NonePinned(t.phase);
    } else {
      forall x | x in Pinned(t.secs, t.phase) ensures exists i: nat :: Pins(t.bufs, i, x) {
        PinnedNext(s, step, x);
        if x in Pinned(s.secs, s.phase) {
          var i: nat :| Pins(s.bufs, i, x);
          assert BufOk(s.bufs[i], s.g, s.disk, s.ops);
          assert Pins(t.bufs, i, x);
        } else {
          assert Pins(t.bufs, s.ops[step.op].checking, x);
        }
      }
    }
  }

  lemma NonePinned(phase: Phase)
    ensures Pinned([], phase) == []
  {
  }

  lemma {:induction false} CachedSectors(bufs: seq<Buf>) returns (all: set<int>)
    ensures |all| <= |bufs| && forall i :: 0 <= i < |bufs| ==> bufs[i].sector in all
  {
    if bufs == [] {
      all := {};
    } else {
      var n := |bufs| - 1;
      var most := CachedSectors(bufs[..n]);
      forall i | 0 <= i < |bufs| ensures bufs[i].sector in most + {bufs[n].sector} {
        if i < n { assert bufs[..n][i] == bufs[i]; }
      }
      OneMoreBlock(most, bufs[n].sector);
      all := most + {bufs[n].sector};
    }
  }

  /** The logged sectors and one more that is in the cache take no more than NBUF buffers. */
  lemma PinnedFit(s: State, op: nat)
    requires Inv(s) && Backed(s) && Enabled(s, LogRecord(op))
    ensures s.bufs[s.ops[op].checking].sector in s.secs || |s.secs| < NBUF
  {
    hide CopiesOk, PinsOk, RegionOk, DurableOk, HistoryOk, Count;
    var x := s.bufs[s.ops[op].checking].sector;
    ActiveMeansIdle(s, op);
    assert Pinned(s.secs, s.phase) == s.secs;
    var logged := Elements(s.secs);
    ElementsSize(s.secs);
    var cached := CachedSectors(s.bufs);
    forall y | y in logged + {x} ensures y in cached {
      if y != x {
        var i: nat :| Pins(s.bufs, i, y);
      }
    }
    SubsetSize(logged + {x}, cached);
  }

  /** In a region of more than LOGSIZE sectors every recorded sector fits, whatever the operations do: the
      cache holds no more buffers than the log has places. */
  lemma {:induction false} LargeLogFits(s: State, steps: seq<Step>)
    requires Inv(s) && Backed(s) && LOGSIZE < s.g.size && CanRun(s, steps)
    ensures Follows(s, steps, Fitting)
    decreases |steps|
  {
    hide Inv, Backed, Next, HeldOnDisk;
    if steps != [] {
      if steps[0].LogRecord? { PinnedFit(s, steps[0].op); }
      StepKeepsInv(s, steps[0]);
      BackedStep(s, steps[0]);
      LargeLogFits(Next(s, steps[0]), steps[1..]);
    }
  }

  // ---- Finding a buffer ----------------------------------------------------------------------

  /** bget's panic: the sector is not cached, and every buffer is held or pinned. */
  predicate NoBuffer(t: State, x: int) {
    Uncached(t.bufs, x) && forall i :: 0 <= i < |t.bufs| ==> t.bufs[i].holder != Nobody || t.bufs[i].dirty
  }

  function DirtyBufs(bufs: seq<Buf>): (r: set<nat>) {
    set i: nat | i < |bufs| && bufs[i].dirty
  }

  /** Buffers that somebody holds and that are not pinned. */
  function HeldClean(bufs: seq<Buf>): (r: set<nat>) {
    set i: nat | i < |bufs| && bufs[i].holder != Nobody && !bufs[i].dirty
  }

  /** The buffers pinned for the sectors of p, in their order. */
  lemma {:induction false} PinIndexes(bufs: seq<Buf>, p: seq<int>) returns (idx: seq<nat>)
    requires forall x :: x in p ==> exists i: nat :: Pins(bufs, i, x)
    ensures |idx| == |p| && forall k :: 0 <= k < |p| ==> Pins(bufs, idx[k], p[k])
  {
    if p == [] {
      idx := [];
    } else {
      var n := |p| - 1;
      assert forall x :: x in p[..n] ==> x in p;
      var most := PinIndexes(bufs, p[..n]);
      assert p[n] in p;
      var i: nat :| Pins(bufs, i, p[n]);
      idx := most + [i];
    }
  }

  lemma PinnedDistinct(secs: seq<int>, phase: Phase)
    requires Distinct(secs)
    ensures Distinct(Pinned(secs, phase))
  {
  }

  /** As many buffers are pinned as sectors are logged and not yet installed. */
  lemma DirtyCount(s: State)
    requires Inv(s) && Backed(s)
    ensures |DirtyBufs(s.bufs)| == |Pinned(s.secs, s.phase)|
  {
    hide CopiesOk, RegionOk, DurableOk, HistoryOk, Count, Pinned, OpsOk;
    var p := Pinned(s.secs, s.phase);
    PinnedDistinct(s.secs, s.phase);
    var idx := PinIndexes(s.bufs, p);
    forall j, k | 0 <= j < k < |idx| ensures idx[j] != idx[k] {
      assert p[j] != p[k];
    }
    ElementsSize(idx);
    forall i: nat ensures i in DirtyBufs(s.bufs) <==> i in Elements(idx) {
      if i < |s.bufs| && s.bufs[i].dirty {
        assert BufOk(s.bufs[i], s.g, s.disk, s.ops);
        var k :| 0 <= k < |p| && p[k] == s.bufs[i].sector;
        assert idx[k] == i;
      }
    }
    assert DirtyBufs(s.bufs) == Elements(idx);
  }

  lemma AllBuffers(bufs: seq<Buf>)
    ensures |DirtyBufs(bufs)| + |HeldClean(bufs)| <= |bufs|
    ensures |DirtyBufs(bufs)| + |HeldClean(bufs)| == |bufs| <==> forall i :: 0 <= i < |bufs| ==> bufs[i].holder != Nobody || bufs[i].dirty
  {
    var a, b, all := DirtyBufs(bufs), HeldClean(bufs), Interval(0, |bufs|);
    IntervalSize(0, |bufs|);
    assert a !! b && a + b <= all;
    SubsetSize(a + b, all);
    if forall i :: 0 <= i < |bufs| ==> bufs[i].holder != Nobody || bufs[i].dirty {
      assert a + b == all;
    } else {
      var i :| 0 <= i < |bufs| && !(bufs[i].holder != Nobody || bufs[i].dirty);
      assert a + b <= all - {i};
      SubsetSize(a + b, all - {i});
    }
  }

  /** bget panics on a sector that is not cached exactly when the sectors logged and not yet installed, and the
      other buffers that somebody holds, are as many as there are buffers. */
  lemma BgetPanics(s: State, x: int)
    requires Inv(s) && Backed(s)
    ensures NoBuffer(s, x) <==> Uncached(s.bufs, x) && |Pinned(s.secs, s.phase)| + |HeldClean(s.bufs)| == NBUF
  {
    hide Inv, Pinned, HeldClean, DirtyBufs;
    DirtyCount(s);
    AllBuffers(s.bufs);
  }

  /** With no other buffer held, the commit finds one for a block of the log region exactly while not all
      buffers are pinned. */
  lemma CommitFinds(s: State, x: int)
    requires Inv(s) && Backed(s) && HeldClean(s.bufs) == {} && s.g.start <= x < s.g.start + s.g.size
    ensures NoBuffer(s, x) <==> |Pinned(s.secs, s.phase)| == NBUF
  {
    hide CopiesOk, RegionOk, DurableOk, HistoryOk, Count, Pinned, OpsOk, HeldClean, DirtyBufs;
    BgetPanics(s, x);
    DirtyCount(s);
    AllBuffers(s.bufs);
    if |Pinned(s.secs, s.phase)| == NBUF {
      forall i | 0 <= i < |s.bufs| ensures s.bufs[i].sector != x {
        assert BufOk(s.bufs[i], s.g, s.disk, s.ops);
        AllDirty(s.bufs);
      }
    }
  }

  lemma AllDirty(bufs: seq<Buf>)
    requires HeldClean(bufs) == {} && forall i :: 0 <= i < |bufs| ==> bufs[i].holder != Nobody || bufs[i].dirty
    ensures forall i :: 0 <= i < |bufs| ==> bufs[i].dirty
  {
    forall i: nat | i < |bufs| ensures bufs[i].dirty { assert i !in HeldClean(bufs); }
  }

  lemma {:induction false} RunBacked(s: State, steps: seq<Step>)
    requires Inv(s) && Backed(s) && CanRun(s, steps) && Follows(s, steps, Fitting)
    ensures Inv(After(s, steps)) && Backed(After(s, steps))
    decreases |steps|
  {
    hide Inv, Backed, Next, HeldOnDisk, Enabled;
    if steps != [] {
      StepKeepsInv(s, steps[0]);
      BackedStep(s, steps[0]);
      RunBacked(Next(s, steps[0]), steps[1..]);
    }
  }

  // ---- Nothing is logged ---------------------------------------------------------------------

  /** No operation is inside log_write. */
  predicate NoChecks(ops: seq<OpState>) {
    forall op :: 0 <= op < |ops| ==> ops[op].checking == -1
  }

  /** A region with a header only, or operations that log nothing: log_write never gets past its check. */
  lemma {:induction false} NothingLogged(s: State, steps: seq<Step>, rule: Rule)
    requires NoChecks(s.ops) && !rule.Fitting? && (s.g.size <= 1 || rule.most == 0)
    requires CanRun(s, steps) && Follows(s, steps, rule)
    ensures Follows(s, steps, Fitting)
    decreases |steps|
  {
    if steps != [] {
      var t := Next(s, steps[0]);
      assert !steps[0].LogCheck?;
      assert NoChecks(t.ops);
      NothingLogged(t, steps[1..], rule);
    }
  }
}

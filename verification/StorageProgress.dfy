/** What the storage stack can get done: a commit that is running can be carried to its end exactly when not
    all buffers are pinned, and operations one after the other are each committed before the next begins. */
module StorageProgress {
  import opened Common
  import opened LogFormat
  import opened Storage
  import opened StorageProof
  import opened StorageSpace
  import opened LogOverflow

  // ---- Runs without a crash ------------------------------------------------------------------

  predicate NoCrash(steps: seq<Step>) {
    forall k :: 0 <= k < |steps| ==> !steps[k].Crash?
  }

  /** A run from t to u in which nothing crashes and each recorded sector has its place. */
  ghost predicate Leads(t: State, steps: seq<Step>, u: State) {
    && CanRun(t, steps) && After(t, steps) == u && NoCrash(steps) && Follows(t, steps, Fitting)
    && Inv(u) && Backed(u)
  }

  lemma Stay(t: State)
    requires Inv(t) && Backed(t)
    ensures Leads(t, [], t)
  {
    hide Inv, Backed;
  }

  lemma Go(t: State, step: Step, u: State)
    requires Inv(t) && Backed(t) && Enabled(t, step) && HeldOnDisk(t) && !step.Crash? && Allowed(t, step, Fitting) && u == Next(t, step)
    ensures Leads(t, [step], u)
  {
    hide Inv, Backed, Enabled, HeldOnDisk, Allowed, Next;
    OneStep(t, step, u);
    StepKeepsInv(t, step);
    BackedStep(t, step);
  }

  lemma Join(t: State, a: seq<Step>, u: State, b: seq<Step>, v: State)
    requires Leads(t, a, u) && Leads(u, b, v)
    ensures Leads(t, a + b, v)
  {
    hide Inv, Backed, CanRun, After, Follows;
    RunConcat(t, a, b);
  }

  // ---- Releasing and fetching buffers --------------------------------------------------------

  /** Nobody holds any of the first n buffers. */
  predicate Free(bufs: seq<Buf>, n: nat) {
    forall i :: 0 <= i < n && i < |bufs| ==> bufs[i].holder == Nobody
  }

  predicate Quiet(t: State) {
    Free(t.bufs, |t.bufs|)
  }

  /** No operation is active. */
  predicate NoneActive(ops: seq<OpState>) {
    forall op :: 0 <= op < |ops| ==> !ops[op].active
  }

  lemma CommitAlone(t: State)
    requires Inv(t) && t.outstanding == 0
    ensures NoneActive(t.ops) && NoChecks(t.ops) && forall i :: 0 <= i < |t.bufs| ==> !t.bufs[i].touched
  {
    hide CopiesOk, PinsOk, RegionOk, DurableOk, HistoryOk, PhaseOk;
    ActiveCounts(t.ops);
    forall i | 0 <= i < |t.bufs| ensures !t.bufs[i].touched {
      assert BufOk(t.bufs[i], t.g, t.disk, t.ops);
    }
  }

  /** Whoever holds a buffer while no operation is active can release it. */
  lemma {:induction false} ReleaseFrom(t: State, n: nat) returns (steps: seq<Step>, u: State)
    requires Inv(t) && Backed(t) && t.outstanding == 0 && n <= |t.bufs| && Free(t.bufs, n)
    ensures Leads(t, steps, u) && Quiet(u) && u == t.(bufs := u.bufs) && |u.bufs| == |t.bufs|
    decreases |t.bufs| - n
  {
    hide Inv, Backed, Leads, HeldOnDisk;
    if n == |t.bufs| {
      Stay(t);
      return [], t;
    }
    if t.bufs[n].holder == Nobody {
      steps, u := ReleaseFrom(t, n + 1);
    } else {
      CommitAlone(t);
      InvHeld(t);
      assert NobodyChecks(t.ops, n);
      var v := Next(t, Put(n));
      Go(t, Put(n), v);
      LeadsTo(t, [Put(n)], v);
      var rest;
      rest, u := ReleaseFrom(v, n + 1);
      Join(t, [Put(n)], v, rest, u);
      steps := [Put(n)] + rest;
    }
  }

  lemma LeadsTo(t: State, steps: seq<Step>, u: State)
    requires Leads(t, steps, u)
    ensures Inv(u) && Backed(u)
  {
    hide Inv, Backed, CanRun, After, Follows;
  }

  /** Buffer i of u is the holder's valid copy of sector x, and no other buffer differs from t's. */
  ghost predicate Fetched(t: State, u: State, h: Holder, i: nat, x: int) {
    && i < |t.bufs| && t.bufs[i].holder == Nobody && Holds(u, h, i, x) && u == t.(bufs := t.bufs[i := u.bufs[i]])
    && u.bufs[i].touched == false
  }

  lemma Filled(t: State, u: State, h: Holder, i: nat, x: int) returns (steps: seq<Step>, v: State)
    requires Inv(u) && Backed(u) && i < |t.bufs| && t.bufs[i].holder == Nobody && h != Nobody
    requires i < |u.bufs| && u == t.(bufs := t.bufs[i := u.bufs[i]]) && u.bufs[i].holder == h && u.bufs[i].sector == x && !u.bufs[i].touched
    ensures Leads(u, steps, v) && Fetched(t, v, h, i, x)
  {
    hide Inv, Backed, Leads, HeldOnDisk;
    if u.bufs[i].valid {
      Stay(u);
      return [], u;
    }
    InvHeld(u);
    assert HeldOnDisk(u) ==> 0 <= u.bufs[i].sector < |u.disk| by { HeldAt(u, i); }
    v := Next(u, Fill(i));
    Go(u, Fill(i), v);
    steps := [Fill(i)];
    assert v.bufs == t.bufs[i := v.bufs[i]];
  }

  lemma HeldAt(u: State, i: nat)
    requires i < |u.bufs| && u.bufs[i].holder != Nobody
    ensures HeldOnDisk(u) ==> 0 <= u.bufs[i].sector < |u.disk|
  {
  }

  lemma FetchCached(t: State, h: Holder, i: nat) returns (steps: seq<Step>, u: State)
    requires Inv(t) && Backed(t) && i < |t.bufs| && t.bufs[i].sector != -1 && t.bufs[i].holder == Nobody && MayGet(t, h, t.bufs[i].sector)
    ensures Leads(t, steps, u) && Fetched(t, u, h, i, t.bufs[i].sector)
  {
    hide Inv, Backed, Leads, HeldOnDisk, Fetched;
    InvHeld(t);
    FreeUntouched(t, i);
    var v := Next(t, Get(h, i));
    Go(t, Get(h, i), v);
    LeadsTo(t, [Get(h, i)], v);
    var rest;
    rest, u := Filled(t, v, h, i, t.bufs[i].sector);
    Join(t, [Get(h, i)], v, rest, u);
    steps := [Get(h, i)] + rest;
  }

  lemma FreeUntouched(t: State, i: nat)
    requires Inv(t) && i < |t.bufs| && t.bufs[i].holder == Nobody
    ensures !t.bufs[i].touched
  {
    hide CopiesOk, PinsOk, RegionOk, DurableOk, HistoryOk, PhaseOk, OpsOk;
    assert BufOk(t.bufs[i], t.g, t.disk, t.ops);
  }

  lemma FetchNew(t: State, h: Holder, i: nat, x: int) returns (steps: seq<Step>, u: State)
    requires Inv(t) && Backed(t) && i < |t.bufs| && t.bufs[i].holder == Nobody && !t.bufs[i].dirty
    requires 0 <= x < |t.disk| && MayGet(t, h, x) && Uncached(t.bufs, x)
    ensures Leads(t, steps, u) && Fetched(t, u, h, i, x)
  {
    hide Inv, Backed, Leads, HeldOnDisk, Fetched, Uncached;
    InvHeld(t);
    var step := Recycle(h, i, x);
    var v := Next(t, step);
    Go(t, step, v);
    LeadsTo(t, [step], v);
    var rest;
    rest, u := Filled(t, v, h, i, x);
    Join(t, [step], v, rest, u);
    steps := [step] + rest;
  }

  /** With nobody holding a buffer and some buffer not pinned, any sector can be had. */
  lemma Fetch(t: State, h: Holder, x: int) returns (steps: seq<Step>, u: State, i: nat)
    requires Inv(t) && Backed(t) && Quiet(t) && 0 <= x < |t.disk| && MayGet(t, h, x) && |Pinned(t.secs, t.phase)| < NBUF
    ensures Leads(t, steps, u) && Fetched(t, u, h, i, x)
    ensures t.bufs[i].dirty ==> t.bufs[i].sector == x
  {
    hide Inv, Backed, Leads, Fetched, Pinned;
    if Uncached(t.bufs, x) {
      i := CleanBuffer(t);
      steps, u := FetchNew(t, h, i, x);
    } else {
      i :| 0 <= i < |t.bufs| && t.bufs[i].sector == x;
      steps, u := FetchCached(t, h, i);
    }
    assert i < |t.bufs| by { FetchedIn(t, u, h, i, x); }
  }

  lemma FetchedIn(t: State, u: State, h: Holder, i: nat, x: int)
    requires Fetched(t, u, h, i, x)
    ensures i < |t.bufs|
  {
  }

  lemma CleanBuffer(t: State) returns (i: nat)
    requires Inv(t) && Backed(t) && Quiet(t) && |Pinned(t.secs, t.phase)| < NBUF
    ensures i < |t.bufs| && !t.bufs[i].dirty
  {
    hide Inv, Pinned;
    DirtyCount(t);
    assert HeldClean(t.bufs) == {};
    AllBuffers(t.bufs);
    i :| i < |t.bufs| && !t.bufs[i].dirty;
  }

  // ---- The rounds of a commit ----------------------------------------------------------------

  /** A commit is running, nobody holds a buffer, and not all buffers are pinned. */
  ghost predicate Ready(t: State) {
    Inv(t) && Backed(t) && t.committing && Quiet(t) && |Pinned(t.secs, t.phase)| < NBUF
  }

  /** From t the commit comes to u, where it is ready again; `secs` and `phase` are u's. */
  ghost predicate Round(t: State, steps: seq<Step>, u: State, secs: seq<int>, phase: Phase) {
    && Leads(t, steps, u) && Quiet(u) && u.secs == secs && u.phase == phase
    && u.committing == t.committing && u.history == t.history && u.ops == t.ops
  }

  /** What a step of the committing thread leaves alone. */
  predicate Kept(t: State, u: State) {
    u.committing == t.committing && u.history == t.history && u.ops == t.ops && u.outstanding == t.outstanding
  }

  /** After the step everybody releases what they hold. */
  lemma ThenRelease(t: State, a: seq<Step>, u: State, step: Step) returns (steps: seq<Step>, v: State)
    requires Leads(t, a, u) && Enabled(u, step) && HeldOnDisk(u) && !step.Crash? && !step.LogRecord?
    requires Kept(t, u) && Kept(u, Next(u, step)) && t.outstanding == 0
    ensures Round(t, steps, v, Next(u, step).secs, Next(u, step).phase)
  {
    hide Inv, Backed, Leads, Enabled, HeldOnDisk, Next, Quiet, Free;
    LeadsTo(t, a, u);
    var w := Next(u, step);
    Go(u, step, w);
    Join(t, a, u, [step], w);
    LeadsTo(u, [step], w);
    var rest;
    FreeNone(w.bufs);
    rest, v := ReleaseFrom(w, 0);
    Join(t, a + [step], w, rest, v);
    steps := a + [step] + rest;
  }

  lemma FreeNone(bufs: seq<Buf>)
    ensures Free(bufs, 0)
  {
  }

  /** The facts about the log that a round needs. */
  lemma ReadyFacts(t: State)
    requires Inv(t) && t.committing
    ensures t.outstanding == 0 && !t.phase.Idle? && Fits(t.g, t.disk) && |t.secs| <= LOGSIZE && |t.secs| < t.g.size
    ensures forall k :: 0 <= k < |t.secs| ==> Home(t.g, t.disk, t.secs[k])
    ensures t.phase.Logging? || t.phase.Installing? ==> t.phase.tail <= |t.secs|
    ensures t.phase.Clearing? || t.phase.Done? ==> t.secs == []
  {
    hide OpsOk, BufsOk, CopiesOk, PinsOk, DurableOk, HistoryOk, HeaderOk, LogHolds, HeaderSectors;
  }

  /** The committing thread has a buffer of log block tail and the pinned buffer of the sector it is for. */
  lemma FetchPair(t: State, tail: nat) returns (steps: seq<Step>, u: State, i: nat, j: nat)
    requires Ready(t) && tail < |t.secs| && (t.phase == Logging(tail) || t.phase == Installing(tail))
    ensures Leads(t, steps, u) && u == t.(bufs := u.bufs) && HeldOnDisk(u)
    ensures Holds(u, Committer, i, t.g.start + 1 + tail) && Holds(u, Committer, j, t.secs[tail])
  {
    hide Inv, Backed, Leads, Pinned, HeldOnDisk, Free;
    ReadyFacts(t);
    var a, v;
    a, v, i := Fetch(t, Committer, t.g.start + 1 + tail);
    j := PinOf(t, tail);
    assert i != j && v.bufs[j] == t.bufs[j] && t.bufs[j].holder == Nobody by { QuietAt(t, j); }
    LeadsTo(t, a, v);
    var b;
    b, u := FetchCached(v, Committer, j);
    Join(t, a, v, b, u);
    LeadsTo(v, b, u);
    InvHeld(u);
    steps := a + b;
    assert u.bufs[i] == v.bufs[i];
  }

  lemma QuietAt(t: State, j: nat)
    requires Quiet(t) && j < |t.bufs|
    ensures t.bufs[j].holder == Nobody
  {
  }

  lemma PinOf(t: State, tail: nat) returns (j: nat)
    requires Inv(t) && Backed(t) && tail < |t.secs| && (t.phase == Logging(tail) || t.phase == Installing(tail))
    ensures j < |t.bufs| && t.bufs[j].sector == t.secs[tail] && t.bufs[j].dirty
  {
    hide Inv;
    assert t.phase.Installing? ==> t.secs[tail..][0] == t.secs[tail];
    assert t.secs[tail] in Pinned(t.secs, t.phase);
    j :| Pins(t.bufs, j, t.secs[tail]);
  }

  lemma LogRound(t: State) returns (steps: seq<Step>, u: State)
    requires Ready(t) && t.phase.Logging? && t.phase.tail < |t.secs|
    ensures Round(t, steps, u, t.secs, Logging(t.phase.tail + 1))
  {
    hide Inv, Backed, Leads, Pinned, HeldOnDisk, Free, Round;
    ReadyFacts(t);
    var a, v, i, j := FetchPair(t, t.phase.tail);
    steps, u := ThenRelease(t, a, v, WriteLogBlock(i, j));
  }

  lemma InstallRound(t: State) returns (steps: seq<Step>, u: State)
    requires Ready(t) && t.phase.Installing? && t.phase.tail < |t.secs|
    ensures Round(t, steps, u, t.secs, Installing(t.phase.tail + 1))
  {
    hide Inv, Backed, Leads, Pinned, HeldOnDisk, Free, Round;
    ReadyFacts(t);
    var a, v, i, j := FetchPair(t, t.phase.tail);
    steps, u := ThenRelease(t, a, v, InstallBlock(j, i));
  }

  lemma HeadRound(t: State) returns (steps: seq<Step>, u: State)
    requires Ready(t) && (t.phase == Logging(|t.secs|) || t.phase == Clearing)
    ensures Round(t, steps, u, t.secs, if t.phase.Logging? then Installing(0) else Done)
  {
    hide Inv, Backed, Leads, Pinned, HeldOnDisk, Free, Round;
    ReadyFacts(t);
    var a, v, i := Fetch(t, Committer, t.g.start);
    LeadsTo(t, a, v);
    InvHeld(v);
    steps, u := ThenRelease(t, a, v, if t.phase.Logging? then WriteHead(i) else ClearHead(i));
  }

  lemma ForgetRound(t: State) returns (steps: seq<Step>, u: State)
    requires Ready(t) && t.phase == Installing(|t.secs|)
    ensures Round(t, steps, u, [], Clearing)
  {
    hide Inv, Backed, Leads, Pinned, HeldOnDisk, Free, Round;
    ReadyFacts(t);
    Stay(t);
    InvHeld(t);
    steps, u := ThenRelease(t, [], t, ForgetTransaction);
  }

  // ---- The whole commit ----------------------------------------------------------------------

  /** The commit has ended: the log is empty, all of the history is durable, and an operation may begin. */
  ghost predicate Finished(t: State, u: State) {
    && !u.committing && u.secs == [] && u.outstanding == 0 && u.history == t.history && u.durable == |u.history|
    && u.ops == t.ops && Quiet(u) && Enabled(u, BeginOp)
  }

  function PhaseRank(phase: Phase): (n: nat) {
    match phase
    case Idle => 0
    case Done => 1
    case Clearing => 2
    case Installing(_) => 3
    case Logging(_) => 4
  }

  function Left(t: State): (n: nat) {
    if (t.phase.Logging? || t.phase.Installing?) && t.phase.tail <= |t.secs| then |t.secs| - t.phase.tail else 0
  }

  lemma NextRound(t: State) returns (steps: seq<Step>, u: State)
    requires Ready(t) && t.phase != Done
    ensures Round(t, steps, u, u.secs, u.phase) && Ready(u)
    ensures PhaseRank(u.phase) < PhaseRank(t.phase) || (PhaseRank(u.phase) == PhaseRank(t.phase) && Left(u) < Left(t))
  {
    hide Inv, Backed, Leads, Free;
    ReadyFacts(t);
    if t.phase.Logging? && t.phase.tail < |t.secs| {
      steps, u := LogRound(t);
    } else if t.phase.Installing? && t.phase.tail < |t.secs| {
      steps, u := InstallRound(t);
    } else if t.phase.Installing? {
      steps, u := ForgetRound(t);
    } else {
      steps, u := HeadRound(t);
    }
    LeadsTo(t, steps, u);
  }

  lemma {:induction false} Finish(t: State) returns (steps: seq<Step>, u: State)
    requires Ready(t)
    ensures Leads(t, steps, u) && Finished(t, u)
    decreases PhaseRank(t.phase), Left(t)
  {
    hide Inv, Backed, Leads, Pinned, Free, HeldOnDisk;
    ReadyFacts(t);
    if t.phase == Done {
      InvHeld(t);
      u := Next(t, FinishCommit);
      Go(t, FinishCommit, u);
      steps := [FinishCommit];
    } else {
      var a, v := NextRound(t);
      var b;
      b, u := Finish(v);
      Join(t, a, v, b, u);
      steps := a + b;
    }
  }

  /** While a commit is running and not all buffers are pinned, whoever holds a buffer can release it and the
      committing thread can come to its end. */
  lemma CommitFinishes(t: State) returns (steps: seq<Step>, u: State)
    requires Inv(t) && Backed(t) && t.committing && |Pinned(t.secs, t.phase)| < NBUF
    ensures Leads(t, steps, u) && Finished(t, u)
  {
    hide Inv, Backed, Leads, Pinned, Free;
    ReadyFacts(t);
    FreeNone(t.bufs);
    var a, v := ReleaseFrom(t, 0);
    LeadsTo(t, a, v);
    var b;
    b, u := Finish(v);
    Join(t, a, v, b, u);
    steps := a + b;
  }

  // ---- A commit that cannot end --------------------------------------------------------------

  ghost predicate Ends(t: State, steps: seq<Step>) {
    CanRun(t, steps) && NoCrash(steps) && !After(t, steps).committing
  }

  /** All buffers are pinned for home sectors, and the commit still has to write the log or to read it. */
  predicate Stuck(t: State) {
    && t.committing && NoneActive(t.ops)
    && (t.phase.Logging? || (t.phase.Installing? && t.phase.tail < |t.secs|)) && |t.secs| < t.g.size
    && forall i :: 0 <= i < |t.bufs| ==> t.bufs[i].dirty && t.bufs[i].valid && Home(t.g, t.disk, t.bufs[i].sector)
  }

  lemma StuckStep(t: State, step: Step)
    requires Stuck(t) && Enabled(t, step) && HeldOnDisk(t) && !step.Crash?
    ensures Stuck(Next(t, step))
  {
    assert step.Get? || step.Put?;
  }

  lemma {:induction false} StuckForever(t: State, steps: seq<Step>)
    requires Stuck(t) && CanRun(t, steps) && NoCrash(steps)
    ensures After(t, steps).committing
    decreases |steps|
  {
    hide Enabled, HeldOnDisk, Next;
    if steps != [] {
      StuckStep(t, steps[0]);
      StuckForever(Next(t, steps[0]), steps[1..]);
    }
  }

  lemma PinnedFull(t: State)
    requires Inv(t) && Backed(t) && t.committing && |Pinned(t.secs, t.phase)| >= NBUF
    ensures Stuck(t)
  {
    hide CopiesOk, PinsOk, DurableOk, HistoryOk, RegionOk, Count;
    ReadyFacts(t);
    CommitAlone(t);
    DirtyCount(t);
    EveryDirty(t.bufs);
    forall i | 0 <= i < |t.bufs| ensures t.bufs[i].dirty && t.bufs[i].valid && Home(t.g, t.disk, t.bufs[i].sector) {
      assert BufOk(t.bufs[i], t.g, t.disk, t.ops);
    }
  }

  lemma EveryDirty(bufs: seq<Buf>)
    requires |DirtyBufs(bufs)| >= |bufs|
    ensures forall i :: 0 <= i < |bufs| ==> bufs[i].dirty
  {
    forall i: nat | i < |bufs| ensures bufs[i].dirty {
      if !bufs[i].dirty {
        var all := Interval(0, |bufs|);
        IntervalSize(0, |bufs|);
        SubsetSize(DirtyBufs(bufs), all - {i});
      }
    }
  }

  /** In every run in which recorded sectors have their place, a commit that is running can still come to its
      end, without a crash, if and only if fewer sectors are logged and not installed than there are buffers. */
  lemma CommitCanEnd(s: State, run: seq<Step>)
    requires Boot(s) && CanRun(s, run) && Follows(s, run, Fitting) && After(s, run).committing
    ensures var t := After(s, run); (exists steps :: Ends(t, steps)) <==> |Pinned(t.secs, t.phase)| < NBUF
  {
    hide Inv, Backed, CanRun, Follows, After, Pinned, Stuck;
    BootInv(s);
    BootBacked(s);
    RunBacked(s, run);
    var t := After(s, run);
    if |Pinned(t.secs, t.phase)| < NBUF {
      var steps, u := CommitFinishes(t);
      assert Ends(t, steps);
    } else {
      PinnedFull(t);
      forall steps ensures !Ends(t, steps) {
        if CanRun(t, steps) && NoCrash(steps) { StuckForever(t, steps); }
      }
    }
  }

  // ---- Operations one after the other --------------------------------------------------------

  /** A block of data for a sector. */
  datatype Update = Update(sector: int, data: Block)

  function Events(op: nat, updates: seq<Update>): (h: seq<Event>) {
    seq(|updates|, k requires 0 <= k < |updates| => Write(op, updates[k].sector, updates[k].data))
  }

  /** Nothing is under way. */
  ghost predicate Rest(t: State) {
    Inv(t) && Backed(t) && Quiet(t) && !t.committing && t.outstanding == 0
  }

  /** Operation op is the one active, and nobody holds a buffer. */
  ghost predicate Alone(t: State, op: nat) {
    && Inv(t) && Backed(t) && Quiet(t) && Active(t.ops, op) && t.outstanding == 1
  }

  /** How many sectors one operation can log: the header, the region and the cache each set a bound. */
  function Most(g: Geometry): (n: int) {
    var m := if g.size - 1 < LOGSIZE then g.size - 1 else LOGSIZE;
    if m < NBUF - 1 then m else NBUF - 1
  }

  /** Updates that one operation can make. */
  predicate OpFits(g: Geometry, d: Disk, updates: seq<Update>) {
    |updates| <= Most(g) && forall k :: 0 <= k < |updates| ==> Home(g, d, updates[k].sector)
  }

  lemma QuietNoChecks(t: State)
    requires Inv(t) && Quiet(t)
    ensures NoChecks(t.ops)
  {
    hide BufsOk, CopiesOk, PinsOk, RegionOk, DurableOk, HistoryOk, PhaseOk, Count;
  }

  /** The operation holds the buffer, has changed it and has passed log_write's check. */
  lemma ChangeAndCheck(t: State, op: nat, i: nat, x: int, data: Block) returns (steps: seq<Step>, u: State)
    requires Inv(t) && Backed(t) && Active(t.ops, op) && Holds(t, Op(op), i, x) && !TooBig(t) && t.outstanding >= 1
    ensures Leads(t, steps, u)
    ensures u == t.(bufs := t.bufs[i := t.bufs[i].(touched := true, data := data)],
                    ops := t.ops[op := t.ops[op].(checking := i)], history := t.history + [Write(op, x, data)])
  {
    hide Inv, Backed, Leads, HeldOnDisk;
    InvHeld(t);
    var v := Next(t, Modify(op, i, data));
    Go(t, Modify(op, i, data), v);
    LeadsTo(t, [Modify(op, i, data)], v);
    InvHeld(v);
    u := Next(v, LogCheck(op, i));
    Go(v, LogCheck(op, i), u);
    Join(t, [Modify(op, i, data)], v, [LogCheck(op, i)], u);
    steps := [Modify(op, i, data)] + [LogCheck(op, i)];
  }

  lemma RecordAndPut(t: State, op: nat, i: nat) returns (steps: seq<Step>, u: State)
    requires Inv(t) && Backed(t) && op < |t.ops| && t.ops[op].active && t.ops[op].checking == i < |t.bufs| && t.bufs[i].holder != Nobody
    requires Room(t.g, t.secs) && forall o :: 0 <= o < |t.ops| && o != op ==> t.ops[o].checking == -1
    ensures Leads(t, steps, u) && |u.ops| == |t.ops| && Active(u.ops, op)
    ensures u.secs == Absorb(t.secs, t.bufs[i].sector) && u.bufs == t.bufs[i := t.bufs[i].(dirty := true, touched := false, holder := Nobody)]
    ensures u.history == t.history && u.outstanding == t.outstanding
  {
    hide Inv, Backed, Leads, HeldOnDisk, Absorb;
    InvHeld(t);
    var v := Next(t, LogRecord(op));
    Go(t, LogRecord(op), v);
    LeadsTo(t, [LogRecord(op)], v);
    InvHeld(v);
    assert NobodyChecks(v.ops, i);
    u := Next(v, Put(i));
    Go(v, Put(i), u);
    Join(t, [LogRecord(op)], v, [Put(i)], u);
    steps := [LogRecord(op)] + [Put(i)];
  }

  /** The operation reads a block, changes it, logs it and releases it. */
  lemma OneUpdate(t: State, op: nat, up: Update) returns (steps: seq<Step>, u: State)
    requires Alone(t, op) && Home(t.g, t.disk, up.sector) && |t.secs| < Most(t.g)
    ensures Leads(t, steps, u) && Alone(u, op) && |u.ops| == |t.ops|
    ensures u.secs == Absorb(t.secs, up.sector) && u.history == t.history + [Write(op, up.sector, up.data)]
  {
    hide Inv, Backed, Leads, HeldOnDisk, Absorb;
    ActiveMeansIdle(t, op);
    QuietNoChecks(t);
    var a, v, i := Fetch(t, Op(op), up.sector);
    LeadsTo(t, a, v);
    var b, w := ChangeAndCheck(v, op, i, up.sector, up.data);
    LeadsTo(v, b, w);
    Join(t, a, v, b, w);
    var c;
    c, u := RecordAndPut(w, op, i);
    LeadsTo(w, c, u);
    Join(t, a + b, w, c, u);
    steps := a + b + c;
  }

  lemma {:induction false} ManyUpdates(t: State, op: nat, updates: seq<Update>) returns (steps: seq<Step>, u: State)
    requires Alone(t, op) && (forall k :: 0 <= k < |updates| ==> Home(t.g, t.disk, updates[k].sector))
    requires |t.secs| + |updates| <= Most(t.g)
    ensures Leads(t, steps, u) && Alone(u, op) && |u.ops| == |t.ops|
    ensures |u.secs| <= Most(t.g) && u.history == t.history + Events(op, updates)
    decreases |updates|
  {
    hide Inv, Backed, Leads, HeldOnDisk, Alone;
    if updates == [] {
      assert Inv(t) && Backed(t) by { AloneInv(t, op); }
      Stay(t);
      return [], t;
    }
    var a, v := OneUpdate(t, op, updates[0]);
    LeadsSame(t, a, v);
    var b;
    b, u := ManyUpdates(v, op, updates[1..]);
    Join(t, a, v, b, u);
    steps := a + b;
    assert Events(op, updates) == [Write(op, updates[0].sector, updates[0].data)] + Events(op, updates[1..]);
  }

  lemma AloneInv(t: State, op: nat)
    requires Alone(t, op)
    ensures Inv(t) && Backed(t)
  {
  }

  lemma LeadsSame(t: State, steps: seq<Step>, u: State)
    requires Leads(t, steps, u)
    ensures u.g == t.g && u.init == t.init && |u.disk| == |t.disk|
  {
    hide Inv, Backed, CanRun, Follows, Next;
  }

  lemma Begins(t: State) returns (steps: seq<Step>, u: State)
    requires Rest(t)
    ensures Leads(t, steps, u) && Alone(u, |t.ops|) && u.secs == [] && |u.ops| == |t.ops| + 1 && u.history == t.history + [Begin(|t.ops|)]
  {
    hide Backed, Leads, HeldOnDisk, OpsOk, BufsOk, CopiesOk, PinsOk, RegionOk, DurableOk, HistoryOk;
    InvHeld(t);
    u := Next(t, BeginOp);
    Go(t, BeginOp, u);
    LeadsTo(t, [BeginOp], u);
    steps := [BeginOp];
  }

  lemma EndsAndCommits(t: State, op: nat) returns (steps: seq<Step>, u: State)
    requires Alone(t, op) && |t.secs| <= Most(t.g)
    ensures Leads(t, steps, u) && Rest(u) && |u.ops| == |t.ops| && u.history == t.history + [End(op)] && u.durable == |u.history|
  {
    hide Inv, Backed, Leads, HeldOnDisk;
    ActiveMeansIdle(t, op);
    InvHeld(t);
    var v := Next(t, EndOp(op));
    Go(t, EndOp(op), v);
    LeadsTo(t, [EndOp(op)], v);
    var b;
    b, u := CommitFinishes(v);
    LeadsTo(v, b, u);
    Join(t, [EndOp(op)], v, b, u);
    steps := [EndOp(op)] + b;
  }

  /** With nothing under way, an operation with any updates that fit runs, alone, to the end of its commit: it
      begins, makes its updates in order, ends, and then all of it is durable and the next can begin. */
  lemma OperationRuns(t: State, updates: seq<Update>) returns (steps: seq<Step>, u: State)
    requires Rest(t) && OpFits(t.g, t.disk, updates)
    ensures Leads(t, steps, u) && Rest(u) && |u.ops| == |t.ops| + 1 && u.durable == |u.history|
    ensures u.history == t.history + [Begin(|t.ops|)] + Events(|t.ops|, updates) + [End(|t.ops|)]
  {
    hide Inv, Backed, Leads, Alone, Rest, Events;
    var op := |t.ops|;
    var a, v := Begins(t);
    LeadsSame(t, a, v);
    var b, w := ManyUpdates(v, op, updates);
    LeadsSame(v, b, w);
    Join(t, a, v, b, w);
    var c;
    c, u := EndsAndCommits(w, op);
    Join(t, a + b, w, c, u);
    steps := a + b + c;
  }

  /** The events of whole operations, the first numbered n. */
  function Serial(n: nat, work: seq<seq<Update>>): (h: seq<Event>)
    decreases |work|
  {
    if work == [] then [] else [Begin(n)] + Events(n, work[0]) + [End(n)] + Serial(n + 1, work[1..])
  }

  predicate WorkFits(g: Geometry, d: Disk, work: seq<seq<Update>>) {
    forall k :: 0 <= k < |work| ==> OpFits(g, d, work[k])
  }

  lemma WorkNext(g: Geometry, d: Disk, e: Disk, work: seq<seq<Update>>)
    requires WorkFits(g, d, work) && work != [] && |e| == |d|
    ensures OpFits(g, d, work[0]) && WorkFits(g, e, work[1..])
  {
    hide Most;
    var rest := work[1..];
    forall k | 0 <= k < |rest| ensures OpFits(g, e, rest[k]) {
      assert OpFits(g, d, work[k + 1]);
    }
  }

  lemma SerialNext(h: seq<Event>, n: nat, work: seq<seq<Update>>)
    requires work != []
    ensures h + [Begin(n)] + Events(n, work[0]) + [End(n)] + Serial(n + 1, work[1..]) == h + Serial(n, work)
  {
    hide Events;
  }

  lemma {:induction false} OperationsRun(t: State, work: seq<seq<Update>>) returns (steps: seq<Step>, u: State)
    requires Rest(t) && WorkFits(t.g, t.disk, work)
    ensures Leads(t, steps, u) && Rest(u) && u.history == t.history + Serial(|t.ops|, work)
    decreases |work|
  {
    hide Inv, Backed, Leads, Rest, Events, WorkFits, OpFits, Serial;
    if work == [] {
      RestInv(t);
      Stay(t);
      SerialNone(t.history, |t.ops|);
      return [], t;
    }
    WorkNext(t.g, t.disk, t.disk, work);
    var a, v := OperationRuns(t, work[0]);
    LeadsSame(t, a, v);
    WorkNext(t.g, t.disk, v.disk, work);
    var b;
    b, u := OperationsRun(v, work[1..]);
    Join(t, a, v, b, u);
    SerialNext(t.history, |t.ops|, work);
    steps := a + b;
  }

  lemma SerialNone(h: seq<Event>, n: nat)
    ensures h + Serial(n, []) == h
  {
  }

  lemma RestInv(t: State)
    requires Rest(t)
    ensures Inv(t) && Backed(t)
  {
  }

  /** From boot, any list of operations that each fit runs to the end, one after the other, and leaves on disk
      what their updates in order make of it. */
  lemma SerialRun(s: State, work: seq<seq<Update>>) returns (steps: seq<Step>)
    requires Boot(s) && WorkFits(s.g, s.disk, work)
    ensures CanRun(s, steps) && NoCrash(steps)
    ensures var t := After(s, steps);
      && t.history == Serial(0, work) && t.durable == |t.history| && t.secs == [] && !t.committing
      && SameHome(s.g, t.disk, Replay(s.disk, Serial(0, work)))
  {
    hide Inv, Backed, Serial, CanRun, After, Follows;
    BootInv(s);
    BootBacked(s);
    var u;
    steps, u := OperationsRun(s, work);
    assert s.history + Serial(0, work) == Serial(0, work);
    AtRest(u);
  }

  lemma AtRest(t: State)
    requires Rest(t)
    ensures t.secs == [] && t.durable == |t.history| && SameHome(t.g, t.disk, Replay(t.init, t.history))
  {
    hide OpsOk, BufsOk, RegionOk, HistoryOk, DurableOk;
    CommitAlone(t);
    assert forall i :: 0 <= i < |t.bufs| ==> !t.bufs[i].dirty;
    assert forall i: nat, x :: !Newer(t.bufs, i, x);
  }
}

/** The storage stack under concurrency (bio.c, log.c): file system operations, readers and the
    committing thread share the buffer cache, the in-memory log header and the disk. Every
    section that runs under bcache.lock or log.lock, and every sector transfer, is one step, so
    that steps of different threads interleave freely; a crash may fall between any two steps, and
    crashes may interrupt the recovery after it.

    An operation may call log_write as often as it likes: what it keeps to is a rule about a run.
    `history` and `durable` exist for the statements only: the operations' begins, block updates
    and ends in the order they happened, and how many of those events are in the last committed
    transaction. */
module Storage {
  import opened Common
  import opened LogFormat

  /** Who has the buffer B_BUSY. */
  datatype Holder = Nobody | Op(id: nat) | Reader(id: nat) | Committer

  /** A buffer; sector -1 stands for dev == -1. `touched` means that its holder has changed the
      data and not yet called log_write. */
  datatype Buf = Buf(sector: int, holder: Holder, valid: bool, dirty: bool, touched: bool, data: Block)

  /** An operation between begin_op and end_op: how often it called log_write, for which sectors, and
      the buffer for which it is between log_write's unlocked check and its locked part (-1: none). */
  datatype OpState = OpState(active: bool, calls: nat, blocks: set<int>, checking: int)

  /** Where the committing thread is: in write_log, in install_trans, before the last
      write_head, or about to clear `committing`. */
  datatype Phase = Idle | Logging(tail: nat) | Installing(tail: nat) | Clearing | Done

  datatype Event = Begin(op: nat) | Write(op: nat, sector: int, data: Block) | End(op: nat)

  datatype State = State(
    g: Geometry,
    disk: Disk,
    bufs: seq<Buf>,
    secs: seq<int>,
    ops: seq<OpState>,
    outstanding: int,
    committing: bool,
    phase: Phase,
    init: Disk,
    history: seq<Event>,
    durable: nat)

  datatype Step =
    | BeginOp
    | Get(h: Holder, i: nat)
    | Recycle(h: Holder, i: nat, sector: int)
    | Fill(i: nat)
    | Modify(op: nat, i: nat, data: Block)
    | LogCheck(op: nat, i: nat)
    | LogRecord(op: nat)
    | Put(i: nat)
    | EndOp(op: nat)
    | WriteLogBlock(to: nat, from: nat)
    | WriteHead(i: nat)
    | InstallBlock(to: nat, from: nat)
    | ForgetTransaction
    | ClearHead(i: nat)
    | FinishCommit
    | Crash(boots: seq<Disk>)

  // ---- The steps -----------------------------------------------------------------------------

  predicate Active(ops: seq<OpState>, op: nat) {
    op < |ops| && ops[op].active && ops[op].checking == -1
  }

  /** bread's caller: operations and readers stay outside the log region. */
  predicate MayGet(s: State, h: Holder, sector: int) {
    match h
    case Nobody => false
    case Op(id) => Active(s.ops, id) && Home(s.g, s.disk, sector)
    case Reader(_) => Home(s.g, s.disk, sector)
    case Committer => s.phase.Logging? || s.phase.Installing? || s.phase.Clearing?
  }

  /** log_write's checks, made before it takes the lock. */
  predicate TooBig(s: State) {
    |s.secs| >= LOGSIZE || |s.secs| >= s.g.size - 1
  }

  predicate Holds(s: State, h: Holder, i: nat, sector: int) {
    i < |s.bufs| && s.bufs[i].holder == h && s.bufs[i].valid && s.bufs[i].sector == sector
  }

  predicate Uncached(bufs: seq<Buf>, sector: int) {
    forall j :: 0 <= j < |bufs| ==> bufs[j].sector != sector
  }

  predicate NobodyChecks(ops: seq<OpState>, i: int) {
    forall op :: 0 <= op < |ops| ==> ops[op].checking != i
  }

  predicate NothingTouched(bufs: seq<Buf>, op: nat) {
    forall i :: 0 <= i < |bufs| && bufs[i].holder == Op(op) ==> !bufs[i].touched
  }

  ghost predicate Enabled(s: State, step: Step) {
    match step
    case BeginOp =>
      !s.committing && |s.secs| + (s.outstanding + 1) * MAXOPBLOCKS <= LOGSIZE
    case Get(h, i) =>
      i < |s.bufs| && s.bufs[i].sector != -1 && MayGet(s, h, s.bufs[i].sector) && s.bufs[i].holder == Nobody
    case Recycle(h, i, sector) =>
      && i < |s.bufs| && 0 <= sector < |s.disk| && MayGet(s, h, sector)
      && Uncached(s.bufs, sector)
      && s.bufs[i].holder == Nobody && !s.bufs[i].dirty
    case Fill(i) =>
      i < |s.bufs| && s.bufs[i].holder != Nobody && !s.bufs[i].valid
    case Modify(op, i, data) =>
      i < |s.bufs| && Active(s.ops, op) && s.bufs[i].holder == Op(op) && s.bufs[i].valid
    case LogCheck(op, i) =>
      && i < |s.bufs| && Active(s.ops, op) && s.bufs[i].holder == Op(op) && s.bufs[i].valid
      && !TooBig(s) && s.outstanding >= 1
    case LogRecord(op) =>
      op < |s.ops| && s.ops[op].active && 0 <= s.ops[op].checking < |s.bufs|
    case Put(i) =>
      && i < |s.bufs| && s.bufs[i].holder != Nobody && !s.bufs[i].touched
      && NobodyChecks(s.ops, i)
    case EndOp(op) =>
      && Active(s.ops, op)
      && NothingTouched(s.bufs, op)
    case WriteLogBlock(to, from) =>
      && s.phase.Logging? && s.phase.tail < |s.secs| && Fits(s.g, s.disk) && s.phase.tail + 1 < s.g.size
      && Holds(s, Committer, to, s.g.start + 1 + s.phase.tail)
      && Holds(s, Committer, from, s.secs[s.phase.tail])
    case WriteHead(i) =>
      && s.phase == Logging(|s.secs|) && Fits(s.g, s.disk) && |s.secs| <= LOGSIZE
      && Holds(s, Committer, i, s.g.start)
    case InstallBlock(to, from) =>
      && s.phase.Installing? && s.phase.tail < |s.secs| && 0 <= s.secs[s.phase.tail] < |s.disk|
      && Holds(s, Committer, from, s.g.start + 1 + s.phase.tail)
      && Holds(s, Committer, to, s.secs[s.phase.tail])
    case ForgetTransaction =>
      s.phase == Installing(|s.secs|)
    case ClearHead(i) =>
      s.phase == Clearing && Fits(s.g, s.disk) && Holds(s, Committer, i, s.g.start)
    case FinishCommit =>
      s.phase == Done
    case Crash(boots) =>
      CrashChain(s.g, boots) && boots[0] == s.disk && s.durable <= |s.history|
  }

  /** Held buffers are of sectors on the disk (iderw panics on any other). */
  predicate HeldOnDisk(s: State) {
    forall i :: 0 <= i < |s.bufs| && s.bufs[i].holder != Nobody ==> 0 <= s.bufs[i].sector < |s.disk|
  }

  predicate Blank(b: Buf) {
    b.sector == -1 && b.holder == Nobody && !b.valid && !b.dirty && !b.touched
  }

  function BlankBufs(bufs: seq<Buf>): (b: seq<Buf>)
    ensures |b| == |bufs| && forall i :: 0 <= i < |b| ==> Blank(b[i])
  {
    seq(|bufs|, i requires 0 <= i < |bufs| => Buf(-1, Nobody, false, false, false, bufs[i].data))
  }

  function EndedOps(n: nat): (o: seq<OpState>)
    ensures |o| == n && forall i :: 0 <= i < n ==> o[i] == OpState(false, 0, {}, -1)
  {
    seq(n, _ => OpState(false, 0, {}, -1))
  }

  ghost function Next(s: State, step: Step): (t: State)
    requires Enabled(s, step) && HeldOnDisk(s)
    ensures t.g == s.g && t.init == s.init && |t.disk| == |s.disk|
  {
    match step
    case BeginOp =>
      s.(ops := s.ops + [OpState(true, 0, {}, -1)], outstanding := s.outstanding + 1,
         history := s.history + [Begin(|s.ops|)])
    case Get(h, i) =>
      s.(bufs := s.bufs[i := s.bufs[i].(holder := h)])
    case Recycle(h, i, sector) =>
      s.(bufs := s.bufs[i := Buf(sector, h, false, false, false, s.bufs[i].data)])
    case Fill(i) =>
      s.(bufs := s.bufs[i := s.bufs[i].(valid := true, data := s.disk[s.bufs[i].sector])])
    case Modify(op, i, data) =>
      s.(bufs := s.bufs[i := s.bufs[i].(touched := true, data := data)],
         history := s.history + [Write(op, s.bufs[i].sector, data)])
    case LogCheck(op, i) =>
      s.(ops := s.ops[op := s.ops[op].(checking := i)])
    case LogRecord(op) =>
      var i := s.ops[op].checking;
      s.(bufs := s.bufs[i := s.bufs[i].(dirty := true, touched := false)],
         secs := Absorb(s.secs, s.bufs[i].sector),
         ops := s.ops[op := OpState(true, s.ops[op].calls + 1, s.ops[op].blocks + {s.bufs[i].sector}, -1)])
    case Put(i) =>
      s.(bufs := s.bufs[i := s.bufs[i].(holder := Nobody)])
    case EndOp(op) =>
      var last := s.outstanding == 1;
      s.(ops := s.ops[op := s.ops[op].(active := false)], outstanding := s.outstanding - 1,
         committing := s.committing || last,
         phase := if last then (if s.secs == [] then Done else Logging(0)) else s.phase,
         history := s.history + [End(op)])
    case WriteLogBlock(to, from) =>
      s.(bufs := s.bufs[to := s.bufs[to].(data := s.bufs[from].data)],
         disk := s.disk[s.g.start + 1 + s.phase.tail := s.bufs[from].data],
         phase := Logging(s.phase.tail + 1))
    case WriteHead(i) =>
      var hb := HeaderBlock(s.bufs[i].data, s.secs);
      s.(bufs := s.bufs[i := s.bufs[i].(data := hb)], disk := s.disk[s.g.start := hb],
         phase := Installing(0), durable := |s.history|)
    case InstallBlock(to, from) =>
      s.(bufs := s.bufs[to := s.bufs[to].(data := s.bufs[from].data, dirty := false)],
         disk := s.disk[s.secs[s.phase.tail] := s.bufs[from].data],
         phase := Installing(s.phase.tail + 1))
    case ForgetTransaction =>
      s.(secs := [], phase := Clearing)
    case ClearHead(i) =>
      var hb := HeaderBlock(s.bufs[i].data, []);
      s.(bufs := s.bufs[i := s.bufs[i].(data := hb)], disk := s.disk[s.g.start := hb], phase := Done)
    case FinishCommit =>
      s.(committing := false, phase := Idle, durable := |s.history|)
    case Crash(boots) =>
      CrashesDuringRecovery(s.g, boots);
      s.(disk := Recovered(s.g, boots[|boots| - 1]), bufs := BlankBufs(s.bufs), secs := [],
         ops := EndedOps(|s.ops|), outstanding := 0, committing := false,
         phase := Idle, history := s.history[..s.durable])
  }

  /** After recovery at boot: an empty cache over a disk with a cleared log header. */
  predicate Boot(s: State) {
    && Fits(s.g, s.disk) && s.disk[s.g.start][0] == 0
    && |s.bufs| == NBUF && (forall i :: 0 <= i < NBUF ==> Blank(s.bufs[i]))
    && s.secs == [] && s.ops == [] && s.outstanding == 0 && !s.committing && s.phase == Idle
    && s.init == s.disk && s.history == [] && s.durable == 0
  }

  // ---- What the history stands for -----------------------------------------------------------

  function ReplayStep(d: Disk, e: Event): (r: Disk)
    ensures |r| == |d|
  {
    if e.Write? && 0 <= e.sector < |d| then d[e.sector := e.data] else d
  }

  /** The home blocks that result from the updates in h, in order. */
  function Replay(init: Disk, h: seq<Event>): (d: Disk)
    ensures |d| == |init|
  {
    if h == [] then init else ReplayStep(Replay(init, h[..|h| - 1]), h[|h| - 1])
  }

  lemma ReplayAppend(init: Disk, h: seq<Event>, e: Event)
    ensures Replay(init, h + [e]) == ReplayStep(Replay(init, h), e)
  {
    assert (h + [e])[..|h|] == h;
  }

  function OpenStep(open: set<nat>, e: Event): (r: set<nat>) {
    if e.Begin? then open + {e.op} else if e.End? then open - {e.op} else open
  }

  /** The operations begun and not ended in h. */
  function OpenAfter(h: seq<Event>): (open: set<nat>) {
    if h == [] then {} else OpenStep(OpenAfter(h[..|h| - 1]), h[|h| - 1])
  }

  lemma OpenAppend(h: seq<Event>, e: Event)
    ensures OpenAfter(h + [e]) == OpenStep(OpenAfter(h), e)
  {
    assert (h + [e])[..|h|] == h;
  }

  /** Each event of an operation lies between its one begin and its end. */
  ghost predicate Orderly(h: seq<Event>) {
    && (forall j, k :: 0 <= j < k < |h| && h[k].Begin? ==> h[j].op != h[k].op)
    && (forall k :: 0 <= k < |h| && !h[k].Begin? ==> h[k].op in OpenAfter(h[..k]))
  }

  // ---- The invariant -------------------------------------------------------------------------

  function Count(ops: seq<OpState>): (n: nat)
  {
    if ops == [] then 0 else Count(ops[..|ops| - 1]) + if ops[|ops| - 1].active then 1 else 0
  }

  predicate OpsOk(ops: seq<OpState>, bufs: seq<Buf>, outstanding: int) {
    && outstanding == Count(ops)
    && forall op :: 0 <= op < |ops| && ops[op].checking != -1 ==>
         && ops[op].active
         && 0 <= ops[op].checking < |bufs|
         && bufs[ops[op].checking].holder == Op(op) && bufs[ops[op].checking].valid
  }

  predicate BufOk(b: Buf, g: Geometry, disk: Disk, ops: seq<OpState>) {
    && (b.sector == -1 ==> b.holder == Nobody && !b.valid)
    && (b.sector != -1 ==> 0 <= b.sector < |disk|)
    && (!b.valid ==> !b.dirty && !b.touched)
    && (b.dirty || b.touched || b.holder.Op? || b.holder.Reader? ==> Home(g, disk, b.sector))
    && (b.touched ==> b.holder.Op? && b.holder.id < |ops| && ops[b.holder.id].active)
  }

  predicate BufsOk(bufs: seq<Buf>, g: Geometry, disk: Disk, ops: seq<OpState>) {
    && (forall i :: 0 <= i < |bufs| ==> BufOk(bufs[i], g, disk, ops))
    && (forall i, j :: 0 <= i < j < |bufs| && bufs[i].sector != -1 ==> bufs[i].sector != bufs[j].sector)
  }

  /** Buffer i has a copy of x that is newer than the disk. */
  predicate Newer(bufs: seq<Buf>, i: nat, x: int) {
    i < |bufs| && bufs[i].sector == x && (bufs[i].dirty || bufs[i].touched)
  }

  predicate CopyOk(b: Buf, g: Geometry, disk: Disk, latest: Disk) {
    && (b.valid && Home(g, disk, b.sector) ==> b.sector < |latest| && b.data == latest[b.sector])
    && (b.valid && !b.dirty && !b.touched && 0 <= b.sector < |disk| ==> b.data == disk[b.sector])
  }

  /** The cache and the disk together hold the latest version of every home block. */
  ghost predicate CopiesOk(bufs: seq<Buf>, g: Geometry, disk: Disk, latest: Disk) {
    && |latest| == |disk|
    && (forall i :: 0 <= i < |bufs| ==> CopyOk(bufs[i], g, disk, latest))
    && (forall x :: Home(g, disk, x) && latest[x] != disk[x] ==> exists i :: Newer(bufs, i, x))
  }

  /** The sectors whose buffers are still pinned in the cache. */
  function Pinned(secs: seq<int>, phase: Phase): (p: seq<int>)
  {
    if phase.Installing? && phase.tail <= |secs| then secs[phase.tail..] else secs
  }

  predicate PinsOk(bufs: seq<Buf>, secs: seq<int>, phase: Phase) {
    forall i :: 0 <= i < |bufs| && bufs[i].dirty ==> bufs[i].sector in Pinned(secs, phase)
  }

  predicate PhaseOk(phase: Phase, secs: seq<int>, committing: bool, outstanding: int) {
    && (phase != Idle <==> committing)
    && (committing ==> outstanding == 0)
    && (phase.Logging? || phase.Installing? ==> phase.tail <= |secs|)
    && (phase.Clearing? || phase.Done? ==> secs == [])
  }

  /** What the log region holds while the transaction moves through it. */
  ghost predicate RegionOk(g: Geometry, disk: Disk, latest: Disk, secs: seq<int>, phase: Phase,
                           history: seq<Event>, durable: nat)
  {
    && Loggable(g, disk, secs) && |latest| == |disk| && HeaderOk(g, disk)
    && (phase.Idle? || phase.Logging? || phase.Done? ==> disk[g.start][0] == 0)
    && (phase.Logging? ==> phase.tail <= |secs| && LogHolds(g, disk, latest, secs, phase.tail))
    && (phase.Installing? ==> HeaderSectors(g, disk) == secs && LogHolds(g, disk, latest, secs, |secs|))
    && (phase.Installing? || phase.Clearing? ==> durable == |history|)
  }

  /** A crash now loses exactly the events after the durable ones. */
  ghost predicate DurableOk(g: Geometry, disk: Disk, init: Disk, history: seq<Event>, durable: nat)
  {
    && durable <= |history| && HeaderOk(g, disk)
    && SameHome(g, Recovered(g, disk), Replay(init, history[..durable]))
    && OpenAfter(history[..durable]) == {}
  }

  function ActiveOps(ops: seq<OpState>): (a: set<nat>)
    ensures forall op :: op in a <==> 0 <= op < |ops| && ops[op].active
  {
    set op | 0 <= op < |ops| && ops[op].active
  }

  ghost predicate HistoryOk(history: seq<Event>, ops: seq<OpState>) {
    && Orderly(history)
    && (forall k :: 0 <= k < |history| ==> history[k].op < |ops|)
    && OpenAfter(history) == ActiveOps(ops)
  }

  /** The newest version of every home block: all updates so far. */
  function Latest(s: State): (d: Disk) {
    Replay(s.init, s.history)
  }

  ghost predicate Inv(s: State) {
    && OpsOk(s.ops, s.bufs, s.outstanding)
    && BufsOk(s.bufs, s.g, s.disk, s.ops)
    && CopiesOk(s.bufs, s.g, s.disk, Latest(s))
    && PinsOk(s.bufs, s.secs, s.phase)
    && Distinct(s.secs)
    && PhaseOk(s.phase, s.secs, s.committing, s.outstanding)
    && RegionOk(s.g, s.disk, Latest(s), s.secs, s.phase, s.history, s.durable)
    && DurableOk(s.g, s.disk, s.init, s.history, s.durable)
    && HistoryOk(s.history, s.ops)
    && (!s.committing && s.outstanding == 0 ==> s.durable == |s.history| && s.secs == [])
  }

  // ---- Runs ----------------------------------------------------------------------------------

  ghost predicate CanRun(s: State, steps: seq<Step>)
    decreases |steps|
  {
    steps == [] || (Enabled(s, steps[0]) && HeldOnDisk(s) && CanRun(Next(s, steps[0]), steps[1..]))
  }

  /** The state after a run. */
  ghost function After(s: State, steps: seq<Step>): (t: State)
    requires CanRun(s, steps)
    ensures t.g == s.g && t.init == s.init && |t.disk| == |s.disk|
    decreases |steps|
  {
    if steps == [] then s else After(Next(s, steps[0]), steps[1..])
  }

  // ---- What operations keep to ---------------------------------------------------------------

  /** Rules that a run may follow. `Fitting`: a sector that log_write adds under the lock still has its
      place in the header and in the log region. `Calls(b)`: an operation makes at most b log_write calls.
      `Blocks(b)`: it logs at most b different blocks, each as often as it likes. */
  datatype Rule = Fitting | Calls(most: nat) | Blocks(most: nat)

  /** There is room for one more sector. */
  predicate Room(g: Geometry, secs: seq<int>) {
    |secs| < LOGSIZE && |secs| + 1 < g.size
  }

  ghost predicate Allowed(s: State, step: Step, rule: Rule)
    requires Enabled(s, step)
  {
    match rule
    case Fitting => step.LogRecord? ==> s.bufs[s.ops[step.op].checking].sector in s.secs || Room(s.g, s.secs)
    case Calls(b) => step.LogCheck? ==> s.ops[step.op].calls < b
    case Blocks(b) => step.LogCheck? ==> |s.ops[step.op].blocks + {s.bufs[step.i].sector}| <= b
  }

  /** Every step of the run follows the rule. */
  ghost predicate Follows(s: State, steps: seq<Step>, rule: Rule)
    requires CanRun(s, steps)
    decreases |steps|
  {
    steps == [] || (Allowed(s, steps[0], rule) && Follows(Next(s, steps[0]), steps[1..], rule))
  }
}

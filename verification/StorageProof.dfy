/** The invariant of the storage stack over every interleaving, and what follows from it: reads
    see the latest blocks, and a crash at any moment keeps exactly the committed operations, each of
    them whole. */
module StorageProof {
  import opened LogFormat
  import opened Storage

  // ---- Counting operations -------------------------------------------------------------------

  lemma {:induction false} UpdateOp(ops: seq<OpState>, i: nat, o: OpState)
    requires i < |ops|
    ensures Count(ops[i := o]) == Count(ops) - (if ops[i].active then 1 else 0) + (if o.active then 1 else 0)
  {
    var n := |ops| - 1;
    if i == n {
      assert ops[i := o][..n] == ops[..n];
    } else {
      assert ops[i := o][..n] == ops[..n][i := o];
      UpdateOp(ops[..n], i, o);
    }
  }

  lemma AppendOp(ops: seq<OpState>, o: OpState)
    ensures Count(ops + [o]) == Count(ops) + if o.active then 1 else 0
  {
    assert (ops + [o])[..|ops|] == ops;
  }

  lemma {:induction false} ActiveCounts(ops: seq<OpState>)
    ensures forall i :: 0 <= i < |ops| && ops[i].active ==> 1 <= Count(ops)
  {
    if ops != [] {
      var n := |ops| - 1;
      ActiveCounts(ops[..n]);
      forall i | 0 <= i < |ops| && ops[i].active ensures 1 <= Count(ops) {
        if i < n { assert ops[..n][i] == ops[i]; }
      }
    }
  }

  lemma {:induction false} EndedOpsCount(n: nat)
    ensures Count(EndedOps(n)) == 0
  {
    if n > 0 {
      assert EndedOps(n)[..n - 1] == EndedOps(n - 1);
      EndedOpsCount(n - 1);
    }
  }

  // ---- Cache steps ---------------------------------------------------------------------------

  lemma GetKeeps(s: State, h: Holder, i: nat)
    requires Inv(s) && Enabled(s, Get(h, i))
    ensures Inv(Next(s, Get(h, i)))
  {
    hide LogHolds, HeaderOk, HeaderSectors, Loggable, Recovered, SameHome, Replay, OpenAfter, Orderly, Count;
    var t := Next(s, Get(h, i));
    forall x | Home(s.g, s.disk, x) && Latest(s)[x] != s.disk[x] ensures exists k :: Newer(t.bufs, k, x) {
      var k :| Newer(s.bufs, k, x);
      assert Newer(t.bufs, k, x);
    }
  }

  lemma PutKeeps(s: State, i: nat)
    requires Inv(s) && Enabled(s, Put(i))
    ensures Inv(Next(s, Put(i)))
  {
    hide LogHolds, HeaderOk, HeaderSectors, Loggable, Recovered, SameHome, Replay, OpenAfter, Orderly, Count;
    var t := Next(s, Put(i));
    forall x | Home(s.g, s.disk, x) && Latest(s)[x] != s.disk[x] ensures exists k :: Newer(t.bufs, k, x) {
      var k :| Newer(s.bufs, k, x);
      assert Newer(t.bufs, k, x);
    }
  }

  lemma RecycleKeeps(s: State, h: Holder, i: nat, sector: int)
    requires Inv(s) && Enabled(s, Recycle(h, i, sector))
    ensures Inv(Next(s, Recycle(h, i, sector)))
  {
    hide LogHolds, HeaderOk, HeaderSectors, Loggable, Recovered, SameHome, Replay, OpenAfter, Orderly, Count;
    var t := Next(s, Recycle(h, i, sector));
    forall x | Home(s.g, s.disk, x) && Latest(s)[x] != s.disk[x] ensures exists k :: Newer(t.bufs, k, x) {
      var k :| Newer(s.bufs, k, x);
      assert BufOk(s.bufs[i], s.g, s.disk, s.ops);
      assert Newer(t.bufs, k, x);
    }
  }

  lemma FillCopies(bufs: seq<Buf>, i: nat, g: Geometry, disk: Disk, ops: seq<OpState>, latest: Disk)
    requires i < |bufs| && bufs[i].holder != Nobody && !bufs[i].valid
    requires BufsOk(bufs, g, disk, ops) && CopiesOk(bufs, g, disk, latest)
    ensures 0 <= bufs[i].sector < |disk|
    ensures CopiesOk(bufs[i := bufs[i].(valid := true, data := disk[bufs[i].sector])], g, disk, latest)
  {
    assert BufOk(bufs[i], g, disk, ops);
    var x0 := bufs[i].sector;
    var r := bufs[i := bufs[i].(valid := true, data := disk[x0])];
    forall x | Home(g, disk, x) && latest[x] != disk[x] ensures x != x0 && exists k :: Newer(r, k, x) {
      var k :| Newer(bufs, k, x);
      assert k != i && Newer(r, k, x);
    }
  }

  lemma FillKeeps(s: State, i: nat)
    requires Inv(s) && Enabled(s, Fill(i))
    ensures Inv(Next(s, Fill(i)))
  {
    hide LogHolds, HeaderOk, HeaderSectors, Loggable, Recovered, SameHome, Replay, OpenAfter, Orderly, Count;
    FillCopies(s.bufs, i, s.g, s.disk, s.ops, Latest(s));
  }

  // ---- Operation steps -----------------------------------------------------------------------

  lemma BeginKeeps(s: State)
    requires Inv(s) && Enabled(s, BeginOp)
    ensures Inv(Next(s, BeginOp))
  {
    hide LogHolds, HeaderOk, HeaderSectors, Loggable, Recovered, SameHome, Replay, OpenAfter, Orderly, CopyOk, Newer, Pinned, Count;
    var t := Next(s, BeginOp);
    var e := Begin(|s.ops|);
    AppendOp(s.ops, OpState(true, 0, {}, -1));
    ActiveCounts(s.ops);
    ReplayAppend(s.init, s.history, e);
    OpenAppend(s.history, e);
    AppendKeepsOrder(s.history, e);
    assert t.history[..s.durable] == s.history[..s.durable];
  }

  lemma AppendKeepsOrder(h: seq<Event>, e: Event)
    requires Orderly(h)
    requires if e.Begin? then forall k :: 0 <= k < |h| ==> h[k].op != e.op else e.op in OpenAfter(h)
    ensures Orderly(h + [e])
  {
    var r := h + [e];
    forall k | 0 <= k < |r| && !r[k].Begin? ensures r[k].op in OpenAfter(r[..k]) {
      if k < |h| { assert r[..k] == h[..k]; } else { assert r[..k] == h; }
    }
  }

  lemma ModifyCopies(bufs: seq<Buf>, i: nat, data: Block, g: Geometry, disk: Disk, ops: seq<OpState>, latest: Disk)
    requires i < |bufs| && bufs[i].holder.Op? && bufs[i].valid
    requires BufsOk(bufs, g, disk, ops) && CopiesOk(bufs, g, disk, latest)
    ensures Home(g, disk, bufs[i].sector)
    ensures CopiesOk(bufs[i := bufs[i].(touched := true, data := data)], g, disk, latest[bufs[i].sector := data])
  {
    assert BufOk(bufs[i], g, disk, ops);
    var x0 := bufs[i].sector;
    var r, l := bufs[i := bufs[i].(touched := true, data := data)], latest[x0 := data];
    assert Newer(r, i, x0);
    forall x | Home(g, disk, x) && l[x] != disk[x] ensures exists k :: Newer(r, k, x) {
      if x != x0 {
        var k :| Newer(bufs, k, x);
        assert Newer(r, k, x);
      }
    }
    forall k | 0 <= k < |r| ensures CopyOk(r[k], g, disk, l) {
      assert CopyOk(bufs[k], g, disk, latest);
    }
  }

  lemma ModifyKeeps(s: State, op: nat, i: nat, data: Block)
    requires Inv(s) && Enabled(s, Modify(op, i, data))
    ensures Inv(Next(s, Modify(op, i, data)))
  {
    hide LogHolds, HeaderOk, HeaderSectors, Loggable, Recovered, SameHome, Replay, OpenAfter, Orderly, Count;
    var t := Next(s, Modify(op, i, data));
    var e := Write(op, s.bufs[i].sector, data);
    ModifyCopies(s.bufs, i, data, s.g, s.disk, s.ops, Latest(s));
    ReplayAppend(s.init, s.history, e);
    OpenAppend(s.history, e);
    AppendKeepsOrder(s.history, e);
    assert t.history[..s.durable] == s.history[..s.durable];
    ActiveMeansIdle(s, op);
  }

  lemma ActiveMeansIdle(s: State, op: nat)
    requires Inv(s) && op < |s.ops| && s.ops[op].active
    ensures !s.committing && s.phase == Idle && s.outstanding >= 1
  {
    ActiveCounts(s.ops);
  }

  lemma LogCheckKeeps(s: State, op: nat, i: nat)
    requires Inv(s) && Enabled(s, LogCheck(op, i))
    ensures Inv(Next(s, LogCheck(op, i)))
  {
    hide LogHolds, HeaderOk, HeaderSectors, Loggable, Recovered, SameHome, Replay, OpenAfter, Orderly, Count;
    UpdateOp(s.ops, op, s.ops[op].(checking := i));
    assert ActiveOps(Next(s, LogCheck(op, i)).ops) == ActiveOps(s.ops);
  }

  lemma RecordCopies(bufs: seq<Buf>, i: nat, g: Geometry, disk: Disk, ops: seq<OpState>, latest: Disk)
    requires i < |bufs| && bufs[i].holder.Op? && bufs[i].valid
    requires BufsOk(bufs, g, disk, ops) && CopiesOk(bufs, g, disk, latest)
    ensures CopiesOk(bufs[i := bufs[i].(dirty := true, touched := false)], g, disk, latest)
  {
    var r := bufs[i := bufs[i].(dirty := true, touched := false)];
    assert BufOk(bufs[i], g, disk, ops);
    forall x | Home(g, disk, x) && latest[x] != disk[x] ensures exists k :: Newer(r, k, x) {
      var k :| Newer(bufs, k, x);
      assert Newer(r, k, x);
    }
    forall k | 0 <= k < |r| ensures CopyOk(r[k], g, disk, latest) {
      assert CopyOk(bufs[k], g, disk, latest);
    }
  }

  lemma RecordBufs(s: State, op: nat)
    requires Inv(s) && Enabled(s, LogRecord(op))
    ensures var t := Next(s, LogRecord(op));
            BufsOk(t.bufs, t.g, t.disk, t.ops) && OpsOk(t.ops, t.bufs, t.outstanding) && HistoryOk(t.history, t.ops)
  {
    hide Recovered, SameHome, Replay, OpenAfter, Orderly, Newer, Count, HeaderSectors, HeaderOk, Loggable, LogHolds, CopyOk;
    var t := Next(s, LogRecord(op));
    var i := s.ops[op].checking;
    UpdateOp(s.ops, op, t.ops[op]);
    assert ActiveOps(t.ops) == ActiveOps(s.ops);
    forall k | 0 <= k < |t.bufs| ensures BufOk(t.bufs[k], t.g, t.disk, t.ops) {
      assert BufOk(s.bufs[k], s.g, s.disk, s.ops);
    }
  }

  lemma LogRecordKeeps(s: State, op: nat)
    requires Inv(s) && Enabled(s, LogRecord(op)) && Allowed(s, LogRecord(op), Fitting)
    ensures Inv(Next(s, LogRecord(op)))
  {
    hide LogHolds, HeaderOk, HeaderSectors, Recovered, SameHome, Replay, OpenAfter, Orderly, Count, Newer;
    var t := Next(s, LogRecord(op));
    var i := s.ops[op].checking;
    ActiveMeansIdle(s, op);
    RecordCopies(s.bufs, i, s.g, s.disk, s.ops, Latest(s));
    RecordBufs(s, op);
    UpdateOp(s.ops, op, t.ops[op]);
    assert BufOk(s.bufs[i], s.g, s.disk, s.ops);
    assert AllHome(t.g, t.disk, t.secs);
  }

  lemma EndBufs(s: State, op: nat)
    requires Inv(s) && Enabled(s, EndOp(op))
    ensures var t := Next(s, EndOp(op));
            BufsOk(t.bufs, t.g, t.disk, t.ops) && OpsOk(t.ops, t.bufs, t.outstanding)
  {
    hide HeaderOk, HeaderSectors, Loggable, Recovered, SameHome, Replay, Orderly, Newer, CopyOk, OpenAfter, LogHolds;
    var t := Next(s, EndOp(op));
    UpdateOp(s.ops, op, s.ops[op].(active := false));
    forall k | 0 <= k < |t.bufs| ensures BufOk(t.bufs[k], t.g, t.disk, t.ops) {
      assert BufOk(s.bufs[k], s.g, s.disk, s.ops);
    }
  }

  lemma EndHistory(s: State, op: nat)
    requires Inv(s) && Enabled(s, EndOp(op))
    ensures var t := Next(s, EndOp(op)); HistoryOk(t.history, t.ops)
  {
    hide HeaderOk, HeaderSectors, Loggable, Recovered, SameHome, Replay, Newer, CopyOk, LogHolds;
    var t := Next(s, EndOp(op));
    OpenAppend(s.history, End(op));
    AppendKeepsOrder(s.history, End(op));
    assert ActiveOps(t.ops) == ActiveOps(s.ops) - {op};
  }

  lemma EndKeeps(s: State, op: nat)
    requires Inv(s) && Enabled(s, EndOp(op))
    ensures Inv(Next(s, EndOp(op)))
  {
    hide HeaderOk, HeaderSectors, Loggable, Recovered, SameHome, Replay, OpenAfter, HistoryOk, Newer, CopyOk, Count, Home;
    var t := Next(s, EndOp(op));
    ActiveMeansIdle(s, op);
    EndBufs(s, op);
    EndHistory(s, op);
    UpdateOp(s.ops, op, s.ops[op].(active := false));
    ReplayAppend(s.init, s.history, End(op));
    assert t.history[..s.durable] == s.history[..s.durable];
  }

  // ---- Commit steps --------------------------------------------------------------------------

  /** With nobody active and nothing pinned, the disk is up to date. */
  lemma NothingNewer(s: State, x: int)
    requires Inv(s) && s.outstanding == 0 && Home(s.g, s.disk, x)
    requires x !in Pinned(s.secs, s.phase)
    ensures Latest(s)[x] == s.disk[x]
  {
    ActiveCounts(s.ops);
    assert forall k :: 0 <= k < |s.bufs| ==> BufOk(s.bufs[k], s.g, s.disk, s.ops);
    assert forall k :: !Newer(s.bufs, k, x);
  }

  /** A sector write by the committing thread, together with the buffer it is written from. */
  lemma CommitterWrite(bufs: seq<Buf>, to: nat, data: Block, g: Geometry, disk: Disk, ops: seq<OpState>, latest: Disk)
    requires to < |bufs| && bufs[to].holder == Committer && bufs[to].valid
    requires BufsOk(bufs, g, disk, ops) && CopiesOk(bufs, g, disk, latest)
    requires 0 <= bufs[to].sector < |disk|
    requires Home(g, disk, bufs[to].sector) ==> data == latest[bufs[to].sector]
    ensures var r := bufs[to := bufs[to].(data := data, dirty := false)];
            var d := disk[bufs[to].sector := data];
            BufsOk(r, g, d, ops) && CopiesOk(r, g, d, latest)
  {
    var x0 := bufs[to].sector;
    var r := bufs[to := bufs[to].(data := data, dirty := false)];
    var d := disk[x0 := data];
    forall k | 0 <= k < |r| ensures BufOk(r[k], g, d, ops) && CopyOk(r[k], g, d, latest) {
      assert BufOk(bufs[k], g, disk, ops) && CopyOk(bufs[k], g, disk, latest);
    }
    forall x | Home(g, d, x) && latest[x] != d[x] ensures exists k :: Newer(r, k, x) {
      assert Home(g, disk, x);
      var k :| Newer(bufs, k, x);
      assert Newer(r, k, x);
    }
  }

  lemma LogBlockRegion(s: State, data: Block)
    requires Inv(s) && s.phase.Logging? && s.phase.tail < |s.secs|
    requires data == Latest(s)[s.secs[s.phase.tail]]
    ensures var d := s.disk[s.g.start + 1 + s.phase.tail := data];
            && RegionOk(s.g, d, Latest(s), s.secs, Logging(s.phase.tail + 1), s.history, s.durable)
            && DurableOk(s.g, d, s.init, s.history, s.durable)
  {
    var tail := s.phase.tail;
    var d := s.disk[s.g.start + 1 + tail := data];
    ClearedHeaderRecoversToItself(s.g, s.disk);
    ClearedHeaderRecoversToItself(s.g, d);
    forall j | 0 <= j < tail + 1 ensures LogBlock(s.g, d, j) == Latest(s)[s.secs[j]] {
      if j < tail { assert LogBlock(s.g, s.disk, j) == Latest(s)[s.secs[j]]; }
    }
  }

  lemma WriteLogBlockKeeps(s: State, to: nat, from: nat)
    requires Inv(s) && Enabled(s, WriteLogBlock(to, from))
    ensures Inv(Next(s, WriteLogBlock(to, from)))
  {
    hide HeaderOk, HeaderSectors, Recovered, SameHome, Replay, OpenAfter, Orderly, Count, Newer;
    assert CopyOk(s.bufs[from], s.g, s.disk, Latest(s));
    assert BufOk(s.bufs[to], s.g, s.disk, s.ops);
    CommitterWrite(s.bufs, to, s.bufs[from].data, s.g, s.disk, s.ops, Latest(s));
    LogBlockRegion(s, s.bufs[from].data);
  }

  /** The commit point: with the header on disk, recovery yields the latest blocks. */
  lemma HeadRegion(s: State)
    requires Inv(s) && s.phase == Logging(|s.secs|)
    ensures var d := WithHeader(s.g, s.disk, s.secs);
            && RegionOk(s.g, d, Latest(s), s.secs, Installing(0), s.history, |s.history|)
            && DurableOk(s.g, d, s.init, s.history, |s.history|)
  {
    var d := WithHeader(s.g, s.disk, s.secs);
    var latest := Latest(s);
    var n := |s.secs|;
    HeaderSectorsOfWritten(s.g, s.disk, s.secs);
    forall j | 0 <= j < n ensures LogBlock(s.g, d, j) == latest[s.secs[j]] {
      assert LogBlock(s.g, s.disk, j) == latest[s.secs[j]];
    }
    assert s.secs[..n] == s.secs;
    forall x | Home(s.g, s.disk, x) ensures Recovered(s.g, d)[x] == latest[x] {
      if x in s.secs {
        InstallsImage(s.g, d, latest, s.secs, n, x);
      } else {
        NothingNewer(s, x);
      }
    }
    ActiveCounts(s.ops);
    assert ActiveOps(s.ops) == {};
    assert s.history[..|s.history|] == s.history;
  }

  lemma WriteHeadKeeps(s: State, i: nat)
    requires Inv(s) && Enabled(s, WriteHead(i))
    ensures Inv(Next(s, WriteHead(i)))
  {
    hide LogHolds, HeaderOk, HeaderSectors, Loggable, Recovered, SameHome, Replay, OpenAfter, Orderly, HeaderBlock, Count, Newer;
    var hb := HeaderBlock(s.bufs[i].data, s.secs);
    assert BufOk(s.bufs[i], s.g, s.disk, s.ops);
    assert CopyOk(s.bufs[i], s.g, s.disk, Latest(s));
    CommitterWrite(s.bufs, i, hb, s.g, s.disk, s.ops, Latest(s));
    HeadRegion(s);
  }

  lemma InstallRegion(s: State)
    requires Inv(s) && s.phase.Installing? && s.phase.tail < |s.secs|
    ensures var d := s.disk[s.secs[s.phase.tail] := Latest(s)[s.secs[s.phase.tail]]];
            && RegionOk(s.g, d, Latest(s), s.secs, Installing(s.phase.tail + 1), s.history, s.durable)
            && DurableOk(s.g, d, s.init, s.history, s.durable)
  {
    InstallOneBlock(s.g, s.disk, Latest(s), s.phase.tail);
  }

  lemma InstallPins(bufs: seq<Buf>, to: nat, b: Buf, secs: seq<int>, tail: nat)
    requires to < |bufs| && tail < |secs| && PinsOk(bufs, secs, Installing(tail))
    requires b.sector == bufs[to].sector == secs[tail] && !b.dirty
    requires forall i, j :: 0 <= i < j < |bufs| && bufs[i].sector != -1 ==> bufs[i].sector != bufs[j].sector
    requires secs[tail] != -1
    ensures PinsOk(bufs[to := b], secs, Installing(tail + 1))
  {
    assert secs[tail..] == [secs[tail]] + secs[tail + 1..];
  }

  lemma InstalledData(s: State, to: nat, from: nat)
    requires Inv(s) && Enabled(s, InstallBlock(to, from))
    ensures s.bufs[from].data == Latest(s)[s.secs[s.phase.tail]]
  {
    hide Recovered, SameHome, Replay, OpenAfter, Orderly, Newer, Count, HeaderOk;
    assert BufOk(s.bufs[from], s.g, s.disk, s.ops) && CopyOk(s.bufs[from], s.g, s.disk, Latest(s));
    assert LogBlock(s.g, s.disk, s.phase.tail) == Latest(s)[s.secs[s.phase.tail]];
  }

  lemma InstallBufs(s: State, to: nat, from: nat)
    requires Inv(s) && Enabled(s, InstallBlock(to, from))
    ensures var t := Next(s, InstallBlock(to, from));
            && BufsOk(t.bufs, t.g, t.disk, t.ops) && CopiesOk(t.bufs, t.g, t.disk, Latest(s))
            && OpsOk(t.ops, t.bufs, t.outstanding) && PinsOk(t.bufs, t.secs, t.phase)
  {
    var b := s.bufs[to].(data := s.bufs[from].data, dirty := false);
    InstalledData(s, to, from);
    CommitterWrite(s.bufs, to, b.data, s.g, s.disk, s.ops, Latest(s));
    InstallPins(s.bufs, to, b, s.secs, s.phase.tail);
  }

  lemma InstallBlockKeeps(s: State, to: nat, from: nat)
    requires Inv(s) && Enabled(s, InstallBlock(to, from))
    ensures Inv(Next(s, InstallBlock(to, from)))
  {
    InstalledData(s, to, from);
    InstallBufs(s, to, from);
    InstallRegion(s);
  }

  lemma ForgetKeeps(s: State)
    requires Inv(s) && Enabled(s, ForgetTransaction)
    ensures Inv(Next(s, ForgetTransaction))
  {
    assert Pinned(s.secs, s.phase) == [];
  }

  lemma ClearHeadKeeps(s: State, i: nat)
    requires Inv(s) && Enabled(s, ClearHead(i))
    ensures Inv(Next(s, ClearHead(i)))
  {
    hide LogHolds, Replay, OpenAfter, Orderly, Count, Newer;
    var t := Next(s, ClearHead(i));
    assert BufOk(s.bufs[i], s.g, s.disk, s.ops);
    assert CopyOk(s.bufs[i], s.g, s.disk, Latest(s));
    ClearedHeaderRecoversToItself(t.g, t.disk);
    assert t.history[..t.durable] == s.history;
    forall x | Home(s.g, s.disk, x) ensures t.disk[x] == Latest(s)[x] {
      NothingNewer(s, x);
    }
  }

  lemma FinishKeeps(s: State)
    requires Inv(s) && Enabled(s, FinishCommit)
    ensures Inv(Next(s, FinishCommit))
  {
    hide LogHolds, Replay, OpenAfter, Orderly, Newer;
    var t := Next(s, FinishCommit);
    assert t.history[..t.durable] == s.history;
    ClearedHeaderRecoversToItself(s.g, s.disk);
    ActiveCounts(s.ops);
    assert ActiveOps(s.ops) == {};
    forall x | Home(s.g, s.disk, x) ensures s.disk[x] == Latest(s)[x] {
      NothingNewer(s, x);
    }
  }

  lemma CrashKeeps(s: State, boots: seq<Disk>)
    requires Inv(s) && Enabled(s, Crash(boots))
    ensures Inv(Next(s, Crash(boots)))
  {
    hide LogHolds, Replay, OpenAfter, Newer, Count;
    var t := Next(s, Crash(boots));
    CrashesDuringRecovery(s.g, boots);
    EndedOpsCount(|s.ops|);
    assert t.disk[t.g.start][0] == 0;
    ClearedHeaderRecoversToItself(t.g, t.disk);
    assert t.history[..t.durable] == t.history;
    assert ActiveOps(t.ops) == {};
    forall k | 0 <= k < |t.history| && !t.history[k].Begin?
      ensures t.history[k].op in OpenAfter(t.history[..k])
    {
      assert t.history[..k] == s.history[..k];
    }
  }

  // ---- Every run -----------------------------------------------------------------------------

  lemma BootInv(s: State)
    requires Boot(s)
    ensures Inv(s)
  {
    ClearedHeaderRecoversToItself(s.g, s.disk);
    assert ActiveOps(s.ops) == {};
  }

  lemma StepKeepsInv(s: State, step: Step)
    requires Inv(s) && Enabled(s, step) && Allowed(s, step, Fitting)
    ensures Inv(Next(s, step))
  {
    hide Inv;
    match step
    case BeginOp => BeginKeeps(s);
    case Get(h, i) => GetKeeps(s, h, i);
    case Recycle(h, i, sector) => RecycleKeeps(s, h, i, sector);
    case Fill(i) => FillKeeps(s, i);
    case Modify(op, i, data) => ModifyKeeps(s, op, i, data);
    case LogCheck(op, i) => LogCheckKeeps(s, op, i);
    case LogRecord(op) => LogRecordKeeps(s, op);
    case Put(i) => PutKeeps(s, i);
    case EndOp(op) => EndKeeps(s, op);
    case WriteLogBlock(to, from) => WriteLogBlockKeeps(s, to, from);
    case WriteHead(i) => WriteHeadKeeps(s, i);
    case InstallBlock(to, from) => InstallBlockKeeps(s, to, from);
    case ForgetTransaction => ForgetKeeps(s);
    case ClearHead(i) => ClearHeadKeeps(s, i);
    case FinishCommit => FinishKeeps(s);
    case Crash(boots) => CrashKeeps(s, boots);
  }

  lemma {:induction false} RunKeepsInv(s: State, steps: seq<Step>)
    requires Inv(s) && CanRun(s, steps) && Follows(s, steps, Fitting)
    ensures Inv(After(s, steps))
    decreases |steps|
  {
    if steps != [] {
      StepKeepsInv(s, steps[0]);
      RunKeepsInv(Next(s, steps[0]), steps[1..]);
    }
  }

  /** A reader or operation that has a block sees its latest version, in every interleaving:
      across eviction, pinning, commit and installation. */
  lemma ReadsAreLatest(s: State, steps: seq<Step>, i: nat)
    requires Boot(s) && CanRun(s, steps) && Follows(s, steps, Fitting)
    requires var t := After(s, steps);
             i < |t.bufs| && t.bufs[i].valid && (t.bufs[i].holder.Op? || t.bufs[i].holder.Reader?)
    ensures var t := After(s, steps);
            0 <= t.bufs[i].sector < |s.disk| && t.bufs[i].data == Replay(s.disk, t.history)[t.bufs[i].sector]
  {
    BootInv(s);
    RunKeepsInv(s, steps);
    var t := After(s, steps);
    assert BufOk(t.bufs[i], t.g, t.disk, t.ops) && CopyOk(t.bufs[i], t.g, t.disk, Latest(t));
  }

  lemma {:induction false} StaysClosed(h: seq<Event>, d: nat, k: nat, op: nat)
    requires d <= k <= |h| && op !in OpenAfter(h[..d])
    requires forall j :: d <= j < k ==> h[j] != Begin(op)
    ensures op !in OpenAfter(h[..k])
  {
    if d < k {
      StaysClosed(h, d, k - 1, op);
      assert h[..k] == h[..k - 1] + [h[k - 1]];
      OpenAppend(h[..k - 1], h[k - 1]);
    }
  }

  /** All events of one operation are on the same side of a point where no operation is open. */
  lemma OperationsAreWhole(h: seq<Event>, d: nat, j: nat, k: nat)
    requires Orderly(h) && j < |h| && k < |h| && d <= |h|
    requires OpenAfter(h[..d]) == {} && h[j].op == h[k].op
    ensures j < d <==> k < d
  {
    var a, b := if j < k then j else k, if j < k then k else j;
    if a < d <= b {
      StaysClosed(h, d, b, h[a].op);
    }
  }

  /** Crash safety of the whole stack: whenever the machine stops, and however often recovery is
      itself interrupted, the home blocks are afterwards those of the committed operations, each
      operation being there with all of its updates or with none; and with no operation under
      way and no commit running, nothing is lost. */
  lemma CrashSafety(s: State, steps: seq<Step>, chain: seq<Disk>)
    requires Boot(s) && CanRun(s, steps) && Follows(s, steps, Fitting)
    requires CrashChain(s.g, chain) && chain[0] == After(s, steps).disk
    ensures var t := After(s, steps);
            && t.durable <= |t.history|
            && SameHome(s.g, Recovered(s.g, chain[|chain| - 1]), Replay(s.disk, t.history[..t.durable]))
            && (forall j, k :: 0 <= j < |t.history| && 0 <= k < |t.history| && t.history[j].op == t.history[k].op
                  ==> (j < t.durable <==> k < t.durable))
            && (t.outstanding == 0 && !t.committing ==> t.durable == |t.history|)
  {
    BootInv(s);
    RunKeepsInv(s, steps);
    var t := After(s, steps);
    CrashesDuringRecovery(s.g, chain);
    forall j, k | 0 <= j < |t.history| && 0 <= k < |t.history| && t.history[j].op == t.history[k].op
      ensures j < t.durable <==> k < t.durable
    {
      OperationsAreWhole(t.history, t.durable, j, k);
    }
  }
}

/** log.c as code: the in-memory log header, and the loops that move blocks between the cache,
    the log and the home sectors. `dirty` holds the cached blocks that are newer than the disk
    (B_DIRTY buffers); every other block reads as what is on the disk. The ghost `trace` records
    the disk after each sector write, that is, every disk a crash can leave behind. */
module Log {
  import opened Common
  import opened LogFormat

  /** The trace of commit's four parts, put together. */
  lemma CommitEnds(g: Geometry, d: Disk, view: Disk, secs: seq<int>, e: Disk, t: seq<Disk>, before: seq<Disk>)
    requires Loggable(g, d, secs) && |view| == |d|
    requires e == WithHeader(g, Installing(g, d, view, secs, |secs|), [])
    requires var full := WithHeader(g, Logged(g, d, view, secs, |secs|), secs);
             t == before + (LoggedSteps(g, d, view, secs, |secs|) + [full] + InstalledSteps(g, full, secs, |secs|)) + [e]
    ensures t == before + CommitTrace(g, d, view, secs)
    ensures SameHome(g, e, Committed(d, view, secs)) && e[g.start][0] == 0
  {
    InstallingDone(g, d, view, secs);
  }

  // ---- Any list of sectors -------------------------------------------------------------------

  /** The sectors that a header block lists; a count of less than one lists none. */
  function Listed(b: Block): (secs: seq<int>)
    requires b[0] <= LOGSIZE
    ensures |secs| <= LOGSIZE
  {
    if b[0] <= 0 then [] else b[1..1 + b[0]]
  }

  /** Log block i can be copied to sector x. */
  predicate CanCopy(g: Geometry, d: Disk, x: int, i: nat) {
    g.start + 1 + i < |d| && 0 <= x < |d| && x != g.start + 1 + i
  }

  /** The first k sectors of the list and their log blocks lie on the disk, and none is its own log block. */
  predicate Installable(g: Geometry, d: Disk, secs: seq<int>, k: nat)
    requires k <= |secs|
  {
    forall i :: 0 <= i < k ==> CanCopy(g, d, secs[i], i)
  }

  /** The disk after install_trans has copied the first k log blocks, wherever the list sends them. */
  function Copied(g: Geometry, d: Disk, secs: seq<int>, k: nat): (e: Disk)
    requires k <= |secs| && Installable(g, d, secs, k)
    ensures |e| == |d|
  {
    if k == 0 then d
    else
      var e := Copied(g, d, secs, k - 1);
      e[secs[k - 1] := e[g.start + k]]
  }

  function CopiedSteps(g: Geometry, d: Disk, secs: seq<int>, k: nat): (t: seq<Disk>)
    requires k <= |secs| && Installable(g, d, secs, k)
  {
    if k == 0 then [] else CopiedSteps(g, d, secs, k - 1) + [Copied(g, d, secs, k)]
  }

  /** For a transaction that the log can hold that is what Installed says. */
  lemma {:induction false} CopiedIsInstalled(g: Geometry, d: Disk, secs: seq<int>, k: nat)
    requires Loggable(g, d, secs) && k <= |secs|
    ensures Installable(g, d, secs, k) && Copied(g, d, secs, k) == Installed(g, d, secs, k)
    ensures CopiedSteps(g, d, secs, k) == InstalledSteps(g, d, secs, k)
  {
    if k > 0 {
      CopiedIsInstalled(g, d, secs, k - 1);
      assert Home(g, d, secs[k - 1]);
    }
  }

  lemma NotAll(g: Geometry, d: Disk, secs: seq<int>, k: nat)
    requires k < |secs| && !CanCopy(g, d, secs[k], k)
    ensures !Installable(g, d, secs, |secs|)
  {
  }

  lemma LogBlocksClean(g: Geometry, d: Disk, secs: seq<int>, k: nat)
    requires Loggable(g, d, secs) && k < |secs|
    ensures !Home(g, d, g.start + k + 1)
  {
  }

  lemma StaysLoggable(g: Geometry, d: Disk, e: Disk, secs: seq<int>)
    requires Loggable(g, d, secs) && |d| == |e|
    ensures Loggable(g, e, secs) && forall s :: Home(g, d, s) <==> Home(g, e, s)
  {
    assert AllHome(g, e, secs) by {
      forall i | 0 <= i < |secs| ensures Home(g, e, secs[i]) { assert Home(g, d, secs[i]); }
    }
  }

  lemma CopyNext(g: Geometry, d: Disk, secs: seq<int>, k: nat)
    requires k <= |secs| && Installable(g, d, secs, k)
    ensures k == 0 ==> Copied(g, d, secs, k) == d && CopiedSteps(g, d, secs, k) == []
    ensures k < |secs| && CanCopy(g, d, secs[k], k) ==>
      && Installable(g, d, secs, k + 1)
      && Copied(g, d, secs, k + 1) == Copied(g, d, secs, k)[secs[k] := Copied(g, d, secs, k)[g.start + k + 1]]
      && CopiedSteps(g, d, secs, k + 1) == CopiedSteps(g, d, secs, k) + [Copied(g, d, secs, k + 1)]
  {
  }

  /** What recovery ends with; the other two are no returns: the header's count runs past the array it is
      copied to; or a sector lies past the end of the disk, where iderw panics, or is its own log block, for
      whose buffer the kernel then waits forever. */
  datatype Recovery = Clean | Overrun | Stuck

  class Log {
    const g: Geometry
    var disk: Disk
    var dirty: map<int, Block>
    var n: nat
    const sector: array<int>
    ghost var trace: seq<Disk>

    ghost predicate Shape()
      reads this
    {
      Fits(g, disk) && sector.Length == LOGSIZE && n <= LOGSIZE
    }

    ghost predicate Valid()
      reads this, sector
    {
      && Shape()
      && Loggable(g, disk, sector[..n])
      && forall s :: s in dirty ==> Home(g, disk, s)
    }

    /** The blocks as the cache shows them. */
    ghost function View(): (v: Disk)
      reads this
      ensures |v| == |disk|
    {
      seq(|disk|, s requires 0 <= s < |disk| reads this => if s in dirty then dirty[s] else disk[s])
    }

    constructor (g: Geometry, disk: Disk)
      requires Fits(g, disk)
      ensures Valid() && this.g == g && this.disk == disk && dirty == map[] && n == 0 && trace == []
    {
      this.g, this.disk, dirty, n, trace := g, disk, map[], 0, [];
      sector := new int[LOGSIZE](_ => 0);
    }

    method Bread(s: int) returns (b: Block)
      requires 0 <= s < |disk|
      ensures b == View()[s]
    {
      b := if s in dirty then dirty[s] else disk[s];
    }

    /** bwrite: one atomic sector write, after which the buffer is clean. */
    method Bwrite(s: int, b: Block)
      requires 0 <= s < |disk|
      modifies this`disk, this`dirty, this`trace
      ensures disk == old(disk)[s := b] && dirty == old(dirty) - {s}
      ensures trace == old(trace) + [disk]
    {
      disk := disk[s := b];
      dirty := dirty - {s};
      trace := trace + [disk];
    }

    /** log_write of a modified block: its check, and then absorption and pinning. */
    method LogWrite(s: int, b: Block, outstanding: int) returns (panics: bool)
      requires Valid() && Home(g, disk, s)
      modifies this`n, this`dirty, sector
      ensures Valid()
      ensures panics <==> old(n) >= LOGSIZE || old(n) >= g.size - 1 || outstanding < 1
      ensures panics ==> sector[..n] == old(sector[..n]) && dirty == old(dirty)
      ensures !panics ==> sector[..n] == Absorb(old(sector[..n]), s) && dirty == old(dirty)[s := b]
    {
      if n >= LOGSIZE || n >= g.size - 1 || outstanding < 1 {
        return true;
      }
      var i := 0;
      while i < n && sector[i] != s
        invariant 0 <= i <= n && s !in sector[..i]
      {
        i := i + 1;
      }
      sector[i] := s;
      if i == n {
        n := n + 1;
      }
      dirty := dirty[s := b];
      panics := false;
    }

    /** read_head, of whatever is in the header block; false if the count is more than the array holds. */
    method ReadHead() returns (ok: bool)
      requires Shape() && g.start !in dirty
      modifies this`n, sector
      ensures ok <==> disk[g.start][0] <= LOGSIZE
      ensures !ok ==> unchanged(this) && sector[..] == old(sector[..])
      ensures ok ==> Shape() && sector[..n] == Listed(disk[g.start])
      ensures HeaderOk(g, disk) ==> ok && sector[..n] == HeaderSectors(g, disk)
    {
      var lh := Bread(g.start);
      if lh[0] > LOGSIZE { return false; }
      ok := true;
      n := if lh[0] < 0 then 0 else lh[0];
      var i := 0;
      while i < n
        invariant 0 <= i <= n <= LOGSIZE && n == (if lh[0] < 0 then 0 else lh[0]) && sector[..i] == lh[1..1 + i]
      {
        sector[i] := lh[1 + i];
        i := i + 1;
      }
    }

    method WriteHead()
      requires Valid()
      modifies this`disk, this`dirty, this`trace
      ensures Valid() && dirty == old(dirty)
      ensures disk == WithHeader(g, old(disk), sector[..n])
      ensures trace == old(trace) + [disk]
    {
      ghost var before := disk[g.start];
      var hb := Bread(g.start);
      hb := hb[0 := n];
      var i := 0;
      while i < n
        invariant 0 <= i <= n
        invariant hb == [n] + sector[..i] + before[1 + i..]
      {
        hb := hb[1 + i := sector[i]];
        i := i + 1;
      }
      assert dirty - {g.start} == dirty;
      Bwrite(g.start, hb);
    }

    method WriteLog()
      requires Valid()
      modifies this`disk, this`dirty, this`trace
      ensures Valid() && dirty == old(dirty)
      ensures disk == Logged(g, old(disk), old(View()), sector[..n], n)
      ensures trace == old(trace) + LoggedSteps(g, old(disk), old(View()), sector[..n], n)
    {
      ghost var secs := sector[..n];
      ghost var d, view := disk, View();
      var tail := 0;
      while tail < n
        invariant 0 <= tail <= n && Valid() && dirty == old(dirty)
        invariant disk == Logged(g, d, view, secs, tail)
        invariant trace == old(trace) + LoggedSteps(g, d, view, secs, tail)
      {
        var from := Bread(sector[tail]);
        assert from == view[secs[tail]];
        assert dirty - {g.start + tail + 1} == dirty;
        Bwrite(g.start + tail + 1, from);
        tail := tail + 1;
      }
    }

    /** install_trans: every listed sector receives its log block; false if it is stuck at one. */
    method InstallTrans() returns (ok: bool)
      requires Shape() && (Valid() || dirty == map[])
      modifies this`disk, this`dirty, this`trace
      ensures Shape() && (old(Valid()) ==> ok && Valid())
      ensures ok <==> Installable(g, old(disk), sector[..n], n)
      ensures ok ==>
        && dirty == old(dirty) - (set s | s in sector[..n])
        && disk == Copied(g, old(disk), sector[..n], n)
        && trace == old(trace) + CopiedSteps(g, old(disk), sector[..n], n)
    {
      hide Copied, CopiedSteps, Loggable;
      ghost var secs := sector[..n];
      ghost var d, before := disk, dirty;
      ghost var valid := Valid();
      var tail := 0;
      CopyNext(g, d, secs, 0);
      while tail < n
        invariant 0 <= tail <= n && Shape() && |disk| == |d| && Installable(g, d, secs, tail)
        invariant forall s :: s in dirty ==> s in before
        invariant dirty == before - (set s | s in secs[..tail])
        invariant disk == Copied(g, d, secs, tail)
        invariant trace == old(trace) + CopiedSteps(g, d, secs, tail)
      {
        if g.start + tail + 1 >= |disk| || !(0 <= sector[tail] < |disk|) || sector[tail] == g.start + tail + 1 {
          NotAll(g, d, secs, tail);
          if valid { CopiedIsInstalled(g, d, secs, n); }
          return false;
        }
        if valid { LogBlocksClean(g, d, secs, tail); }
        var lbuf := Bread(g.start + tail + 1);
        assert secs[..tail + 1] == secs[..tail] + [secs[tail]];
        CopyNext(g, d, secs, tail);
        Bwrite(sector[tail], lbuf);
        tail := tail + 1;
      }
      ok := true;
      if valid { StaysLoggable(g, d, disk, secs); }
    }

    /** Each disk that a crash inside commit can leave is in CommitTrace, whose atomicity is
        CommitIsAtomic; without a transaction nothing is written. */
    method Commit()
      requires Valid()
      modifies this`disk, this`dirty, this`trace, this`n
      ensures Valid() && n == 0
      ensures dirty == old(dirty) - (set s | s in old(sector[..n]))
      ensures old(n) == 0 ==> disk == old(disk) && trace == old(trace)
      ensures old(n) > 0 ==>
                && trace == old(trace) + CommitTrace(g, old(disk), old(View()), old(sector[..n]))
                && disk == trace[|trace| - 1] && disk[g.start][0] == 0
                && SameHome(g, disk, Committed(old(disk), old(View()), old(sector[..n])))
    {
      hide Installed, InstalledSteps, Logged, LoggedSteps, WithHeader, SameHome, Committed;
      if n > 0 {
        ghost var d, view, secs, t0 := disk, View(), sector[..n], trace;
        WriteLog();
        WriteHead();
        ghost var full := disk;
        CopiedIsInstalled(g, disk, secs, |secs|);
        var ok := InstallTrans();
        ghost var done, t1 := disk, InstalledSteps(g, full, secs, |secs|);
        assert trace == t0 + (LoggedSteps(g, d, view, secs, |secs|) + [full] + t1);
        assert done == Installing(g, d, view, secs, |secs|);
        n := 0;
        assert sector[..n] == [];
        WriteHead();
        CommitEnds(g, d, view, secs, disk, trace, t0);
      }
    }

    /** recover_from_log, whatever is in the header block. Of a disk with a well-formed header it makes what
        Recovered says, and its writes are those of RecoveryTrace, from each of which it can be restarted
        (RecoveryRestarts). */
    method RecoverFromLog() returns (r: Recovery)
      requires Shape() && dirty == map[]
      modifies this`disk, this`dirty, this`trace, this`n, sector
      ensures r.Overrun? <==> old(disk)[g.start][0] > LOGSIZE
      ensures r.Overrun? ==> disk == old(disk) && trace == old(trace)
      ensures r.Stuck? <==> !r.Overrun? && !Installable(g, old(disk), Listed(old(disk)[g.start]), |Listed(old(disk)[g.start])|)
      ensures r.Clean? ==>
        var secs := Listed(old(disk)[g.start]);
        && Valid() && n == 0 && dirty == map[] && disk == WithHeader(g, Copied(g, old(disk), secs, |secs|), [])
        && trace == old(trace) + CopiedSteps(g, old(disk), secs, |secs|) + [disk]
      ensures HeaderOk(g, old(disk)) ==>
        r.Clean? && disk == Recovered(g, old(disk)) && trace == old(trace) + RecoveryTrace(g, old(disk))
    {
      ghost var d, t0 := disk, trace;
      if HeaderOk(g, d) { CopiedIsInstalled(g, d, HeaderSectors(g, d), |HeaderSectors(g, d)|); }
      var ok := ReadHead();
      if !ok { return Overrun; }
      ok := InstallTrans();
      if !ok { return Stuck; }
      n := 0;
      assert sector[..n] == [];
      WriteHead();
      r := Clean;
    }
  }
}

/** The block device and the on-disk format of the redo log (log.c, memide.c). A sector is one
    block of 128 words (512 bytes); one sector write is atomic. The log occupies `size` sectors
    from `start`: a header sector holding a count and that many home sector numbers, then one
    log block for each of them.

    `Recovered` says what a complete run of recover_from_log leaves on a disk. The lemmas say
    what a crash can leave behind: which disks recover to the same home blocks. */
module LogFormat {
  import opened Common

  const WORDS := 128

  type Block = b: seq<int> | |b| == WORDS witness seq(WORDS, _ => 0)
  type Disk = seq<Block>

  datatype Geometry = Geometry(start: nat, size: nat)

  /** The log region lies on the disk and has room for its header. */
  predicate Fits(g: Geometry, d: Disk) {
    1 <= g.size && g.start + g.size <= |d|
  }

  /** A sector of the disk outside the log region. */
  predicate Home(g: Geometry, d: Disk, s: int) {
    0 <= s < |d| && !(g.start <= s < g.start + g.size)
  }

  predicate AllHome(g: Geometry, d: Disk, secs: seq<int>) {
    forall i :: 0 <= i < |secs| ==> Home(g, d, secs[i])
  }

  /** A transaction that the log can hold: it fits and installs only outside the log. */
  predicate Loggable(g: Geometry, d: Disk, secs: seq<int>) {
    Fits(g, d) && |secs| <= LOGSIZE && |secs| < g.size && AllHome(g, d, secs)
  }

  /** Two disks agree outside the log region. */
  ghost predicate SameHome(g: Geometry, d: Disk, e: Disk) {
    |d| == |e| && forall s :: Home(g, d, s) ==> d[s] == e[s]
  }

  /** log_write records a sector once: a block already in the transaction is absorbed. */
  function Absorb(secs: seq<int>, s: int): (r: seq<int>)
    ensures s in r && forall x :: x in r <==> x in secs || x == s
    ensures (forall i, j :: 0 <= i < j < |secs| ==> secs[i] != secs[j])
            ==> forall i, j :: 0 <= i < j < |r| ==> r[i] != r[j]
    ensures |secs| <= |r| <= |secs| + 1
  {
    if s in secs then secs else secs + [s]
  }

  /** write_head keeps the words of the buffer after the ones it sets. */
  function HeaderBlock(before: Block, secs: seq<int>): (b: Block)
    requires |secs| <= LOGSIZE
  {
    [|secs|] + secs + before[1 + |secs|..]
  }

  predicate HeaderOk(g: Geometry, d: Disk) {
    && Fits(g, d)
    && 0 <= d[g.start][0] <= LOGSIZE
    && Loggable(g, d, d[g.start][1..1 + d[g.start][0]])
  }

  function HeaderSectors(g: Geometry, d: Disk): (secs: seq<int>)
    requires HeaderOk(g, d)
    ensures Loggable(g, d, secs)
  {
    d[g.start][1..1 + d[g.start][0]]
  }

  /** The disk after install_trans has copied the first k log blocks home. */
  function Installed(g: Geometry, d: Disk, secs: seq<int>, k: nat): (e: Disk)
    requires Loggable(g, d, secs) && k <= |secs|
    ensures |e| == |d|
    ensures forall s :: 0 <= s < |d| && s !in secs[..k] ==> e[s] == d[s]
  {
    if k == 0 then d
    else
      var e := Installed(g, d, secs, k - 1);
      e[secs[k - 1] := e[g.start + k]]
  }

  /** What recover_from_log makes of the disk when it runs to its end. */
  function Recovered(g: Geometry, d: Disk): (e: Disk)
    requires HeaderOk(g, d)
    ensures |e| == |d|
  {
    var secs := HeaderSectors(g, d);
    var e := Installed(g, d, secs, |secs|);
    e[g.start := HeaderBlock(e[g.start], [])]
  }

  /** The block that the log holds for its j-th sector. */
  function LogBlock(g: Geometry, d: Disk, j: nat): (b: Block)
    requires Fits(g, d) && j + 1 < g.size
  {
    d[g.start + 1 + j]
  }

  /** The first k log blocks are those of an image of the disk. */
  ghost predicate LogHolds(g: Geometry, d: Disk, image: Disk, secs: seq<int>, k: nat)
    requires Loggable(g, d, secs) && |image| == |d| && k <= |secs|
  {
    forall j :: 0 <= j < k ==> LogBlock(g, d, j) == image[secs[j]]
  }

  /** The disk after write_log has copied the first k cached blocks into the log. */
  function Logged(g: Geometry, d: Disk, view: Disk, secs: seq<int>, k: nat): (e: Disk)
    requires Loggable(g, d, secs) && |view| == |d| && k <= |secs|
    ensures |e| == |d|
    ensures forall s :: 0 <= s < |d| && !(g.start < s <= g.start + k) ==> e[s] == d[s]
  {
    if k == 0 then d
    else Logged(g, d, view, secs, k - 1)[g.start + k := view[secs[k - 1]]]
  }

  function WithHeader(g: Geometry, d: Disk, secs: seq<int>): (e: Disk)
    requires Loggable(g, d, secs)
    ensures |e| == |d|
  {
    d[g.start := HeaderBlock(d[g.start], secs)]
  }

  /** The disks after each of the first k sector writes of write_log. */
  function LoggedSteps(g: Geometry, d: Disk, view: Disk, secs: seq<int>, k: nat): (t: seq<Disk>)
    requires Loggable(g, d, secs) && |view| == |d| && k <= |secs|
    ensures |t| == k && forall j :: 0 <= j < k ==> t[j] == Logged(g, d, view, secs, j + 1)
  {
    if k == 0 then [] else LoggedSteps(g, d, view, secs, k - 1) + [Logged(g, d, view, secs, k)]
  }

  /** The disks after each of the first k sector writes of install_trans. */
  function InstalledSteps(g: Geometry, d: Disk, secs: seq<int>, k: nat): (t: seq<Disk>)
    requires Loggable(g, d, secs) && k <= |secs|
    ensures |t| == k && forall j :: 0 <= j < k ==> t[j] == Installed(g, d, secs, j + 1)
  {
    if k == 0 then [] else InstalledSteps(g, d, secs, k - 1) + [Installed(g, d, secs, k)]
  }

  /** The disks after each sector write of recover_from_log, in order. */
  function RecoveryTrace(g: Geometry, d: Disk): (t: seq<Disk>)
    requires HeaderOk(g, d)
  {
    var secs := HeaderSectors(g, d);
    InstalledSteps(g, d, secs, |secs|) + [Recovered(g, d)]
  }

  /** The disks after each sector write of commit, in order: the log blocks, the header, the home
      blocks, the cleared header. */
  function CommitTrace(g: Geometry, d: Disk, view: Disk, secs: seq<int>): (t: seq<Disk>)
    requires Loggable(g, d, secs) && |view| == |d|
  {
    var n := |secs|;
    var full := WithHeader(g, Logged(g, d, view, secs, n), secs);
    LoggedSteps(g, d, view, secs, n) + [full] + InstalledSteps(g, full, secs, n)
      + [WithHeader(g, Installed(g, full, secs, n), [])]
  }

  // ---- Installing ----------------------------------------------------------------------------

  /** Installing never changes the log region. */
  lemma InstalledKeepsLog(g: Geometry, d: Disk, secs: seq<int>, k: nat, s: int)
    requires Loggable(g, d, secs) && k <= |secs|
    requires g.start <= s < g.start + g.size
    ensures Installed(g, d, secs, k)[s] == d[s]
  {
  }

  /** Two disks with the same log contents that agree on every home sector the transaction does
      not install end with the same home blocks: the sectors it installs are overwritten. */
  lemma {:induction false} InstallForgets(g: Geometry, d: Disk, e: Disk, secs: seq<int>, k: nat, s: int)
    requires Loggable(g, d, secs) && |d| == |e| && k <= |secs|
    requires forall j :: g.start < j <= g.start + |secs| ==> d[j] == e[j]
    requires Home(g, d, s)
    requires s in secs[..k] || d[s] == e[s]
    ensures Installed(g, d, secs, k)[s] == Installed(g, e, secs, k)[s]
  {
    if k > 0 {
      InstalledKeepsLog(g, d, secs, k - 1, g.start + k);
      InstalledKeepsLog(g, e, secs, k - 1, g.start + k);
      if s != secs[k - 1] {
        assert secs[..k] == secs[..k - 1] + [secs[k - 1]];
        InstallForgets(g, d, e, secs, k - 1, s);
      }
    }
  }

  /** What is installed in a sector of the transaction is that sector of the logged image. */
  lemma {:induction false} InstallsImage(g: Geometry, d: Disk, image: Disk, secs: seq<int>, k: nat, s: int)
    requires Loggable(g, d, secs) && |image| == |d| && k <= |secs|
    requires LogHolds(g, d, image, secs, |secs|)
    requires s in secs[..k]
    ensures Installed(g, d, secs, k)[s] == image[s]
  {
    if s == secs[k - 1] {
      InstalledKeepsLog(g, d, secs, k - 1, g.start + k);
      assert LogBlock(g, d, k - 1) == image[s];
    } else {
      assert secs[..k] == secs[..k - 1] + [secs[k - 1]];
      InstallsImage(g, d, image, secs, k - 1, s);
    }
  }

  lemma {:induction false} LoggedHolds(g: Geometry, d: Disk, view: Disk, secs: seq<int>, k: nat)
    requires Loggable(g, d, secs) && |view| == |d| && k <= |secs|
    ensures LogHolds(g, Logged(g, d, view, secs, k), view, secs, k)
  {
    if k > 0 {
      LoggedHolds(g, d, view, secs, k - 1);
      var e, f := Logged(g, d, view, secs, k - 1), Logged(g, d, view, secs, k);
      forall j | 0 <= j < k ensures LogBlock(g, f, j) == view[secs[j]] {
        assert j < k - 1 ==> LogBlock(g, e, j) == view[secs[j]];
      }
    }
  }

  // ---- Recovery ------------------------------------------------------------------------------

  lemma ClearedHeaderRecoversToItself(g: Geometry, d: Disk)
    requires Fits(g, d) && d[g.start][0] == 0
    ensures HeaderOk(g, d) && Recovered(g, d) == d
  {
    assert d[g.start][1..1] == [];
    assert HeaderBlock(d[g.start], []) == d[g.start];
  }

  lemma HeaderSectorsOfWritten(g: Geometry, d: Disk, secs: seq<int>)
    requires Loggable(g, d, secs)
    ensures HeaderOk(g, WithHeader(g, d, secs)) && HeaderSectors(g, WithHeader(g, d, secs)) == secs
  {
    var b := HeaderBlock(d[g.start], secs);
    assert b[0] == |secs|;
    assert b[1..1 + |secs|] == secs;
  }

  /** Recovery interrupted after any number of its writes and started again ends with the disk that it
      would have made without the interruption. */
  lemma RecoveryRestarts(g: Geometry, d: Disk, k: nat)
    requires HeaderOk(g, d) && k < |RecoveryTrace(g, d)|
    ensures var e := RecoveryTrace(g, d)[k];
            HeaderOk(g, e) && Recovered(g, e) == Recovered(g, d)
  {
    var secs := HeaderSectors(g, d);
    var n := |secs|;
    if k < n {
      var e := Installed(g, d, secs, k + 1);
      forall s | g.start <= s < g.start + g.size ensures e[s] == d[s] {
        InstalledKeepsLog(g, d, secs, k + 1, s);
      }
      assert HeaderSectors(g, e) == secs;
      forall s | 0 <= s < |d| ensures Installed(g, e, secs, n)[s] == Installed(g, d, secs, n)[s] {
        if Home(g, d, s) {
          assert s in secs[..k + 1] ==> s in secs[..n];
          InstallForgets(g, e, d, secs, n, s);
        } else {
          InstalledKeepsLog(g, d, secs, n, s);
          InstalledKeepsLog(g, e, secs, n, s);
        }
      }
    } else {
      var e := Recovered(g, d);
      assert e[g.start][0] == 0;
      ClearedHeaderRecoversToItself(g, e);
    }
  }

  /** Writing a logged block to its home sector leaves what recovery will make of the disk. */
  lemma InstallOneBlock(g: Geometry, d: Disk, image: Disk, k: nat)
    requires HeaderOk(g, d) && |image| == |d| && k < |HeaderSectors(g, d)|
    requires LogHolds(g, d, image, HeaderSectors(g, d), |HeaderSectors(g, d)|)
    ensures var secs := HeaderSectors(g, d);
            var e := d[secs[k] := image[secs[k]]];
            && HeaderOk(g, e) && HeaderSectors(g, e) == secs
            && LogHolds(g, e, image, secs, |secs|)
            && SameHome(g, Recovered(g, e), Recovered(g, d))
  {
    var secs := HeaderSectors(g, d);
    var e := d[secs[k] := image[secs[k]]];
    assert Home(g, d, secs[k]);
    assert forall s :: g.start <= s < g.start + g.size ==> e[s] == d[s];
    assert HeaderSectors(g, e) == secs;
    forall j | 0 <= j < |secs| ensures LogBlock(g, e, j) == image[secs[j]] {
      assert LogBlock(g, d, j) == image[secs[j]];
    }
    assert secs[..|secs|] == secs;
    forall s | Home(g, d, s) ensures Recovered(g, e)[s] == Recovered(g, d)[s] {
      InstallForgets(g, d, e, secs, |secs|, s);
    }
  }

  /** `chain` is a sequence of boots: each next disk is what an interrupted (or complete, or not
      even begun) recovery of the disk before it left behind. */
  ghost predicate CrashChain(g: Geometry, chain: seq<Disk>) {
    && |chain| > 0
    && (forall i :: 0 <= i < |chain| ==> HeaderOk(g, chain[i]))
    && (forall i :: 0 < i < |chain| ==> chain[i] == chain[i - 1] || chain[i] in RecoveryTrace(g, chain[i - 1]))
  }

  /** However often recovery is interrupted, it ends with the disk of one uninterrupted recovery. */
  lemma {:induction false} CrashesDuringRecovery(g: Geometry, chain: seq<Disk>)
    requires CrashChain(g, chain)
    ensures Recovered(g, chain[|chain| - 1]) == Recovered(g, chain[0])
  {
    var n := |chain| - 1;
    if n > 0 {
      CrashesDuringRecovery(g, chain[..n]);
      if chain[n] != chain[n - 1] {
        var k :| 0 <= k < |RecoveryTrace(g, chain[n - 1])| && RecoveryTrace(g, chain[n - 1])[k] == chain[n];
        RecoveryRestarts(g, chain[n - 1], k);
      }
    }
  }

  // ---- Commit --------------------------------------------------------------------------------

  /** The home blocks a committed transaction stands for: the cached blocks of its sectors over
      what was on disk before. */
  ghost function Committed(d: Disk, view: Disk, secs: seq<int>): (e: Disk)
    requires |d| == |view|
    ensures |e| == |d|
  {
    seq(|d|, s requires 0 <= s < |d| => if s in secs then view[s] else d[s])
  }

  /** The log and header written, and the first k blocks installed. */
  function Installing(g: Geometry, d: Disk, view: Disk, secs: seq<int>, k: nat): (e: Disk)
    requires Loggable(g, d, secs) && |view| == |d| && k <= |secs|
    ensures |e| == |d|
  {
    Installed(g, WithHeader(g, Logged(g, d, view, secs, |secs|), secs), secs, k)
  }

  lemma InstallingHolds(g: Geometry, d: Disk, view: Disk, secs: seq<int>, k: nat)
    requires Loggable(g, d, secs) && |view| == |d| && k <= |secs|
    ensures var e := Installing(g, d, view, secs, k);
            HeaderOk(g, e) && HeaderSectors(g, e) == secs && LogHolds(g, e, view, secs, |secs|)
  {
    var n := |secs|;
    var log := Logged(g, d, view, secs, n);
    var full := WithHeader(g, log, secs);
    var e := Installing(g, d, view, secs, k);
    LoggedHolds(g, d, view, secs, n);
    HeaderSectorsOfWritten(g, log, secs);
    InstalledKeepsLog(g, full, secs, k, g.start);
    forall j | 0 <= j < n ensures LogBlock(g, e, j) == view[secs[j]] {
      InstalledKeepsLog(g, full, secs, k, g.start + 1 + j);
      assert LogBlock(g, log, j) == view[secs[j]];
    }
  }

  /** From the header write on, a crash recovers to the whole transaction. */
  lemma CommitAfterHeader(g: Geometry, d: Disk, view: Disk, secs: seq<int>, k: nat)
    requires Loggable(g, d, secs) && |view| == |d| && k <= |secs|
    ensures var e := Installing(g, d, view, secs, k);
            HeaderOk(g, e) && SameHome(g, Recovered(g, e), Committed(d, view, secs))
  {
    var e := Installing(g, d, view, secs, k);
    InstallingHolds(g, d, view, secs, k);
    assert secs[..|secs|] == secs;
    forall s | Home(g, d, s) ensures Recovered(g, e)[s] == Committed(d, view, secs)[s] {
      if s in secs {
        InstallsImage(g, e, view, secs, |secs|, s);
      } else {
        assert s !in secs[..k];
      }
    }
  }

  lemma InstallingDone(g: Geometry, d: Disk, view: Disk, secs: seq<int>)
    requires Loggable(g, d, secs) && |view| == |d|
    ensures SameHome(g, Installing(g, d, view, secs, |secs|), Committed(d, view, secs))
  {
    var e := Installing(g, d, view, secs, 0);
    InstallingHolds(g, d, view, secs, 0);
    assert secs[..|secs|] == secs;
    forall s | Home(g, d, s)
      ensures Installing(g, d, view, secs, |secs|)[s] == Committed(d, view, secs)[s]
    {
      if s in secs { InstallsImage(g, e, view, secs, |secs|, s); }
    }
  }

  /** Crash atomicity of one commit. A crash after any sector write of commit recovers to the
      home blocks from before the transaction, or to all of its blocks, and to the latter exactly
      from the header write on (the write numbered |secs|). */
  lemma CommitIsAtomic(g: Geometry, d: Disk, view: Disk, secs: seq<int>, k: nat)
    requires Loggable(g, d, secs) && |view| == |d| && d[g.start][0] == 0
    requires k < |CommitTrace(g, d, view, secs)|
    ensures var e := CommitTrace(g, d, view, secs)[k];
            && HeaderOk(g, e)
            && SameHome(g, Recovered(g, e), if k < |secs| then d else Committed(d, view, secs))
  {
    var n := |secs|;
    var e := CommitTrace(g, d, view, secs)[k];
    if k < n {
      assert e == Logged(g, d, view, secs, k + 1);
      ClearedHeaderRecoversToItself(g, e);
    } else if k < 2 * n + 1 {
      assert e == Installing(g, d, view, secs, k - n);
      CommitAfterHeader(g, d, view, secs, k - n);
    } else {
      assert e == WithHeader(g, Installing(g, d, view, secs, n), []);
      ClearedHeaderRecoversToItself(g, e);
      InstallingDone(g, d, view, secs);
    }
  }
}

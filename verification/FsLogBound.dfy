/** Which blocks one writei passes to log_write, and how many they are: the data blocks it touches, the
    bitmap blocks of what it allocates, the indirect block if it adds an entry, and the inode's block if the
    file grows. */
module FsLogBound {
  import opened Common
  import opened FsLayout
  import opened FsState
  import opened FsAlloc

  /** The number of blocks that `tot` bytes from `off` on lie in. */
  function Spanned(off: nat, tot: nat): (n: nat)
  {
    if tot == 0 then 0 else (off + tot - 1) / BSIZE - off / BSIZE + 1
  }

  // ---- The blocks logged ---------------------------------------------------------------------
  // `was` and `row` are a file's block numbers before and after, x0 and x those of its indirect block;
  // file blocks lo to hi - 1 are written.

  /** A block was missing among those written. */
  predicate Added(was: seq<nat>, lo: nat, hi: nat)
    requires hi <= |was|
  {
    exists bn :: lo <= bn < hi && was[bn] == 0
  }

  /** One that the indirect block lists was. */
  predicate EntryAdded(was: seq<nat>, lo: nat, hi: nat)
    requires hi <= |was|
  {
    exists bn :: lo <= bn < hi && NDIRECT <= bn && was[bn] == 0
  }

  function DataSet(row: seq<nat>, lo: nat, hi: nat): (s: set<nat>)
    requires hi <= |row|
  {
    set bn | lo <= bn < hi :: row[bn]
  }

  function MapSet(l: Layout, was: seq<nat>, row: seq<nat>, x0: nat, x: nat, lo: nat, hi: nat): (s: set<nat>)
    requires hi <= |row| == |was|
  {
    (set bn | lo <= bn < hi && was[bn] == 0 :: BBlock(l, row[bn]))
      + if EntryAdded(was, lo, hi) && x0 == 0 then {BBlock(l, x)} else {}
  }

  function Footprint(l: Layout, was: seq<nat>, row: seq<nat>, x0: nat, x: nat, lo: nat, hi: nat): (s: set<nat>)
    requires hi <= |row| == |was|
  {
    DataSet(row, lo, hi) + MapSet(l, was, row, x0, x, lo, hi) + if EntryAdded(was, lo, hi) then {x} else {}
  }

  /** What the rounds up to block hi - 1 have done to the file's block numbers. */
  predicate RowsOk(was: seq<nat>, row: seq<nat>, x0: nat, x: nat, lo: nat, hi: nat) {
    && |was| == |row| == MAXFILE && lo <= hi <= MAXFILE
    && (forall bn :: 0 <= bn < MAXFILE ==> row[bn] == was[bn] || (was[bn] == 0 && lo <= bn < hi))
    && (forall bn :: lo <= bn < hi ==> row[bn] != 0)
    && (x0 != 0 ==> x == x0)
    && (x0 == 0 ==> forall bn :: NDIRECT <= bn < MAXFILE ==> was[bn] == 0)
    && (EntryAdded(was, lo, hi) ==> x != 0)
    && (x != x0 ==> EntryAdded(was, lo, hi))
  }

  lemma NextFootprint(l: Layout, was: seq<nat>, prev: seq<nat>, row: seq<nat>, x0: nat, px: nat, x: nat, lo: nat, bn: nat)
    requires RowsOk(was, prev, x0, px, lo, bn) && RowsOk(was, row, x0, x, lo, bn + 1)
    requires row == prev[bn := row[bn]] && (px != 0 ==> x == px)
    ensures Footprint(l, was, row, x0, x, lo, bn + 1)
         == Footprint(l, was, prev, x0, px, lo, bn) + {row[bn]}
            + (if was[bn] != 0 then {} else {BBlock(l, row[bn])})
            + (if was[bn] != 0 || bn < NDIRECT then {} else {x})
            + (if was[bn] != 0 || bn < NDIRECT || px != 0 then {} else {BBlock(l, x)})
  {
    assert DataSet(row, lo, bn + 1) == DataSet(prev, lo, bn) + {row[bn]};
    var a, b := (set n | lo <= n < bn && was[n] == 0 :: BBlock(l, prev[n])), (set n | lo <= n < bn + 1 && was[n] == 0 :: BBlock(l, row[n]));
    assert b == a + if was[bn] != 0 then {} else {BBlock(l, row[bn])} by {
      forall n | lo <= n < bn ensures prev[n] == row[n] {}
    }
    assert EntryAdded(was, lo, bn + 1) <==> EntryAdded(was, lo, bn) || (NDIRECT <= bn && was[bn] == 0);
  }

  lemma RowAhead(was: seq<nat>, row: seq<nat>, x0: nat, x: nat, lo: nat, bn: nat)
    requires RowsOk(was, row, x0, x, lo, bn) && bn < MAXFILE
    ensures |was| == |row| == MAXFILE && was[bn] == row[bn]
  {
  }

  /** What bmap does to the file's row and indirect block and to the number of blocks in use. */
  lemma MapRow(l: Layout, u: View, w: View, i: nat, bn: nat, b: nat)
    requires Ok(l, u) && i < |u.inodes| && bn < MAXFILE && MapStep(l, u, w, i, bn, b)
    ensures i < |w.inodes| && |w.inodes[i].addrs| == NDIRECT + 1 && i < |w.tab| && w.tab[i] == u.tab[i][bn := b]
    ensures |w.owner| == |u.owner| + if u.tab[i][bn] == 0 then Takes(bn, IndexOf(u, i)) else 0
    ensures Ok(l, w) && b != 0 && (u.tab[i][bn] != 0 ==> b == u.tab[i][bn])
    ensures IndexOf(u, i) != 0 || bn < NDIRECT || u.tab[i][bn] != 0 ==> IndexOf(w, i) == IndexOf(u, i)
  {
    hide BBlock, DataKept, FsOk, Takes, AddLog;
    ShapeOf(l, u, i);
    ShapeOf(l, w, i);
  }

  /** What bmap logs, and the data block that is logged after it. */
  lemma MapLogs(l: Layout, u: View, w: View, i: nat, bn: nat, b: nat)
    requires Ok(l, u) && i < |u.inodes| && bn < MAXFILE && MapStep(l, u, w, i, bn, b)
    ensures i < |w.inodes| && |w.inodes[i].addrs| == NDIRECT + 1
    ensures var new_ := u.tab[i][bn] == 0;
            w.logged + {b} == u.logged + {b} + (if !new_ then {} else {BBlock(l, b)})
                              + (if !new_ || bn < NDIRECT then {} else {IndexOf(w, i)})
                              + (if !new_ || bn < NDIRECT || IndexOf(u, i) != 0 then {} else {BBlock(l, IndexOf(w, i))})
  {
    hide BBlock, DataKept, FsOk, Takes, AddLog;
    ShapeOf(l, u, i);
    ShapeOf(l, w, i);
    if u.tab[i][bn] == 0 { AddedLog(l, u, w, i, bn, b); }
  }

  lemma AddedLog(l: Layout, u: View, w: View, i: nat, bn: nat, b: nat)
    requires i < |u.inodes| && |u.inodes[i].addrs| == NDIRECT + 1 && i < |w.inodes| && |w.inodes[i].addrs| == NDIRECT + 1
    requires w.logged == u.logged + AddLog(l, u, w, i, bn, b)
    ensures w.logged + {b} == u.logged + {b} + {BBlock(l, b)} + (if bn < NDIRECT then {} else {IndexOf(w, i)})
                              + (if bn < NDIRECT || IndexOf(u, i) != 0 then {} else {BBlock(l, IndexOf(w, i))})
  {
    hide BBlock;
  }

  lemma EntryHasIndex(l: Layout, w: View, i: nat, bn: nat)
    requires Ok(l, w) && i < |w.inodes| && NDIRECT <= bn < MAXFILE && w.tab[i][bn] != 0
    ensures IndexOf(w, i) != 0
  {
    hide OwnOk, BitsOk, NoHoles, Word;
    assert RepOk(w.disk, w.inodes[i], w.tab[i]);
  }

  /** The file's row and indirect block go from one state to the next as bmap says. */
  lemma NextRow(l: Layout, u: View, w: View, i: nat, bn: nat, b: nat, was: seq<nat>, x0: nat, lo: nat)
    requires Ok(l, u) && i < |u.inodes| && lo <= bn < MAXFILE && MapStep(l, u, w, i, bn, b)
    requires RowsOk(was, u.tab[i], x0, IndexOf(u, i), lo, bn)
    ensures RowsOk(was, w.tab[i], x0, IndexOf(w, i), lo, bn + 1)
  {
    hide FsOk, MapStep, BBlock;
    ShapeOf(l, u, i);
    MapRow(l, u, w, i, bn, b);
    if bn >= NDIRECT { EntryHasIndex(l, w, i, bn); }
    assert EntryAdded(was, lo, bn + 1) <==> EntryAdded(was, lo, bn) || (NDIRECT <= bn && was[bn] == 0);
  }

  lemma Regroup(w: set<nat>, u: set<nat>, base: set<nat>, f: set<nat>, b: set<nat>, c: set<nat>, d: set<nat>, e: set<nat>)
    requires u == base + f && w + b == u + b + c + d + e
    ensures w + b == base + (f + b + c + d + e)
  {
  }

  /** One round: bmap, and then the data block itself. */
  lemma NextLogged(l: Layout, u: View, w: View, i: nat, bn: nat, b: nat, was: seq<nat>, x0: nat, lo: nat, base: set<nat>)
    requires Ok(l, u) && i < |u.inodes| && lo <= bn < MAXFILE && MapStep(l, u, w, i, bn, b)
    requires RowsOk(was, u.tab[i], x0, IndexOf(u, i), lo, bn)
    requires u.logged == base + Footprint(l, was, u.tab[i], x0, IndexOf(u, i), lo, bn)
    ensures RowsOk(was, w.tab[i], x0, IndexOf(w, i), lo, bn + 1)
    ensures w.logged + {b} == base + Footprint(l, was, w.tab[i], x0, IndexOf(w, i), lo, bn + 1)
  {
    hide MapStep, Footprint, FsOk, BBlock, EntryAdded, RowsOk;
    ShapeOf(l, u, i);
    RowAhead(was, u.tab[i], x0, IndexOf(u, i), lo, bn);
    MapRow(l, u, w, i, bn, b);
    MapLogs(l, u, w, i, bn, b);
    NextRow(l, u, w, i, bn, b, was, x0, lo);
    NextFootprint(l, was, u.tab[i], w.tab[i], x0, IndexOf(u, i), IndexOf(w, i), lo, bn);
    var x, px := IndexOf(w, i), IndexOf(u, i);
    Regroup(w.logged, u.logged, base, Footprint(l, was, u.tab[i], x0, px, lo, bn), {b},
            if was[bn] != 0 then {} else {BBlock(l, b)}, if was[bn] != 0 || bn < NDIRECT then {} else {x},
            if was[bn] != 0 || bn < NDIRECT || px != 0 then {} else {BBlock(l, x)});
  }

  // ---- How many blocks a write takes ---------------------------------------------------------

  /** The blocks missing among those written. */
  function Missing(was: seq<nat>, lo: nat, hi: nat): (n: nat)
    requires hi <= |was|
    ensures n <= if lo <= hi then hi - lo else 0
    decreases hi
  {
    if lo >= hi then 0 else Missing(was, lo, hi - 1) + if was[hi - 1] == 0 then 1 else 0
  }

  /** The blocks that a write takes from the free ones: those missing, and the indirect block if it is needed
      and missing. */
  function NewBlocks(was: seq<nat>, x0: nat, lo: nat, hi: nat): (n: nat)
    requires hi <= |was|
  {
    Missing(was, lo, hi) + if EntryAdded(was, lo, hi) && x0 == 0 then 1 else 0
  }

  /** What one round takes of them. */
  lemma NewStep(was: seq<nat>, row: seq<nat>, x0: nat, x: nat, lo: nat, bn: nat)
    requires RowsOk(was, row, x0, x, lo, bn) && bn < MAXFILE
    ensures NewBlocks(was, x0, lo, bn + 1) == NewBlocks(was, x0, lo, bn) + if was[bn] == 0 then Takes(bn, x) else 0
  {
    assert EntryAdded(was, lo, bn + 1) <==> EntryAdded(was, lo, bn) || (NDIRECT <= bn && was[bn] == 0);
  }

  lemma {:induction false} NewGrows(was: seq<nat>, x0: nat, lo: nat, bn: nat, hi: nat)
    requires bn <= hi <= |was|
    ensures NewBlocks(was, x0, lo, bn) <= NewBlocks(was, x0, lo, hi)
    decreases hi - bn
  {
    if bn < hi {
      NewGrows(was, x0, lo, bn, hi - 1);
      if EntryAdded(was, lo, hi - 1) { assert EntryAdded(was, lo, hi); }
    }
  }

  lemma {:induction false} MissingSplit(was: seq<nat>, row: seq<nat>, x0: nat, x: nat, lo: nat, mid: nat, lo2: nat, hi: nat)
    requires RowsOk(was, row, x0, x, lo, mid) && lo <= lo2 <= mid <= hi <= MAXFILE
    ensures Missing(was, lo, hi) == Missing(was, lo, mid) + Missing(row, lo2, hi)
    decreases hi
  {
    if mid < hi { MissingSplit(was, row, x0, x, lo, mid, lo2, hi - 1); } else { NoneMissing(row, lo2, hi); }
  }

  /** A write in two parts takes what the whole one takes. */
  lemma NewSplit(was: seq<nat>, row: seq<nat>, x0: nat, x: nat, lo: nat, mid: nat, lo2: nat, hi: nat)
    requires RowsOk(was, row, x0, x, lo, mid) && lo <= lo2 <= mid <= hi <= MAXFILE
    ensures NewBlocks(was, x0, lo, hi) == NewBlocks(was, x0, lo, mid) + NewBlocks(row, x, lo2, hi)
  {
    MissingSplit(was, row, x0, x, lo, mid, lo2, hi);
    if EntryAdded(was, lo, mid) { assert EntryAdded(was, lo, hi); }
    if EntryAdded(row, lo2, hi) {
      var bn :| lo2 <= bn < hi && NDIRECT <= bn && row[bn] == 0;
      assert was[bn] == 0 && EntryAdded(was, lo, hi);
    }
    if EntryAdded(was, lo, hi) && !EntryAdded(was, lo, mid) {
      var bn :| lo <= bn < hi && NDIRECT <= bn && was[bn] == 0;
      assert mid <= bn && row[bn] == 0;
    }
  }

  lemma RowsTwice(was: seq<nat>, mid: seq<nat>, row: seq<nat>, x0: nat, px: nat, x: nat, lo: nat, m: nat, lo2: nat, hi: nat)
    requires RowsOk(was, mid, x0, px, lo, m) && RowsOk(mid, row, px, x, lo2, hi) && lo <= lo2 <= m <= hi
    ensures RowsOk(was, row, x0, x, lo, hi)
  {
    if EntryAdded(was, lo, m) { assert EntryAdded(was, lo, hi); }
    if EntryAdded(mid, lo2, hi) {
      var bn :| lo2 <= bn < hi && NDIRECT <= bn && mid[bn] == 0;
      assert was[bn] == 0 && EntryAdded(was, lo, hi);
    }
    if EntryAdded(was, lo, hi) && !EntryAdded(was, lo, m) {
      var bn :| lo <= bn < hi && NDIRECT <= bn && was[bn] == 0;
      assert m <= bn && mid[bn] == 0 && EntryAdded(mid, lo2, hi);
    }
  }

  /** Nothing is taken where every block is there. */
  lemma {:induction false} NoneMissing(was: seq<nat>, lo: nat, hi: nat)
    requires hi <= |was| && forall bn :: lo <= bn < hi ==> was[bn] != 0
    ensures Missing(was, lo, hi) == 0
    decreases hi
  {
    if lo < hi { NoneMissing(was, lo, hi - 1); }
  }

  /** Every block in use is one of the disk's. */
  lemma UsedBound(l: Layout, v: View)
    requires Ok(l, v)
    ensures |v.owner| <= l.size
  {
    hide BitsOk, RepOk, NoHoles, TableOwned, IndexOwned;
    var all := Interval(0, l.size);
    IntervalSize(0, l.size);
    forall b | b in v.owner.Keys ensures b in all {}
    SubsetSize(v.owner.Keys, all);
    assert |v.owner| == |v.owner.Keys|;
  }

  /** With no bit clear every block of the disk is in use. */
  lemma FullUse(l: Layout, v: View)
    requires Ok(l, v) && forall c: nat :: c < l.size ==> Bit(l, v.disk, c)
    ensures |v.owner| == l.size
  {
    hide Bit, RepOk, NoHoles, TableOwned, IndexOwned;
    UsedBound(l, v);
    var all := Interval(0, l.size);
    IntervalSize(0, l.size);
    forall b | b in all ensures b in v.owner.Keys { assert Bit(l, v.disk, b); }
    SubsetSize(all, v.owner.Keys);
    assert |v.owner| == |v.owner.Keys|;
  }

  // ---- How many they are ---------------------------------------------------------------------

  lemma {:induction false} DataSize(row: seq<nat>, lo: nat, hi: nat)
    requires lo <= hi <= |row| && forall a, b :: lo <= a < b < hi ==> row[a] != row[b]
    ensures |DataSet(row, lo, hi)| == hi - lo
    decreases hi - lo
  {
    if lo < hi {
      DataSize(row, lo, hi - 1);
      assert DataSet(row, lo, hi) == DataSet(row, lo, hi - 1) + {row[hi - 1]};
    }
  }

  /** At most one bitmap block for each block allocated; the blocks below `from` were there. */
  lemma {:induction false} MapBound(l: Layout, was: seq<nat>, row: seq<nat>, lo: nat, from: nat, hi: nat)
    requires lo <= from <= hi <= |row| == |was| && forall bn :: lo <= bn < from ==> was[bn] != 0
    ensures |set bn | lo <= bn < hi && was[bn] == 0 :: BBlock(l, row[bn])| <= hi - from
    decreases hi - from
  {
    var s := set bn | lo <= bn < hi && was[bn] == 0 :: BBlock(l, row[bn]);
    if from == hi {
      assert s == {};
    } else {
      var t := set bn | lo <= bn < hi - 1 && was[bn] == 0 :: BBlock(l, row[bn]);
      MapBound(l, was, row, lo, from, hi - 1);
      SubsetSize(s, t + {BBlock(l, row[hi - 1])});
    }
  }

  lemma SameMap(l: Layout, b: nat)
    requires b < BPB
    ensures BBlock(l, b) == BBlock(l, 0)
  {
  }

  /** If one block holds the whole bitmap, it is logged once or not at all. */
  lemma OneMap(l: Layout, was: seq<nat>, row: seq<nat>, x0: nat, x: nat, lo: nat, hi: nat)
    requires hi <= |row| == |was| && l.size <= BPB && x < l.size && forall bn :: lo <= bn < hi ==> row[bn] < l.size
    ensures |MapSet(l, was, row, x0, x, lo, hi)| == if Added(was, lo, hi) then 1 else 0
  {
    hide BBlock;
    var m := MapSet(l, was, row, x0, x, lo, hi);
    forall b: nat | b < l.size ensures BBlock(l, b) == BBlock(l, 0) { SameMap(l, b); }
    if Added(was, lo, hi) {
      var bn :| lo <= bn < hi && was[bn] == 0;
      assert BBlock(l, row[bn]) in m;
      assert m == {BBlock(l, 0)};
    } else {
      assert m == {};
    }
  }

  /** What one writei logs: the blocks above, and the inode's block if the file grows. */
  function Touched(l: Layout, v: View, w: View, i: nat, off: nat, n: nat): (s: set<nat>)
    requires i < |v.inodes| && |v.inodes[i].addrs| == NDIRECT + 1 && i < |w.inodes| && |w.inodes[i].addrs| == NDIRECT + 1
    requires i < |v.tab| && i < |w.tab| && |v.tab[i]| == |w.tab[i]| == MAXFILE && off + n <= MAXFILE * BSIZE
  {
    Footprint(l, v.tab[i], w.tab[i], IndexOf(v, i), IndexOf(w, i), off / BSIZE, off / BSIZE + Spanned(off, n))
      + if off + n > v.inodes[i].size then {IBlock(i)} else {}
  }

  /** What the blocks of a write are in use for. */
  ghost predicate Kinds(l: Layout, o: map<nat, Use>, i: nat, row: seq<nat>, x: nat, lo: nat, hi: nat)
    requires hi <= |row|
  {
    && (forall bn :: lo <= bn < hi ==> Owns(o, row[bn], Data(i, bn)) && row[bn] < l.size)
    && (x != 0 ==> Owns(o, x, Index(i))) && x < l.size
    && (forall b: nat :: b < l.size ==> Owns(o, BBlock(l, b), System))
    && Owns(o, IBlock(i), System) && i < l.ninodes
  }

  lemma FrontBlocks(l: Layout, i: nat, b: nat)
    requires LayoutOk(l) && i < l.ninodes && b <= l.size
    ensures IBlock(i) < l.size && Reserved(l, IBlock(i)) && BBlock(l, b) < l.size && Reserved(l, BBlock(l, b))
  {
  }

  lemma KindsOf(l: Layout, w: View, i: nat, lo: nat, hi: nat)
    requires Ok(l, w) && i < |w.inodes| && hi <= MAXFILE && forall bn :: lo <= bn < hi ==> w.tab[i][bn] != 0
    ensures Kinds(l, w.owner, i, w.tab[i], IndexOf(w, i), lo, hi)
  {
    hide BitsOk, RepOk, NoHoles, BBlock, IBlock, Reserved;
    assert LayoutOk(l) && |w.inodes| == l.ninodes;
    FrontBlocks(l, i, 0);
    forall bn: nat | lo <= bn < hi ensures Owns(w.owner, w.tab[i][bn], Data(i, bn)) && w.tab[i][bn] < l.size {}
    if IndexOf(w, i) != 0 { assert Owns(w.owner, IndexOf(w, i), Index(i)); }
    forall b: nat | b < l.size ensures Owns(w.owner, BBlock(l, b), System) { FrontBlocks(l, i, b); }
  }

  lemma InodesBeforeMaps(l: Layout, i: nat, b: nat)
    requires i < l.ninodes
    ensures IBlock(i) < BBlock(l, b)
  {
  }

  /** Blocks of different kinds are different, so that the parts add up. */
  lemma PartsDiffer(l: Layout, o: map<nat, Use>, i: nat, was: seq<nat>, row: seq<nat>, x0: nat, x: nat, lo: nat, hi: nat)
    requires lo <= hi <= |row| == |was| && Kinds(l, o, i, row, x, lo, hi) && (EntryAdded(was, lo, hi) ==> x != 0)
    ensures var data, maps := DataSet(row, lo, hi), MapSet(l, was, row, x0, x, lo, hi);
            && |data| == hi - lo && data !! maps && IBlock(i) !in data && IBlock(i) !in maps
            && (EntryAdded(was, lo, hi) ==> x !in data && x !in maps && x != IBlock(i))
  {
    assert forall a, b :: lo <= a < b < hi ==> o[row[a]] != o[row[b]];
    DataSize(row, lo, hi);
    var data, maps := DataSet(row, lo, hi), MapSet(l, was, row, x0, x, lo, hi);
    assert forall d :: d in data ==> d in o && o[d].Data?;
    forall b: nat ensures BBlock(l, b) != IBlock(i) { InodesBeforeMaps(l, i, b); }
    hide BBlock, IBlock, Added;
    assert forall m :: m in maps ==> Owns(o, m, System) && m != IBlock(i);
  }

  lemma AddUp(d: set<nat>, m: set<nat>, e: set<nat>, f: set<nat>)
    requires d !! m && d !! e && d !! f && m !! e && m !! f && e !! f
    ensures |d + m + e + f| == |d| + |m| + |e| + |f|
  {
    assert |d + m| == |d| + |m|;
    assert |d + m + e| == |d + m| + |e|;
  }

  /** The exact number of blocks that one writei logs. */
  lemma TouchedSize(l: Layout, v: View, w: View, i: nat, off: nat, n: nat)
    requires Ok(l, v) && Ok(l, w) && i < |v.inodes| == |w.inodes| && off + n <= MAXFILE * BSIZE
    requires RowsOk(v.tab[i], w.tab[i], IndexOf(v, i), IndexOf(w, i), off / BSIZE, off / BSIZE + Spanned(off, n))
    ensures var lo, hi := off / BSIZE, off / BSIZE + Spanned(off, n);
            |Touched(l, v, w, i, off, n)| == Spanned(off, n)
              + |MapSet(l, v.tab[i], w.tab[i], IndexOf(v, i), IndexOf(w, i), lo, hi)|
              + (if EntryAdded(v.tab[i], lo, hi) then 1 else 0) + (if off + n > v.inodes[i].size then 1 else 0)
  {
    hide FsOk, DataSet, MapSet, EntryAdded;
    ShapeOf(l, v, i);
    ShapeOf(l, w, i);
    var lo, hi := off / BSIZE, off / BSIZE + Spanned(off, n);
    var was, row, x0, x := v.tab[i], w.tab[i], IndexOf(v, i), IndexOf(w, i);
    KindsOf(l, w, i, lo, hi);
    PartsDiffer(l, w.owner, i, was, row, x0, x, lo, hi);
    var e: set<nat> := if EntryAdded(was, lo, hi) then {x} else {};
    var f: set<nat> := if off + n > v.inodes[i].size then {IBlock(i)} else {};
    AddUp(DataSet(row, lo, hi), MapSet(l, was, row, x0, x, lo, hi), e, f);
  }

  /** The block in which an unaligned write starts is there. */
  lemma FirstThere(ino: Inode, row: seq<nat>, off: nat, n: nat)
    requires |row| == MAXFILE && NoHoles(ino, row) && off <= ino.size <= MAXFILE * BSIZE && off + n <= MAXFILE * BSIZE
    ensures off % BSIZE != 0 ==> off / BSIZE < MAXFILE && row[off / BSIZE] != 0
    ensures n > 0 ==> Spanned(off, n) >= 1
  {
  }

  /** At least the data blocks; at most those, a bitmap block for each, and three more. */
  lemma TouchedBounds(l: Layout, v: View, w: View, i: nat, off: nat, n: nat)
    requires Ok(l, v) && Ok(l, w) && i < |v.inodes| == |w.inodes| && off <= v.inodes[i].size && off + n <= MAXFILE * BSIZE
    requires RowsOk(v.tab[i], w.tab[i], IndexOf(v, i), IndexOf(w, i), off / BSIZE, off / BSIZE + Spanned(off, n))
    ensures Spanned(off, n) <= |Touched(l, v, w, i, off, n)|
         <= 2 * Spanned(off, n) + 3 - (if off % BSIZE != 0 && n > 0 then 1 else 0)
  {
    hide Touched, FsOk, EntryAdded, MapSet, NoHoles, Spanned;
    ShapeOf(l, v, i);
    ShapeOf(l, w, i);
    TouchedSize(l, v, w, i, off, n);
    var lo, hi := off / BSIZE, off / BSIZE + Spanned(off, n);
    var was, row := v.tab[i], w.tab[i];
    FirstThere(v.inodes[i], was, off, n);
    var from := if off % BSIZE != 0 && n > 0 then lo + 1 else lo;
    MapSetBound(l, was, row, IndexOf(v, i), IndexOf(w, i), lo, from, hi);
  }

  lemma MapSetBound(l: Layout, was: seq<nat>, row: seq<nat>, x0: nat, x: nat, lo: nat, from: nat, hi: nat)
    requires lo <= from <= hi <= |row| == |was| && forall bn :: lo <= bn < from ==> was[bn] != 0
    ensures |MapSet(l, was, row, x0, x, lo, hi)| <= hi - from + 1
  {
    hide EntryAdded;
    MapBound(l, was, row, lo, from, hi);
    var s := set bn | lo <= bn < hi && was[bn] == 0 :: BBlock(l, row[bn]);
    SubsetSize(MapSet(l, was, row, x0, x, lo, hi), s + {BBlock(l, x)});
  }

  // ---- What a caller can compute -------------------------------------------------------------

  /** A file has no blocks past its end. */
  predicate Snug(ino: Inode, row: seq<nat>) {
    forall bn :: 0 <= bn < |row| && row[bn] != 0 ==> bn * BSIZE < ino.size
  }

  /** The blocks that a write of n bytes at off logs, in a file of `size` bytes: those it spans; the bitmap if
      the last one is new; the indirect block if that one is listed there; the inode's if the file grows. */
  function LogCount(off: nat, n: nat, size: nat): (c: nat)
  {
    if n == 0 then 0
    else
      var last := (off + n - 1) / BSIZE;
      Spanned(off, n) + (if last * BSIZE < size then 0 else if last < NDIRECT then 1 else 2) + if off + n > size then 1 else 0
  }

  /** With one bitmap block the offset, the length and the file's size decide the number of blocks logged. */
  lemma CountIs(l: Layout, v: View, w: View, i: nat, off: nat, n: nat)
    requires Ok(l, v) && Ok(l, w) && i < |v.inodes| == |w.inodes| && off <= v.inodes[i].size && off + n <= MAXFILE * BSIZE
    requires RowsOk(v.tab[i], w.tab[i], IndexOf(v, i), IndexOf(w, i), off / BSIZE, off / BSIZE + Spanned(off, n))
    requires l.size <= BPB && Snug(v.inodes[i], v.tab[i])
    ensures |Touched(l, v, w, i, off, n)| == LogCount(off, n, v.inodes[i].size)
  {
    hide Touched, FsOk, MapSet, EntryAdded, Added;
    ShapeOf(l, v, i);
    ShapeOf(l, w, i);
    TouchedSize(l, v, w, i, off, n);
    var lo, hi := off / BSIZE, off / BSIZE + Spanned(off, n);
    KindsOf(l, w, i, lo, hi);
    OneMap(l, v.tab[i], w.tab[i], IndexOf(v, i), IndexOf(w, i), lo, hi);
    LastDecides(v.inodes[i], v.tab[i], lo, hi);
  }

  /** The blocks missing are those from the end of the file on. */
  lemma {:induction false} MissingIs(ino: Inode, row: seq<nat>, lo: nat, hi: nat)
    requires |row| == MAXFILE && lo <= hi <= MAXFILE && NoHoles(ino, row) && Snug(ino, row)
    ensures var have := (ino.size + BSIZE - 1) / BSIZE;
            Missing(row, lo, hi) == if hi <= have then 0 else hi - if lo < have then have else lo
    decreases hi
  {
    if lo < hi { MissingIs(ino, row, lo, hi - 1); }
  }

  /** Some block written was missing if and only if the last one was. */
  lemma LastDecides(ino: Inode, row: seq<nat>, lo: nat, hi: nat)
    requires |row| == MAXFILE && lo <= hi <= MAXFILE && NoHoles(ino, row) && Snug(ino, row)
    ensures Added(row, lo, hi) <==> lo < hi && (hi - 1) * BSIZE >= ino.size
    ensures EntryAdded(row, lo, hi) <==> lo < hi && (hi - 1) * BSIZE >= ino.size && NDIRECT <= hi - 1
  {
    if lo < hi && row[hi - 1] == 0 { assert Added(row, lo, hi); }
  }

  // ---- filewrite's pieces --------------------------------------------------------------------

  /** filewrite's largest piece: ((LOGSIZE-1-1-2)/2)*512 bytes. */
  const MAXPIECE := (LOGSIZE - 1 - 1 - 2) / 2 * 512

  /** It logs at most LOGSIZE blocks wherever it starts and however the bitmap is laid out; 17 if the bitmap is
      one block. */
  lemma PieceFits(off: nat, n: nat, size: nat)
    requires n <= MAXPIECE
    ensures 2 * Spanned(off, n) - (if off % BSIZE != 0 && n > 0 then 1 else 0) + 3 <= LOGSIZE
    ensures LogCount(off, n, size) <= 17
  {
  }

  /** But not within what begin_op reserves, MAXOPBLOCKS: no piece of more than ten blocks keeps to that, and so
      the largest piece never does; every piece of at most six blocks does. */
  lemma PieceBudget(off: nat, n: nat, size: nat)
    requires n <= MAXPIECE && off <= size
    ensures n > MAXOPBLOCKS * BSIZE ==> LogCount(off, n, size) > MAXOPBLOCKS
    ensures n <= 6 * BSIZE ==> LogCount(off, n, size) <= MAXOPBLOCKS
    ensures n == MAXPIECE ==> LogCount(off, n, size) >= 13
  {
  }

  /** Appending to a file that ends at a block boundary: within what begin_op reserves exactly up to eight
      blocks, or seven if they are listed in the indirect block. */
  lemma AppendBudget(size: nat, n: nat)
    requires 0 < n <= MAXPIECE && size % BSIZE == 0
    ensures LogCount(size, n, size) <= MAXOPBLOCKS <==>
            n <= if (size + n - 1) / BSIZE < NDIRECT then 8 * BSIZE else 7 * BSIZE
  {
  }
}

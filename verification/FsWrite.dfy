/** The loop of writei: what holds after every round. */
module FsWrite {
  import opened FsLayout
  import opened FsState
  import opened FsAlloc
  import opened FsBytes
  import opened FsLogBound

  /** From state v, the first `tot` bytes of src have been written to file i from off0 on. */
  ghost predicate BytesOk(l: Layout, v: View, w: View, i: nat, src: seq<byte>, off0: nat, tot: nat) {
    && Ok(l, v) && i < |v.inodes| && tot <= |src| && off0 + |src| <= MAXFILE * BSIZE && off0 <= v.inodes[i].size
    && Ok(l, w) && OthersKept(v, w, i) && InodesKept(v, w, i)
    && Written(l, v, w, i, off0, src[..tot])
    && (off0 + tot <= v.inodes[i].size ==> w.inodes == v.inodes)
  }

  /** The file's blocks and how many blocks are in use, after writing blocks lo to hi - 1. */
  ghost predicate UseAt(v: View, w: View, i: nat, lo: nat, hi: nat) {
    && i < |v.inodes| && |v.inodes[i].addrs| == NDIRECT + 1 && i < |w.inodes| && |w.inodes[i].addrs| == NDIRECT + 1
    && i < |v.tab| && i < |w.tab|
    && RowsOk(v.tab[i], w.tab[i], IndexOf(v, i), IndexOf(w, i), lo, hi)
    && |w.owner| == |v.owner| + NewBlocks(v.tab[i], IndexOf(v, i), lo, hi)
  }

  /** And what has been logged. */
  ghost predicate LogAt(l: Layout, v: View, w: View, i: nat, lo: nat, hi: nat) {
    && UseAt(v, w, i, lo, hi)
    && w.logged == v.logged + Footprint(l, v.tab[i], w.tab[i], IndexOf(v, i), IndexOf(w, i), lo, hi)
  }

  /** The same, after writing the blocks that `tot` bytes span. */
  ghost predicate LogOk(l: Layout, v: View, w: View, i: nat, off0: nat, tot: nat) {
    LogAt(l, v, w, i, off0 / BSIZE, off0 / BSIZE + Spanned(off0, tot))
  }

  ghost predicate RoundsOk(l: Layout, v: View, w: View, i: nat, src: seq<byte>, off0: nat, tot: nat) {
    BytesOk(l, v, w, i, src, off0, tot) && LogOk(l, v, w, i, off0, tot)
  }

  lemma NoRounds(l: Layout, v: View, i: nat, src: seq<byte>, off0: nat)
    requires Ok(l, v) && i < |v.inodes| && off0 + |src| <= MAXFILE * BSIZE && off0 <= v.inodes[i].size
    ensures RoundsOk(l, v, v, i, src, off0, 0)
  {
    assert RepOk(v.disk, v.inodes[i], v.tab[i]);
    assert src[..0] == [];
    var lo := off0 / BSIZE;
    assert Footprint(l, v.tab[i], v.tab[i], IndexOf(v, i), IndexOf(v, i), lo, lo) == {};
  }

  /** Rounds start at the beginning of the data or of a block. */
  predicate AtEdge(n: nat, tot: nat, off: nat) {
    tot == n || tot == 0 || off % BSIZE == 0
  }

  lemma SpanGrows(off0: nat, tot: nat, m: nat)
    requires m > 0 && (off0 + tot) % BSIZE + m <= BSIZE
    requires tot == 0 || (off0 + tot) % BSIZE == 0
    ensures Spanned(off0, tot + m) == Spanned(off0, tot) + 1
    ensures off0 / BSIZE + Spanned(off0, tot) == (off0 + tot) / BSIZE
  {
  }

  /** A block below the size, or the one an unaligned write starts in, is not allocated anew. */
  lemma AlreadyThere(l: Layout, v: View, w: View, i: nat, src: seq<byte>, off0: nat, tot: nat)
    requires BytesOk(l, v, w, i, src, off0, tot) && tot < |src|
    requires off0 + tot < v.inodes[i].size || (tot == 0 && off0 % BSIZE != 0)
    ensures w.tab[i][(off0 + tot) / BSIZE] != 0
  {
    var k := if off0 + tot < v.inodes[i].size then off0 + tot else off0 - 1;
    HasBytes(l, v, i, k);
    assert !(off0 <= k < off0 + tot);
    assert HasByte(w, i, k);
    assert k / BSIZE == (off0 + tot) / BSIZE;
  }

  lemma NextInodes(l: Layout, v: View, u: View, mid: View, i: nat, src: seq<byte>, off0: nat, tot: nat, m: nat,
                   bn: nat, b: nat)
    requires BytesOk(l, v, u, i, src, off0, tot) && tot < tot + m <= |src|
    requires bn < MAXFILE && bn == (off0 + tot) / BSIZE && MapStep(l, u, mid, i, bn, b)
    ensures InodesKept(v, mid, i)
    ensures off0 + tot + m <= v.inodes[i].size ==> mid.inodes == v.inodes
  {
    if off0 + tot < v.inodes[i].size { AlreadyThere(l, v, u, i, src, off0, tot); }
  }

  lemma Combine(l: Layout, v: View, u: View, w: View, i: nat, src: seq<byte>, off0: nat, tot: nat, chunk: seq<byte>)
    requires tot + |chunk| <= |src| && chunk == src[tot..tot + |chunk|]
    requires BytesOk(l, v, u, i, src, off0, tot)
    requires Ok(l, w) && OthersKept(u, w, i) && Written(l, u, w, i, off0 + tot, chunk) && InodesKept(v, w, i)
    requires off0 + tot + |chunk| <= v.inodes[i].size ==> w.inodes == v.inodes
    ensures BytesOk(l, v, w, i, src, off0, tot + |chunk|)
  {
    hide FsOk;
    OthersTwice(v, u, w, i);
    assert src[..tot] + chunk == src[..tot + |chunk|];
    WrittenAppend(l, v, u, w, i, off0, src[..tot], chunk);
  }

  lemma NextBytes(l: Layout, v: View, u: View, mid: View, w: View, i: nat, src: seq<byte>, off0: nat, tot: nat,
                  chunk: seq<byte>, bn: nat, b: nat)
    requires 0 < |chunk| && tot + |chunk| <= |src| && chunk == src[tot..tot + |chunk|]
    requires (off0 + tot) % BSIZE + |chunk| <= BSIZE && bn < MAXFILE && bn == (off0 + tot) / BSIZE
    requires b < |mid.disk| && w == Patched(mid, b, off0 + tot, chunk)
    requires BytesOk(l, v, u, i, src, off0, tot) && MapStep(l, u, mid, i, bn, b)
    ensures BytesOk(l, v, w, i, src, off0, tot + |chunk|)
  {
    hide FsOk;
    NextInodes(l, v, u, mid, i, src, off0, tot, |chunk|, bn, b);
    RoundBytes(l, u, mid, i, off0 + tot, chunk, b);
    Combine(l, v, u, w, i, src, off0, tot, chunk);
  }

  lemma LogStep(l: Layout, v: View, u: View, mid: View, w: View, i: nat, lo: nat, bn: nat, b: nat)
    requires Ok(l, u) && i < |u.inodes| && lo <= bn < MAXFILE && LogAt(l, v, u, i, lo, bn) && MapStep(l, u, mid, i, bn, b)
    requires w.inodes == mid.inodes && w.tab == mid.tab && w.owner == mid.owner && w.logged == mid.logged + {b}
    ensures LogAt(l, v, w, i, lo, bn + 1)
  {
    hide Footprint, RowsOk, FsOk, MapStep, NewBlocks, Takes;
    MapRow(l, u, mid, i, bn, b);
    RowAhead(v.tab[i], u.tab[i], IndexOf(v, i), IndexOf(u, i), lo, bn);
    NewStep(v.tab[i], u.tab[i], IndexOf(v, i), IndexOf(u, i), lo, bn);
    NextLogged(l, u, mid, i, bn, b, v.tab[i], IndexOf(v, i), lo, v.logged);
  }

  lemma NextLog(l: Layout, v: View, u: View, mid: View, w: View, i: nat, src: seq<byte>, off0: nat, tot: nat, m: nat, b: nat)
    requires Ok(l, u) && i < |u.inodes| && off0 + tot < MAXFILE * BSIZE && 0 < m && (off0 + tot) % BSIZE + m <= BSIZE
    requires AtEdge(|src|, tot, off0 + tot) && tot < |src|
    requires LogOk(l, v, u, i, off0, tot)
    requires MapStep(l, u, mid, i, (off0 + tot) / BSIZE, b)
    requires w.inodes == mid.inodes && w.tab == mid.tab && w.owner == mid.owner && w.logged == mid.logged + {b}
    ensures LogOk(l, v, w, i, off0, tot + m)
  {
    hide LogAt, FsOk, MapStep, Spanned;
    SpanGrows(off0, tot, m);
    LogStep(l, v, u, mid, w, i, off0 / BSIZE, (off0 + tot) / BSIZE, b);
  }

  /** The blocks that a write of n bytes at off takes from the free ones. */
  function BlocksTaken(v: View, i: nat, off: nat, n: nat): (c: nat)
    requires i < |v.inodes| && |v.inodes[i].addrs| == NDIRECT + 1 && i < |v.tab| && |v.tab[i]| == MAXFILE
    requires off + n <= MAXFILE * BSIZE
  {
    NewBlocks(v.tab[i], IndexOf(v, i), off / BSIZE, off / BSIZE + Spanned(off, n))
  }

  /** Fewer blocks are free than a write takes, and the file is to grow by it. */
  predicate TooFew(l: Layout, v: View, i: nat, off: nat, n: nat) {
    && i < |v.inodes| && |v.inodes[i].addrs| == NDIRECT + 1 && i < |v.tab| && |v.tab[i]| == MAXFILE
    && off + n <= MAXFILE * BSIZE
    && |v.owner| + BlocksTaken(v, i, off, n) > l.size && off + n > v.inodes[i].size
  }

  /** When a round finds too few free blocks, there were too few for the whole write, and the file was to grow. */
  lemma RunsOut(l: Layout, v: View, u: View, i: nat, src: seq<byte>, off0: nat, tot: nat)
    requires BytesOk(l, v, u, i, src, off0, tot) && LogOk(l, v, u, i, off0, tot) && tot < |src|
    requires AtEdge(|src|, tot, off0 + tot) && (off0 + tot) / BSIZE < MAXFILE && u.tab[i][(off0 + tot) / BSIZE] == 0
    requires |u.owner| + Takes((off0 + tot) / BSIZE, IndexOf(u, i)) > l.size
    ensures TooFew(l, v, i, off0, |src|)
  {
    hide Footprint, FsOk, NewBlocks, Takes, Written, OthersKept;
    ShapeOf(l, v, i);
    var lo, bn := off0 / BSIZE, (off0 + tot) / BSIZE;
    SpanGrows(off0, tot, 1);
    RowAhead(v.tab[i], u.tab[i], IndexOf(v, i), IndexOf(u, i), lo, bn);
    NewStep(v.tab[i], u.tab[i], IndexOf(v, i), IndexOf(u, i), lo, bn);
    SpanWidens(off0, tot, |src|);
    NewGrows(v.tab[i], IndexOf(v, i), lo, bn + 1, lo + Spanned(off0, |src|));
    if off0 + tot < v.inodes[i].size { AlreadyThere(l, v, u, i, src, off0, tot); }
  }

  lemma SpanWidens(off: nat, tot: nat, n: nat)
    requires tot < n && off + n <= MAXFILE * BSIZE
    ensures (off + tot) / BSIZE < off / BSIZE + Spanned(off, n) <= MAXFILE
  {
  }

  /** After the last round: the size is brought up to date, and the file has its new contents. */
  ghost function Finished(w: View, i: nat, end: nat): (x: View)
    requires i < |w.inodes|
  {
    if end > w.inodes[i].size then w.(inodes := w.inodes[i := w.inodes[i].(size := end)]) else w
  }

  lemma FinishOk(l: Layout, v: View, w: View, i: nat, src: seq<byte>, off0: nat)
    requires BytesOk(l, v, w, i, src, off0, |src|)
    ensures var x := Finished(w, i, off0 + |src|);
            Ok(l, x) && OthersKept(v, x, i) && Written(l, v, x, i, off0, src)
  {
    assert src[..|src|] == src;
    var x := Finished(w, i, off0 + |src|);
    if off0 + |src| > w.inodes[i].size { GrowKeepsOk(l, v, w, i, off0, src); }
    assert x.tab == w.tab && x.disk == w.disk;
    assert forall k: nat :: k < MAXFILE * BSIZE ==> FileByte(l, x, i, k) == FileByte(l, w, i, k);
  }

  lemma Finish(l: Layout, v: View, w: View, i: nat, src: seq<byte>, off0: nat)
    requires BytesOk(l, v, w, i, src, off0, |src|)
    ensures var x := Finished(w, i, off0 + |src|);
            && Ok(l, x) && |x.inodes| == |v.inodes|
            && Bytes(l, x, i) == Splice(Bytes(l, v, i), off0, src)
            && (forall j: nat :: j < |v.inodes| && j != i ==> Bytes(l, x, j) == Bytes(l, v, j) && x.inodes[j] == v.inodes[j])
            && x.inodes[i].kind == v.inodes[i].kind && x.inodes[i].nlink == v.inodes[i].nlink
  {
    FinishOk(l, v, w, i, src, off0);
    var x := Finished(w, i, off0 + |src|);
    WrittenBytes(l, v, x, i, off0, src);
    forall j: nat | j < |v.inodes| && j != i ensures Bytes(l, x, j) == Bytes(l, v, j) {
      OthersBytes(l, v, x, i, j);
    }
  }

  /** The other inodes are as they were, and all of them are unless the file has grown. */
  lemma InodesSame(l: Layout, v: View, w: View, i: nat, src: seq<byte>, off0: nat)
    requires BytesOk(l, v, w, i, src, off0, |src|)
    ensures Ok(l, v) && Ok(l, w) && i < |v.inodes| && off0 <= v.inodes[i].size && off0 + |src| <= MAXFILE * BSIZE
    ensures |w.inodes| == |v.inodes| && w.inodes[i].size == v.inodes[i].size
    ensures forall j :: 0 <= j < |v.inodes| && j != i ==> w.inodes[j] == v.inodes[j]
    ensures off0 + |src| <= v.inodes[i].size ==> w.inodes == v.inodes
  {
  }

  /** The blocks of the written file stay below its new end, and other files are not touched. */
  lemma FinishSnug(l: Layout, v: View, w: View, i: nat, src: seq<byte>, off0: nat)
    requires BytesOk(l, v, w, i, src, off0, |src|) && LogOk(l, v, w, i, off0, |src|) && AllSnug(v)
    ensures AllSnug(Finished(w, i, off0 + |src|))
  {
    hide FsOk, Footprint, Written;
    var x := Finished(w, i, off0 + |src|);
    forall k | 0 <= k < |x.inodes| ensures Snug(x.inodes[k], x.tab[k]) {
      assert Snug(v.inodes[k], v.tab[k]);
    }
  }

  lemma SnugAttrs(v: View, i: nat, kind: int, nlink: int)
    requires AllSnug(v) && i < |v.inodes|
    ensures AllSnug(SetAttrs(v, i, kind, nlink))
  {
    var w := SetAttrs(v, i, kind, nlink);
    forall k | 0 <= k < |w.inodes| ensures Snug(w.inodes[k], w.tab[k]) {
      assert Snug(v.inodes[k], v.tab[k]);
    }
  }

  ghost predicate AllSnug(v: View) {
    |v.inodes| == |v.tab| && forall i :: 0 <= i < |v.inodes| ==> Snug(v.inodes[i], v.tab[i])
  }

  /** How many blocks the whole write has taken. */
  lemma FinishUse(l: Layout, v: View, w: View, i: nat, src: seq<byte>, off0: nat)
    requires BytesOk(l, v, w, i, src, off0, |src|) && LogOk(l, v, w, i, off0, |src|)
    ensures UseAt(v, w, i, off0 / BSIZE, off0 / BSIZE + Spanned(off0, |src|)) && |w.owner| <= l.size
  {
    hide FsOk, Footprint, Written, RowsOk, Spanned, NewBlocks;
    UsedBound(l, w);
  }

  /** How many blocks the whole write has logged. */
  ghost predicate CountOk(l: Layout, v: View, i: nat, off0: nat, n: nat, more: set<nat>)
    requires i < |v.inodes|
  {
    && Spanned(off0, n) <= |more| <= 2 * Spanned(off0, n) + 3 - (if off0 % BSIZE != 0 && n > 0 then 1 else 0)
    && (l.size <= BPB && AllSnug(v) ==> |more| == LogCount(off0, n, v.inodes[i].size))
  }

  lemma FinishCount(l: Layout, v: View, w: View, i: nat, src: seq<byte>, off0: nat)
    requires BytesOk(l, v, w, i, src, off0, |src|) && LogOk(l, v, w, i, off0, |src|)
    ensures |v.tab[i]| == |w.tab[i]| == MAXFILE
    ensures w.logged + (if off0 + |src| > v.inodes[i].size then {IBlock(i)} else {})
         == v.logged + Touched(l, v, w, i, off0, |src|)
    ensures CountOk(l, v, i, off0, |src|, Touched(l, v, w, i, off0, |src|))
  {
    hide FsOk, Footprint, Written, RowsOk, Spanned, NewBlocks, LogCount, OthersKept, IBlock;
    ShapeOf(l, v, i);
    ShapeOf(l, w, i);
    TouchedBounds(l, v, w, i, off0, |src|);
    if l.size <= BPB && AllSnug(v) {
      assert Snug(v.inodes[i], v.tab[i]);
      CountIs(l, v, w, i, off0, |src|);
    }
  }

  /** What a successful writei leaves: the bytes, the other files, the blocks logged and the blocks taken. */
  ghost predicate WriteDone(l: Layout, v: View, x: View, i: nat, src: seq<byte>, off0: nat)
    requires Ok(l, v) && i < |v.inodes| && off0 <= v.inodes[i].size
  {
    && Ok(l, x) && |x.inodes| == |v.inodes| && off0 + |src| <= MAXFILE * BSIZE && (AllSnug(v) ==> AllSnug(x))
    && Bytes(l, x, i) == Splice(Bytes(l, v, i), off0, src)
    && (forall j: nat :: j < |v.inodes| && j != i ==> Bytes(l, x, j) == Bytes(l, v, j) && x.inodes[j] == v.inodes[j])
    && x.inodes[i].kind == v.inodes[i].kind && x.inodes[i].nlink == v.inodes[i].nlink
    && x.logged == v.logged + Touched(l, v, x, i, off0, |src|)
    && CountOk(l, v, i, off0, |src|, Touched(l, v, x, i, off0, |src|))
    && UseAt(v, x, i, off0 / BSIZE, off0 / BSIZE + Spanned(off0, |src|)) && |x.owner| <= l.size
  }

  lemma DoneFacts(l: Layout, v: View, x: View, i: nat, src: seq<byte>, off0: nat)
    requires Ok(l, v) && i < |v.inodes| && off0 <= v.inodes[i].size && WriteDone(l, v, x, i, src, off0)
    ensures Ok(l, x) && (AllSnug(v) ==> AllSnug(x)) && |x.inodes| == |v.inodes|
    ensures !TooFew(l, v, i, off0, |src|)
  {
    hide AllSnug;
    ShapeOf(l, v, i);
  }

  lemma FinishAll(l: Layout, v: View, w: View, i: nat, src: seq<byte>, off0: nat, x: View)
    requires BytesOk(l, v, w, i, src, off0, |src|) && LogOk(l, v, w, i, off0, |src|)
    requires x == Finished(w, i, off0 + |src|).(logged := x.logged)
    requires x.logged == w.logged + if off0 + |src| > w.inodes[i].size then {IBlock(i)} else {}
    ensures WriteDone(l, v, x, i, src, off0)
  {
    hide FsOk, BytesOk, LogOk, Bytes, Splice, Spanned, Footprint, Snug, CountOk, NewBlocks, IBlock;
    InodesSame(l, v, w, i, src, off0);
    ShapeOf(l, v, i);
    ShapeOf(l, w, i);
    var y := Finished(w, i, off0 + |src|);
    Finish(l, v, w, i, src, off0);
    FinishCount(l, v, w, i, src, off0);
    if AllSnug(v) { FinishSnug(l, v, w, i, src, off0); }
    assert x.inodes[i].addrs == w.inodes[i].addrs && x.tab == w.tab;
    assert Touched(l, v, x, i, off0, |src|) == Touched(l, v, w, i, off0, |src|);
    FinishUse(l, v, w, i, src, off0);
    BytesOfFiles(l, y, x);
  }
}

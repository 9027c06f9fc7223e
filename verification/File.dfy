/** file.c: writing to an open file, one log transaction for each piece. */
module File {
  import opened Common
  import opened FsLayout
  import opened FsState
  import opened FsAlloc
  import opened FsBytes
  import opened FsLogBound
  import opened FsWrite
  import opened Fs

  datatype WriteResult = Wrote(n: nat) | Failed | OnDevice | Panicked

  lemma SpliceTwice(s: seq<byte>, off: nat, a: seq<byte>, b: seq<byte>)
    requires off <= |s|
    ensures off + |a| <= |Splice(s, off, a)|
    ensures Splice(Splice(s, off, a), off + |a|, b) == Splice(s, off, a + b)
  {
    var x, y := Splice(Splice(s, off, a), off + |a|, b), Splice(s, off, a + b);
    assert |x| == |y|;
    assert forall k :: 0 <= k < |x| ==> x[k] == y[k];
  }

  /** How many bytes the pieces of an n-byte write from off get written: all of them, unless one
      piece would start past the end of the file or reach past the largest file. */
  function Accepted(size: nat, off: nat, n: nat): (i: nat)
    ensures i <= n
    ensures i == n <==> n == 0 || (off <= size && off + n <= MAXFILE * BSIZE)
    ensures i < n && off <= size ==> MAXFILE * BSIZE < off + i + MAXPIECE
    decreases n
  {
    var n1 := if n > MAXPIECE then MAXPIECE else n;
    if n == 0 || off > size || off + n1 > MAXFILE * BSIZE then 0
    else n1 + Accepted(if size < off + n1 then off + n1 else size, off + n1, n - n1)
  }

  /** The number of blocks that each piece logs, if one block holds the whole bitmap. */
  function PieceCounts(size: nat, off: nat, n: nat): (c: seq<nat>)
    decreases n
  {
    var n1 := if n > MAXPIECE then MAXPIECE else n;
    if n == 0 || off > size || off + n1 > MAXFILE * BSIZE then []
    else [LogCount(off, n1, size)] + PieceCounts(if size < off + n1 then off + n1 else size, off + n1, n - n1)
  }

  /** Every piece keeps to what begin_op reserves. */
  predicate WithinReserve(counts: seq<nat>) {
    forall k :: 0 <= k < |counts| ==> counts[k] <= MAXOPBLOCKS
  }

  /** A write of more than one piece never keeps to what begin_op reserves. A write of one piece does if and
      only if its offset, its length and the file's size make it log that few blocks. */
  lemma WriteBudget(size: nat, off: nat, n: nat)
    requires off <= size && off + n <= MAXFILE * BSIZE && n > 0
    ensures WithinReserve(PieceCounts(size, off, n)) <==> n < MAXPIECE && LogCount(off, n, size) <= MAXOPBLOCKS
  {
    var counts := PieceCounts(size, off, n);
    var n1 := if n > MAXPIECE then MAXPIECE else n;
    PieceBudget(off, n1, size);
    assert counts[0] == LogCount(off, n1, size);
    if n < MAXPIECE { assert PieceCounts(if size < off + n then off + n else size, off + n, 0) == []; }
  }

  lemma NoPiece(size: nat, off: nat)
    ensures PieceCounts(size, off, 0) == []
  {
  }

  /** The pieces that are left, and those after the next one. */
  lemma NextPiece(counts: seq<nat>, size: nat, off: nat, n: nat, all: seq<nat>)
    requires n > 0 && counts + PieceCounts(size, off, n) == all
    ensures var n1 := if n > MAXPIECE then MAXPIECE else n;
            if off > size || off + n1 > MAXFILE * BSIZE then counts == all
            else counts + [LogCount(off, n1, size)] + PieceCounts(if size < off + n1 then off + n1 else size, off + n1, n - n1) == all
  {
  }

  /** After i bytes: the file is s with those bytes spliced in, and the rest of the pieces decide
      about the rest of the bytes. */
  predicate SoFar(s: seq<byte>, cur: seq<byte>, off0: nat, addr: seq<byte>, i: nat) {
    && i <= |addr|
    && (i == 0 ==> cur == s)
    && (i > 0 ==> off0 <= |s| && off0 + i <= |cur| && cur == Splice(s, off0, addr[..i]))
    && Accepted(|s|, off0, |addr|) == i + Accepted(|cur|, off0 + i, |addr| - i)
  }

  lemma OnePieceMore(s: seq<byte>, cur: seq<byte>, next: seq<byte>, off0: nat, addr: seq<byte>, i: nat, n1: nat)
    requires SoFar(s, cur, off0, addr, i) && i < |addr| && n1 == if |addr| - i > MAXPIECE then MAXPIECE else |addr| - i
    requires off0 + i <= |cur| && off0 + i + n1 <= MAXFILE * BSIZE && next == Splice(cur, off0 + i, addr[i..i + n1])
    ensures SoFar(s, next, off0, addr, i + n1)
  {
    hide Splice;
    if i > 0 { SpliceTwice(s, off0, addr[..i], addr[i..i + n1]); }
    assert addr[..i] + addr[i..i + n1] == addr[..i + n1];
  }

  lemma NoPieceYet(s: seq<byte>, off0: nat, addr: seq<byte>)
    ensures SoFar(s, s, off0, addr, 0)
  {
  }

  /** When all is written or the next piece is refused. */
  lemma PiecesEnd(s: seq<byte>, cur: seq<byte>, off0: nat, addr: seq<byte>, i: nat)
    requires SoFar(s, cur, off0, addr, i)
    requires var n1 := if |addr| - i > MAXPIECE then MAXPIECE else |addr| - i;
             i == |addr| || off0 + i > |cur| || off0 + i + n1 > MAXFILE * BSIZE
    ensures Accepted(|s|, off0, |addr|) == i
    ensures if i == 0 then cur == s else off0 <= |s| && cur == Splice(s, off0, addr[..i])
  {
  }

  // ---- Free blocks ---------------------------------------------------------------------------

  /** After i bytes from off0 on: the file's blocks and the blocks in use are as after one write of them. */
  ghost predicate UsedSoFar(v: View, w: View, inum: nat, off0: nat, i: nat) {
    if i == 0 then w == v.(logged := w.logged)
    else UseAt(v, w, inum, off0 / BSIZE, off0 / BSIZE + Spanned(off0, i))
  }

  lemma SpanTwice(off: nat, i: nat, n: nat)
    requires i > 0 && n > 0
    ensures var lo, mid, lo2 := off / BSIZE, off / BSIZE + Spanned(off, i), (off + i) / BSIZE;
            && lo <= lo2 <= mid <= lo2 + Spanned(off + i, n) == lo + Spanned(off, i + n)
  {
  }

  lemma UsedMore(v: View, w: View, x: View, inum: nat, off0: nat, i: nat, n: nat)
    requires UsedSoFar(v, w, inum, off0, i) && n > 0
    requires UseAt(w, x, inum, (off0 + i) / BSIZE, (off0 + i) / BSIZE + Spanned(off0 + i, n))
    ensures UsedSoFar(v, x, inum, off0, i + n)
  {
    hide RowsOk, NewBlocks, Spanned;
    if i > 0 {
      SpanTwice(off0, i, n);
      var lo, mid, lo2, hi := off0 / BSIZE, off0 / BSIZE + Spanned(off0, i), (off0 + i) / BSIZE, off0 / BSIZE + Spanned(off0, i + n);
      RowsSizes(w.tab[inum], x.tab[inum], IndexOf(w, inum), IndexOf(x, inum), lo2, hi);
      RowsTwice(v.tab[inum], w.tab[inum], x.tab[inum], IndexOf(v, inum), IndexOf(w, inum), IndexOf(x, inum), lo, mid, lo2, hi);
      NewSplit(v.tab[inum], w.tab[inum], IndexOf(v, inum), IndexOf(w, inum), lo, mid, lo2, hi);
    }
  }

  lemma RowsSizes(was: seq<nat>, row: seq<nat>, x0: nat, x: nat, lo: nat, hi: nat)
    requires RowsOk(was, row, x0, x, lo, hi)
    ensures |was| == |row| == MAXFILE && lo <= hi <= MAXFILE
  {
  }

  /** When a piece finds too few free blocks, there were too few for all the bytes that are accepted. */
  lemma PieceRunsOut(l: Layout, v: View, w: View, inum: nat, off0: nat, i: nat, n: nat, all: nat)
    requires UsedSoFar(v, w, inum, off0, i) && n > 0 && TooFew(l, w, inum, off0 + i, n)
    requires i + n <= all && off0 + all <= MAXFILE * BSIZE && inum < |v.inodes| && v.inodes[inum].size <= w.inodes[inum].size
    ensures TooFew(l, v, inum, off0, all)
  {
    hide RowsOk, NewBlocks, Spanned;
    var lo, hi := off0 / BSIZE, off0 / BSIZE + Spanned(off0, i + n);
    if i > 0 {
      SpanTwice(off0, i, n);
      var mid, lo2 := off0 / BSIZE + Spanned(off0, i), (off0 + i) / BSIZE;
      RowsSizes(v.tab[inum], w.tab[inum], IndexOf(v, inum), IndexOf(w, inum), lo, mid);
      SpanWithin(off0, i + n, all);
      NewSplit(v.tab[inum], w.tab[inum], IndexOf(v, inum), IndexOf(w, inum), lo, mid, lo2, hi);
    }
    SpanWithin(off0, i + n, all);
    NewGrows(v.tab[inum], IndexOf(v, inum), lo, hi, lo + Spanned(off0, all));
  }

  lemma SpanWithin(off: nat, n: nat, all: nat)
    requires 0 < n <= all && off + all <= MAXFILE * BSIZE
    ensures off / BSIZE + Spanned(off, n) <= off / BSIZE + Spanned(off, all) <= MAXFILE
  {
  }

  /** There were enough if all of them have been written. */
  lemma EnoughBlocks(l: Layout, v: View, w: View, inum: nat, off0: nat, i: nat)
    requires UsedSoFar(v, w, inum, off0, i) && |w.owner| <= l.size
    ensures !TooFew(l, v, inum, off0, i)
  {
    hide RowsOk;
  }

  /** A piece that is not refused is part of what is accepted. */
  lemma PieceAccepted(s: seq<byte>, cur: seq<byte>, off0: nat, addr: seq<byte>, i: nat)
    requires SoFar(s, cur, off0, addr, i) && i < |addr|
    ensures var n1 := if |addr| - i > MAXPIECE then MAXPIECE else |addr| - i;
            var all := Accepted(|s|, off0, |addr|);
            off0 + i <= |cur| && off0 + i + n1 <= MAXFILE * BSIZE ==> i + n1 <= all && off0 + all <= MAXFILE * BSIZE
  {
    hide Splice;
    AcceptedFits(|s|, off0, |addr|);
  }

  lemma {:induction false} AcceptedFits(size: nat, off: nat, n: nat)
    ensures Accepted(size, off, n) > 0 ==> off + Accepted(size, off, n) <= MAXFILE * BSIZE
    decreases n
  {
    var n1 := if n > MAXPIECE then MAXPIECE else n;
    if !(n == 0 || off > size || off + n1 > MAXFILE * BSIZE) {
      AcceptedFits(if size < off + n1 then off + n1 else size, off + n1, n - n1);
    }
  }

  // ---- Pieces --------------------------------------------------------------------------------

  /** What one piece leaves: its bytes, the other files, the blocks in use, and what its transaction logged. */
  ghost predicate PieceDone(l: Layout, w: View, x: View, inum: nat, off: nat, chunk: seq<byte>) {
    && Ok(l, w) && Ok(l, x) && inum < |w.inodes| == |x.inodes| && off <= w.inodes[inum].size && off + |chunk| <= MAXFILE * BSIZE
    && x.inodes[inum].kind == w.inodes[inum].kind && Bytes(l, x, inum) == Splice(Bytes(l, w, inum), off, chunk)
    && (forall j: nat :: j < |w.inodes| && j != inum ==> Bytes(l, x, j) == Bytes(l, w, j))
    && UseAt(w, x, inum, off / BSIZE, off / BSIZE + Spanned(off, |chunk|))
    && Spanned(off, |chunk|) <= |x.logged| <= LOGSIZE
    && (l.size <= BPB ==> |x.logged| == LogCount(off, |chunk|, w.inodes[inum].size))
  }

  lemma PieceWritten(l: Layout, v: View, w: View, x: View, inum: nat, off: nat, chunk: seq<byte>)
    requires Ok(l, v) && w == v.(logged := {}) && AllSnug(v) && Ok(l, w) && inum < |v.inodes| && off <= v.inodes[inum].size
    requires WriteDone(l, w, x, inum, chunk, off) && |chunk| <= MAXPIECE
    ensures PieceDone(l, v, x, inum, off, chunk)
  {
    hide FsOk, Bytes, Splice, Spanned, LogCount, Touched, Snug, RowsOk, NewBlocks;
    BytesOfFiles(l, v, w);
    PieceFits(off, |chunk|, v.inodes[inum].size);
    assert AllSnug(w);
    ShapeOf(l, w, inum);
    ShapeOf(l, x, inum);
    assert x.logged == {} + Touched(l, w, x, inum, off, |chunk|) == Touched(l, w, x, inum, off, |chunk|);
  }

  /** How far a write has come after i bytes, from state v. */
  ghost predicate FileSoFar(l: Layout, v: View, w: View, inum: nat, off0: nat, addr: seq<byte>, i: nat, counts: seq<nat>) {
    && Ok(l, v) && Ok(l, w) && inum < |v.inodes| == |w.inodes| && w.inodes[inum].kind == v.inodes[inum].kind
    && SoFar(Bytes(l, v, inum), Bytes(l, w, inum), off0, addr, i) && v.inodes[inum].size <= w.inodes[inum].size
    && (forall j: nat :: j < |w.inodes| && j != inum ==> Bytes(l, w, j) == Bytes(l, v, j))
    && UsedSoFar(v, w, inum, off0, i)
    && (forall k :: 0 <= k < |counts| ==> counts[k] <= LOGSIZE)
    && (l.size <= BPB ==>
          counts + PieceCounts(w.inodes[inum].size, off0 + i, |addr| - i) == PieceCounts(v.inodes[inum].size, off0, |addr|))
  }

  lemma FileBegins(l: Layout, v: View, inum: nat, off0: nat, addr: seq<byte>)
    requires Ok(l, v) && inum < |v.inodes|
    ensures FileSoFar(l, v, v, inum, off0, addr, 0, [])
  {
    hide FsOk, Bytes, SoFar, PieceCounts;
    NoPieceYet(Bytes(l, v, inum), off0, addr);
  }

  lemma FileMore(l: Layout, v: View, w: View, x: View, inum: nat, off0: nat, addr: seq<byte>, i: nat, n1: nat, counts: seq<nat>)
    requires FileSoFar(l, v, w, inum, off0, addr, i, counts) && i < |addr|
    requires n1 == if |addr| - i > MAXPIECE then MAXPIECE else |addr| - i
    requires PieceDone(l, w, x, inum, off0 + i, addr[i..i + n1])
    ensures FileSoFar(l, v, x, inum, off0, addr, i + n1, counts + [|x.logged|])
  {
    hide FsOk, Bytes, Splice, SoFar, PieceCounts, LogCount, Spanned, UseAt, UsedSoFar;
    var s, cur, next := Bytes(l, v, inum), Bytes(l, w, inum), Bytes(l, x, inum);
    OnePieceMore(s, cur, next, off0, addr, i, n1);
    UsedMore(v, w, x, inum, off0, i, n1);
    SpliceSize(cur, off0 + i, addr[i..i + n1]);
    if l.size <= BPB { NextPiece(counts, |cur|, off0 + i, |addr| - i, PieceCounts(|s|, off0, |addr|)); }
  }

  lemma SpliceSize(s: seq<byte>, off: nat, a: seq<byte>)
    requires off <= |s|
    ensures |Splice(s, off, a)| == if |s| < off + |a| then off + |a| else |s|
  {
  }

  /** A piece that finds too few free blocks. */
  lemma FilePanics(l: Layout, v: View, w: View, inum: nat, off0: nat, addr: seq<byte>, i: nat, n1: nat, counts: seq<nat>)
    requires FileSoFar(l, v, w, inum, off0, addr, i, counts) && i < |addr|
    requires n1 == if |addr| - i > MAXPIECE then MAXPIECE else |addr| - i
    requires TooFew(l, w, inum, off0 + i, n1) && off0 + i <= w.inodes[inum].size
    ensures TooFew(l, v, inum, off0, Accepted(v.inodes[inum].size, off0, |addr|))
  {
    hide FsOk, Bytes, SoFar, PieceCounts, UsedSoFar, BlocksTaken;
    PieceAccepted(Bytes(l, v, inum), Bytes(l, w, inum), off0, addr, i);
    PieceRunsOut(l, v, w, inum, off0, i, n1, Accepted(v.inodes[inum].size, off0, |addr|));
  }

  /** All is written, or the next piece is refused: what filewrite has done. */
  lemma FileEnds(l: Layout, v: View, w: View, x: View, inum: nat, off0: nat, addr: seq<byte>, i: nat, counts: seq<nat>)
    requires FileSoFar(l, v, w, inum, off0, addr, i, counts) && x == w.(logged := x.logged)
    requires var n1 := if |addr| - i > MAXPIECE then MAXPIECE else |addr| - i;
             i <= |addr| && (i == |addr| || off0 + i > w.inodes[inum].size || off0 + i + n1 > MAXFILE * BSIZE)
    ensures FileDone(l, v, x, inum, off0, addr, counts) && i == Accepted(v.inodes[inum].size, off0, |addr|)
    ensures !TooFew(l, v, inum, off0, i)
  {
    hide FsOk, Bytes, Splice, PieceCounts, UsedSoFar, SoFar, Accepted, TooFew;
    BytesOfFiles(l, w, x);
    PiecesEnd(Bytes(l, v, inum), Bytes(l, w, inum), off0, addr, i);
    UsedBound(l, w);
    EnoughBlocks(l, v, w, inum, off0, i);
    if i == |addr| { NoPiece(w.inodes[inum].size, off0 + i); }
    else if l.size <= BPB { NextPiece(counts, w.inodes[inum].size, off0 + i, |addr| - i, PieceCounts(v.inodes[inum].size, off0, |addr|)); }
  }

  /** One contiguous write of the accepted bytes, and the numbers of blocks that its transactions logged. */
  ghost predicate FileDone(l: Layout, v: View, x: View, inum: nat, off0: nat, addr: seq<byte>, counts: seq<nat>) {
    && Ok(l, v) && Ok(l, x) && inum < |v.inodes| == |x.inodes|
    && var s := Bytes(l, v, inum);
       var i := Accepted(|s|, off0, |addr|);
       && (if i == 0 then Bytes(l, x, inum) == s else off0 <= |s| && Bytes(l, x, inum) == Splice(s, off0, addr[..i]))
       && (forall j: nat :: j < |x.inodes| && j != inum ==> Bytes(l, x, j) == Bytes(l, v, j))
       && (forall k :: 0 <= k < |counts| ==> counts[k] <= LOGSIZE)
       && (l.size <= BPB ==> counts == PieceCounts(|s|, off0, |addr|))
  }

  class OpenFile {
    const inum: nat
    var off: nat

    constructor (inum: nat, off: nat)
      ensures this.inum == inum && this.off == off
    {
      this.inum, this.off := inum, off;
    }

    /** One piece of filewrite, in a transaction of its own. */
    method WritePiece(fs: Fs, chunk: seq<byte>) returns (r: Io)
      requires fs.Valid() && fs.Settled() && inum < |fs.inodes| && off + |chunk| < TWO32 && |chunk| <= MAXPIECE
      modifies this, fs`disk, fs`inodes, fs`dinodes, fs`tab, fs`owner, fs`logged
      ensures r.Device? <==> old(fs.inodes[inum]).kind == T_DEV
      ensures r.Error? <==> old(fs.inodes[inum]).kind != T_DEV
                            && (old(off) > old(fs.inodes[inum]).size || old(off) + |chunk| > MAXFILE * BSIZE)
      ensures r.Panic? ==> fs.Full()
      ensures r.Panic? <==> !r.Device? && !r.Error? && TooFew(fs.l, old(fs.Now()), inum, old(off), |chunk|)
      ensures r.Error? ==> off == old(off) && fs.Valid() && fs.Settled() && fs.Now() == old(fs.Now()).(logged := fs.logged)
      ensures r.Count? ==>
                && off == old(off) + |chunk| && fs.Valid() && fs.Settled()
                && PieceDone(fs.l, old(fs.Now()), fs.Now(), inum, old(off), chunk)
    {
      hide FsOk, Bit, Bytes, Snug, WriteDone, PieceDone;
      ghost var v := fs.Now();
      fs.logged := {};
      ghost var w := fs.Now();
      BytesOfFiles(fs.l, v, w);
      assert forall n :: TooFew(fs.l, v, inum, off, n) <==> TooFew(fs.l, w, inum, off, n);
      r := fs.Writei(inum, chunk, off);
      if r.Count? {
        PieceWritten(fs.l, v, w, fs.Now(), inum, off, chunk);
      }
      if r.Count? && r.n > 0 {
        off := off + r.n;
      }
    }

    /** filewrite on an inode. The pieces written compose to one contiguous write of the accepted
        bytes, the offset moves by just as many, every other file is unchanged, and no transaction
        logs more than LOGSIZE blocks. It panics exactly when fewer blocks are free than the accepted bytes take,
        which happens only if the file is to grow. `counts` tells how many blocks each transaction logs; if one
        block holds the whole bitmap, the offset, the length and the file's size decide them all. */
    method FileWrite(fs: Fs, addr: seq<byte>) returns (r: WriteResult, ghost counts: seq<nat>)
      requires fs.Valid() && fs.Settled() && inum < |fs.inodes| && off + |addr| < TWO32
      modifies this, fs`disk, fs`inodes, fs`dinodes, fs`tab, fs`owner, fs`logged
      ensures r.OnDevice? <==> |addr| > 0 && old(fs.inodes[inum]).kind == T_DEV
      ensures var i := Accepted(old(|fs.File(inum)|), old(off), |addr|);
                && (r.Panicked? <==> !r.OnDevice? && TooFew(fs.l, old(fs.Now()), inum, old(off), i))
                && (r.Wrote? || r.Failed? ==>
                      && r == (if i == |addr| then Wrote(i) else Failed) && off == old(off) + i
                      && fs.Valid() && fs.Settled() && FileDone(fs.l, old(fs.Now()), fs.Now(), inum, old(off), addr, counts))
      ensures r.Panicked? ==> fs.Full()
    {
      hide FsOk, Bit, AllSnug, TooFew, FileSoFar, FileDone, PieceDone, Accepted, Bytes;
      ghost var v := fs.Now();
      FileBegins(fs.l, v, inum, off, addr);
      counts := [];
      var n := |addr|;
      var i := 0;
      while i < n
        invariant 0 <= i <= n && off == old(off) + i && off + (n - i) < TWO32
        invariant fs.Valid() && fs.Settled() && inum < |fs.inodes|
        invariant fs.inodes[inum].kind == v.inodes[inum].kind && (i > 0 ==> fs.inodes[inum].kind != T_DEV)
        invariant FileSoFar(fs.l, v, fs.Now(), inum, old(off), addr, i, counts)
        decreases n - i
      {
        var n1 := n - i;
        if n1 > MAXPIECE {
          n1 := MAXPIECE;
        }
        ghost var w := fs.Now();
        var piece := WritePiece(fs, addr[i..i + n1]);
        if piece.Panic? {
          FilePanics(fs.l, v, w, inum, old(off), addr, i, n1, counts);
          return Panicked, counts;
        }
        if piece.Device? {
          return OnDevice, counts;
        }
        if piece.Error? {
          FileEnds(fs.l, v, w, fs.Now(), inum, old(off), addr, i, counts);
          return Failed, counts;
        }
        FileMore(fs.l, v, w, fs.Now(), inum, old(off), addr, i, n1, counts);
        PieceFacts(fs.l, w, fs.Now(), inum, off - n1, addr[i..i + n1]);
        counts := counts + [|fs.logged|];
        i := i + n1;
      }
      FileEnds(fs.l, v, fs.Now(), fs.Now(), inum, old(off), addr, i, counts);
      r := Wrote(n);
    }
  }

  lemma PieceFacts(l: Layout, w: View, x: View, inum: nat, off: nat, chunk: seq<byte>)
    requires PieceDone(l, w, x, inum, off, chunk)
    ensures inum < |w.inodes| == |x.inodes| && x.inodes[inum].kind == w.inodes[inum].kind
  {
  }
}

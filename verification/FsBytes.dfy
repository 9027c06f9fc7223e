/** Files as byte sequences: what writing a run of bytes into one block does to the bytes of every
    file, across direct and indirect blocks. */
module FsBytes {
  import opened FsLayout
  import opened FsState
  import opened FsAlloc

  /** Byte k of file i, for a byte whose block is there. */
  function FileByte(l: Layout, v: View, i: nat, k: nat): (x: byte)
    requires Shaped(l, v.disk, v.inodes, v.tab) && i < |v.tab| && k < MAXFILE * BSIZE
  {
    var b := v.tab[i][k / BSIZE];
    if b < |v.disk| then v.disk[b][k % BSIZE] else 0
  }

  predicate HasByte(v: View, i: nat, k: nat) {
    i < |v.tab| && k < MAXFILE * BSIZE && |v.tab[i]| == MAXFILE && v.tab[i][k / BSIZE] != 0
  }

  /** Every other file is as it was: its blocks, their contents, and its inode. */
  ghost predicate OthersKept(v: View, w: View, i: nat) {
    && |v.tab| == |w.tab| && |v.inodes| == |w.inodes| == |v.tab| && |v.disk| == |w.disk|
    && (forall j :: 0 <= j < |v.tab| && j != i ==> w.tab[j] == v.tab[j] && w.inodes[j] == v.inodes[j])
    && (forall j: nat, bn: nat :: j < |v.tab| && j != i && bn < |v.tab[j]| && 0 < v.tab[j][bn] < |v.disk| ==>
          w.disk[v.tab[j][bn]] == v.disk[v.tab[j][bn]])
  }

  /** The bytes of file i from `from` on are those of `data`; every other byte it had is kept. */
  ghost predicate Written(l: Layout, v: View, w: View, i: nat, from: nat, data: seq<byte>) {
    && Shaped(l, v.disk, v.inodes, v.tab) && Shaped(l, w.disk, w.inodes, w.tab)
    && i < |v.tab| == |w.tab| && from + |data| <= MAXFILE * BSIZE
    && (forall k: nat :: HasByte(v, i, k) && !(from <= k < from + |data|) ==>
          HasByte(w, i, k) && FileByte(l, w, i, k) == FileByte(l, v, i, k))
    && (forall k: nat :: from <= k < from + |data| ==> HasByte(w, i, k) && FileByte(l, w, i, k) == data[k - from])
  }

  /** The state after one round of writei: `chunk` put at byte position `off` into block b. */
  ghost function Patched(v: View, b: nat, off: nat, chunk: seq<byte>): (w: View)
    requires b < |v.disk| && off % BSIZE + |chunk| <= BSIZE
  {
    v.(disk := v.disk[b := WithBytes(v.disk[b], off % BSIZE, chunk)], logged := v.logged + {b})
  }

  /** Two different places of the table never name the same block. */
  lemma BlocksDiffer(l: Layout, v: View, i: nat, bn: nat, j: nat, cn: nat)
    requires Ok(l, v) && i < |v.tab| && j < |v.tab| && bn < MAXFILE && cn < MAXFILE
    requires v.tab[i][bn] != 0 && v.tab[j][cn] != 0 && (i != j || bn != cn)
    ensures v.tab[i][bn] != v.tab[j][cn] && v.tab[i][bn] < |v.disk| && v.tab[j][cn] < |v.disk|
  {
    assert Owns(v.owner, v.tab[i][bn], Data(i, bn));
    assert Owns(v.owner, v.tab[j][cn], Data(j, cn));
  }

  /** bmap changes no byte of any file. */
  lemma MapKeepsBytes(l: Layout, v: View, w: View, i: nat, bn: nat, b: nat)
    requires Ok(l, v) && i < |v.inodes| && bn < MAXFILE && MapStep(l, v, w, i, bn, b)
    ensures OthersKept(v, w, i)
    ensures forall k: nat :: HasByte(v, i, k) ==> HasByte(w, i, k) && FileByte(l, w, i, k) == FileByte(l, v, i, k)
  {
    forall j: nat, c: nat | j < |v.tab| && c < MAXFILE && v.tab[j][c] != 0
      ensures v.tab[j][c] < |v.disk| && w.disk[v.tab[j][c]] == v.disk[v.tab[j][c]]
    {
      assert Owns(v.owner, v.tab[j][c], Data(j, c));
    }
    forall k: nat | HasByte(v, i, k)
      ensures HasByte(w, i, k) && FileByte(l, w, i, k) == FileByte(l, v, i, k)
    {
      if k / BSIZE == bn { SameRow(v.tab, i, bn); }
    }
  }

  lemma PatchBytes(l: Layout, v: View, i: nat, off: nat, chunk: seq<byte>)
    requires Ok(l, v) && i < |v.inodes| && off < MAXFILE * BSIZE && off % BSIZE + |chunk| <= BSIZE
    requires v.tab[i][off / BSIZE] != 0
    ensures v.tab[i][off / BSIZE] < |v.disk|
    ensures var w := Patched(v, v.tab[i][off / BSIZE], off, chunk);
            Ok(l, w) && OthersKept(v, w, i) && Written(l, v, w, i, off, chunk)
  {
    hide BitsOk, RepOk, NoHoles, IndexOwned;
    var bn := off / BSIZE;
    var b := v.tab[i][bn];
    assert Owns(v.owner, b, Data(i, bn));
    var w := Patched(v, b, off, chunk);
    WriteData(l, v.disk, v.inodes, v.tab, v.owner, b, w.disk[b]);
    forall j: nat, c: nat | j < |v.tab| && c < MAXFILE && 0 < v.tab[j][c] && (j != i || c != bn)
      ensures v.tab[j][c] < |v.disk| && w.disk[v.tab[j][c]] == v.disk[v.tab[j][c]]
    {
      BlocksDiffer(l, v, i, bn, j, c);
    }
    forall k: nat | off <= k < off + |chunk| ensures HasByte(w, i, k) && FileByte(l, w, i, k) == chunk[k - off] {
      InBlock(off, k);
    }
    forall k: nat | HasByte(v, i, k) && !(off <= k < off + |chunk|)
      ensures HasByte(w, i, k) && FileByte(l, w, i, k) == FileByte(l, v, i, k)
    {
      if k / BSIZE == bn { OutOfChunk(off, k, |chunk|); }
    }
  }

  lemma InBlock(off: nat, k: nat)
    requires off <= k && off % BSIZE + (k - off) < BSIZE
    ensures k / BSIZE == off / BSIZE && k % BSIZE == off % BSIZE + (k - off)
  {
  }

  lemma OutOfChunk(off: nat, k: nat, m: nat)
    requires k / BSIZE == off / BSIZE && off % BSIZE + m <= BSIZE && !(off <= k < off + m)
    ensures !(off % BSIZE <= k % BSIZE < off % BSIZE + m)
  {
  }

  /** Two writes next to each other are one. */
  lemma WrittenAppend(l: Layout, v: View, u: View, w: View, i: nat, from: nat, data: seq<byte>, chunk: seq<byte>)
    requires Written(l, v, u, i, from, data) && Written(l, u, w, i, from + |data|, chunk)
    ensures Written(l, v, w, i, from, data + chunk)
  {
    forall k: nat | from <= k < from + |data + chunk|
      ensures HasByte(w, i, k) && FileByte(l, w, i, k) == (data + chunk)[k - from]
    {
      if k < from + |data| { assert HasByte(u, i, k) && FileByte(l, u, i, k) == data[k - from]; }
    }
  }

  lemma OthersTwice(v: View, u: View, w: View, i: nat)
    requires OthersKept(v, u, i) && OthersKept(u, w, i)
    ensures OthersKept(v, w, i)
  {
    forall j: nat, bn: nat | j < |v.tab| && j != i && bn < |v.tab[j]| && 0 < v.tab[j][bn] < |v.disk|
      ensures w.disk[v.tab[j][bn]] == v.disk[v.tab[j][bn]]
    {
      assert u.tab[j][bn] == v.tab[j][bn];
    }
  }

  // ---- Contents ------------------------------------------------------------------------------

  /** A file's bytes. */
  ghost function Bytes(l: Layout, v: View, i: nat): (s: seq<byte>)
    requires Ok(l, v) && i < |v.inodes|
    ensures |s| == v.inodes[i].size
    ensures forall k :: 0 <= k < |s| ==> s[k] == FileByte(l, v, i, k)
  {
    seq(v.inodes[i].size, k requires 0 <= k < v.inodes[i].size => FileByte(l, v, i, k))
  }

  /** `data` over `s` at position off, extending it when it reaches past the end. */
  function Splice(s: seq<byte>, off: nat, data: seq<byte>): (r: seq<byte>)
    requires off <= |s|
    ensures |r| == if off + |data| <= |s| then |s| else off + |data|
  {
    if off + |data| <= |s| then s[..off] + data + s[off + |data|..] else s[..off] + data
  }

  lemma HasBytes(l: Layout, v: View, i: nat, k: nat)
    requires Ok(l, v) && i < |v.inodes| && k < v.inodes[i].size
    ensures HasByte(v, i, k)
  {
    assert NoHoles(v.inodes[i], v.tab[i]);
    assert k / BSIZE * BSIZE <= k;
  }

  lemma OthersBytes(l: Layout, v: View, w: View, i: nat, j: nat)
    requires Ok(l, v) && Ok(l, w) && OthersKept(v, w, i) && i < |v.inodes| && j < |v.inodes| && j != i
    ensures Bytes(l, w, j) == Bytes(l, v, j)
  {
    forall k | 0 <= k < v.inodes[j].size ensures FileByte(l, w, j, k) == FileByte(l, v, j, k) {
      HasBytes(l, v, j, k);
      assert Owns(v.owner, v.tab[j][k / BSIZE], Data(j, k / BSIZE));
      assert v.tab[j][k / BSIZE] < |v.disk|;
    }
  }

  /** After the blocks are written and the size is brought up to the end of the write, the file is
      the old one with the data spliced in. */
  lemma WrittenBytes(l: Layout, v: View, w: View, i: nat, from: nat, data: seq<byte>)
    requires Ok(l, v) && i < |v.inodes| && from <= v.inodes[i].size && Ok(l, w) && |w.inodes| == |v.inodes|
    requires Written(l, v, w, i, from, data)
    requires w.inodes[i].size == if from + |data| > v.inodes[i].size then from + |data| else v.inodes[i].size
    ensures Bytes(l, w, i) == Splice(Bytes(l, v, i), from, data)
  {
    hide OwnOk, BitsOk, RepOk, NoHoles;
    var old_ := Bytes(l, v, i);
    forall k | 0 <= k < w.inodes[i].size ensures FileByte(l, w, i, k) == Splice(old_, from, data)[k] {
      if from <= k < from + |data| {
        assert FileByte(l, w, i, k) == data[k - from];
      } else {
        HasBytes(l, v, i, k);
      }
    }
  }

  /** Growing the size of a file whose new bytes are all there leaves no hole. */
  lemma GrowKeepsOk(l: Layout, v: View, w: View, i: nat, from: nat, data: seq<byte>)
    requires Ok(l, v) && i < |v.inodes| && from <= v.inodes[i].size
    requires Ok(l, w) && |w.inodes| == |v.inodes| && w.inodes[i].size == v.inodes[i].size < from + |data|
    requires Written(l, v, w, i, from, data)
    ensures Ok(l, w.(inodes := w.inodes[i := w.inodes[i].(size := from + |data|)]))
  {
    hide OwnOk, BitsOk, RepOk, NoHoles;
    GrownNoHoles(l, v, w, i, from, data);
    SizeKeepsRest(l, w, i, from + |data|);
  }

  lemma GrownNoHoles(l: Layout, v: View, w: View, i: nat, from: nat, data: seq<byte>)
    requires Ok(l, v) && i < |v.inodes| && from <= v.inodes[i].size
    requires Ok(l, w) && |w.inodes| == |v.inodes| && Written(l, v, w, i, from, data)
    ensures NoHoles(w.inodes[i].(size := from + |data|), w.tab[i])
  {
    hide OwnOk, BitsOk, RepOk;
    forall bn | 0 <= bn < MAXFILE && bn * BSIZE < from + |data| ensures w.tab[i][bn] != 0 {
      assert bn * BSIZE / BSIZE == bn;
      if bn * BSIZE < v.inodes[i].size { HasBytes(l, v, i, bn * BSIZE); }
      assert HasByte(w, i, bn * BSIZE);
    }
  }

  /** A file's size matters to nothing but that no block is missing below it. */
  lemma SizeKeepsRest(l: Layout, w: View, i: nat, size: nat)
    requires Ok(l, w) && i < |w.inodes| && size <= MAXFILE * BSIZE && NoHoles(w.inodes[i].(size := size), w.tab[i])
    ensures Ok(l, w.(inodes := w.inodes[i := w.inodes[i].(size := size)]))
  {
    hide BitsOk, NoHoles, SystemOwned, TableOwned;
    var ns := w.inodes[i := w.inodes[i].(size := size)];
    forall k | 0 <= k < |ns| ensures RepOk(w.disk, ns[k], w.tab[k]) && NoHoles(ns[k], w.tab[k]) {
      assert RepOk(w.disk, w.inodes[k], w.tab[k]);
    }
  }

  /** One round of writei: the block is mapped, patched and logged. */
  lemma RoundBytes(l: Layout, v: View, u: View, i: nat, off: nat, chunk: seq<byte>, b: nat)
    requires Ok(l, v) && i < |v.inodes| && off < MAXFILE * BSIZE && off % BSIZE + |chunk| <= BSIZE
    requires MapStep(l, v, u, i, off / BSIZE, b)
    ensures b < |u.disk|
    ensures var w := Patched(u, b, off, chunk);
            Ok(l, w) && OthersKept(v, w, i) && Written(l, v, w, i, off, chunk)
  {
    hide OwnOk, BitsOk, RepOk, NoHoles, FileByte;
    MapKeepsBytes(l, v, u, i, off / BSIZE, b);
    assert u.tab[i][off / BSIZE] == b && b != 0;
    PatchBytes(l, u, i, off, chunk);
    var w := Patched(u, b, off, chunk);
    OthersTwice(v, u, w, i);
    assert Written(l, v, u, i, off, []);
    assert [] + chunk == chunk;
    WrittenAppend(l, v, u, w, i, off, [], chunk);
  }

  /** What has been logged is no part of a file. */
  lemma BytesOfFiles(l: Layout, v: View, w: View)
    requires Ok(l, v) && w == v.(logged := w.logged)
    ensures Ok(l, w) && forall i: nat :: i < |v.inodes| ==> Bytes(l, w, i) == Bytes(l, v, i)
  {
    forall i: nat | i < |v.inodes| ensures Bytes(l, w, i) == Bytes(l, v, i) {
      assert forall k: nat :: k < MAXFILE * BSIZE ==> FileByte(l, w, i, k) == FileByte(l, v, i, k);
    }
  }

  function SetAttrs(v: View, i: nat, kind: int, nlink: int): (w: View)
    requires i < |v.inodes|
  {
    v.(inodes := v.inodes[i := v.inodes[i].(kind := kind, nlink := nlink)])
  }

  /** An inode's type and link count are no part of what the files hold. */
  lemma AttrsKeep(l: Layout, v: View, i: nat, kind: int, nlink: int)
    requires Ok(l, v) && i < |v.inodes|
    ensures var w := SetAttrs(v, i, kind, nlink);
            Ok(l, w) && forall j: nat :: j < |v.inodes| ==> Bytes(l, w, j) == Bytes(l, v, j)
  {
    var w := SetAttrs(v, i, kind, nlink);
    assert Ok(l, w) by {
      hide Bit, Word, BBlock, Reserved;
      forall k | 0 <= k < |w.inodes| ensures RepOk(w.disk, w.inodes[k], w.tab[k]) && NoHoles(w.inodes[k], w.tab[k]) {
        assert RepOk(v.disk, v.inodes[k], v.tab[k]) && NoHoles(v.inodes[k], v.tab[k]);
      }
    }
    forall j: nat | j < |v.inodes| ensures Bytes(l, w, j) == Bytes(l, v, j) {
      assert forall k: nat :: k < MAXFILE * BSIZE ==> FileByte(l, w, j, k) == FileByte(l, v, j, k);
    }
  }

  /** A run of bytes below the size that lies in one block is there on the disk. */
  lemma InBlockSlice(l: Layout, v: View, i: nat, off: nat, m: nat)
    requires Ok(l, v) && i < |v.inodes| && 0 < m && off % BSIZE + m <= BSIZE && off + m <= v.inodes[i].size
    ensures off / BSIZE < MAXFILE && i < |v.tab| && |v.tab[i]| == MAXFILE && 0 < v.tab[i][off / BSIZE] < |v.disk|
    ensures v.disk[v.tab[i][off / BSIZE]][off % BSIZE..off % BSIZE + m] == Bytes(l, v, i)[off..off + m]
  {
    hide BitsOk, RepOk, IndexOwned;
    HasBytes(l, v, i, off);
    var bn := off / BSIZE;
    var b := v.tab[i][bn];
    assert Owns(v.owner, b, Data(i, bn));
    var x, y := v.disk[b][off % BSIZE..off % BSIZE + m], Bytes(l, v, i)[off..off + m];
    forall k | 0 <= k < m ensures x[k] == y[k] {
      InBlock(off, off + k);
    }
  }
}

/** Giving a free block to a file keeps the ownership of all blocks in order. Three ways, as in
    bmap: a direct block, the indirect block itself, and a block listed in it. */
module FsAlloc {
  import opened FsLayout
  import opened FsState

  /** The disk after balloc has taken block b. */
  function Taken(l: Layout, d: Disk, b: nat): (e: Disk)
    requires LayoutOk(l) && |d| == l.size && b < l.size
    ensures |e| == |d|
  {
    MarkUsed(l, d, b)[b := ZeroBlock()]
  }

  function SetRow(tab: Table, i: nat, bn: nat, b: nat): (t: Table)
    requires i < |tab| && bn < |tab[i]|
    ensures |t| == |tab| && forall j :: 0 <= j < |tab| ==> |t[j]| == |tab[j]|
  {
    var row: seq<nat> := tab[i][bn := b];
    tab[i := row]
  }

  function SetAddr(inodes: seq<Inode>, i: nat, j: nat, b: nat): (r: seq<Inode>)
    requires i < |inodes| && j < |inodes[i].addrs|
    ensures |r| == |inodes| && forall k :: 0 <= k < |inodes| ==> |r[k].addrs| == |inodes[k].addrs| && r[k].size == inodes[k].size
  {
    var addrs: seq<nat> := inodes[i].addrs[j := b];
    inodes[i := inodes[i].(addrs := addrs)]
  }

  /** Index blocks are not touched by balloc, so every inode still reads the same. */
  lemma TakenKeepsRows(l: Layout, d: Disk, inodes: seq<Inode>, tab: Table, owner: map<nat, Use>, b: nat)
    requires FsOk(l, d, inodes, tab, owner) && b < l.size && !Bit(l, d, b)
    ensures forall i :: 0 <= i < |inodes| ==> RepOk(Taken(l, d, b), inodes[i], tab[i])
  {
    FreeBlockIsUnused(l, d, inodes, tab, owner, b);
    var e := Taken(l, d, b);
    forall i: nat | i < |inodes| ensures RepOk(e, inodes[i], tab[i]) {
      assert RepOk(d, inodes[i], tab[i]);
      var x := inodes[i].addrs[NDIRECT];
      if x != 0 { assert Owns(owner, x, Index(i)) && e[x] == d[x]; }
    }
  }

  lemma OwnData(owner: map<nat, Use>, tab: Table, i: nat, bn: nat, b: nat)
    requires TableOwned(owner, tab) && i < |tab| && bn < MAXFILE && tab[i][bn] == 0
    requires b !in owner && b != 0
    ensures TableOwned(owner[b := Data(i, bn)], SetRow(tab, i, bn, b))
  {
    var o, t := owner[b := Data(i, bn)], SetRow(tab, i, bn, b);
    forall k: nat, c: nat | k < |t| && c < MAXFILE && t[k][c] != 0 ensures Owns(o, t[k][c], Data(k, c)) {
      if k != i || c != bn {
        assert t[k][c] == tab[k][c] && Owns(owner, tab[k][c], Data(k, c));
      }
    }
  }

  lemma AttachDirect(l: Layout, d: Disk, inodes: seq<Inode>, tab: Table, owner: map<nat, Use>, i: nat, bn: nat, b: nat)
    requires FsOk(l, d, inodes, tab, owner) && i < |tab| && bn < NDIRECT && tab[i][bn] == 0
    requires b < l.size && !Bit(l, d, b)
    ensures FsOk(l, Taken(l, d, b), SetAddr(inodes, i, bn, b), SetRow(tab, i, bn, b), owner[b := Data(i, bn)])
  {
    hide Bit, MarkUsed, TableOwned, RepOk, BitsOk, NoHoles;
    var e, ns, t, o := Taken(l, d, b), SetAddr(inodes, i, bn, b), SetRow(tab, i, bn, b), owner[b := Data(i, bn)];
    FreeBlockIsUnused(l, d, inodes, tab, owner, b);
    TakenKeepsRows(l, d, inodes, tab, owner, b);
    OwnData(owner, tab, i, bn, b);
    BitsOfKeys(l, e, owner[b := Data(0, 0)], o);
    assert forall k :: 0 <= k < |ns| ==> ns[k].addrs[NDIRECT] == inodes[k].addrs[NDIRECT];
    DirectRep(e, inodes, tab, i, bn, b);
    RowKeepsNoHoles(inodes, tab, i, bn, b);
  }

  /** Filling an entry of a row leaves no hole. */
  lemma RowKeepsNoHoles(inodes: seq<Inode>, tab: Table, i: nat, bn: nat, b: nat)
    requires |inodes| == |tab| && i < |tab| && bn < NDIRECT && b != 0
    requires forall k :: 0 <= k < |tab| ==> |inodes[k].addrs| == NDIRECT + 1 && |tab[k]| == MAXFILE && NoHoles(inodes[k], tab[k])
    ensures forall k :: 0 <= k < |tab| ==> NoHoles(SetAddr(inodes, i, bn, b)[k], SetRow(tab, i, bn, b)[k])
  {
  }

  lemma EntryKeepsNoHoles(inodes: seq<Inode>, tab: Table, i: nat, bn: nat, b: nat)
    requires |inodes| == |tab| && i < |tab| && bn < MAXFILE && b != 0
    requires forall k :: 0 <= k < |tab| ==> |tab[k]| == MAXFILE && NoHoles(inodes[k], tab[k])
    ensures forall k :: 0 <= k < |tab| ==> NoHoles(inodes[k], SetRow(tab, i, bn, b)[k])
  {
  }

  lemma DirectRep(d: Disk, inodes: seq<Inode>, tab: Table, i: nat, bn: nat, b: nat)
    requires |inodes| == |tab| && i < |tab| && bn < NDIRECT && |inodes[i].addrs| == NDIRECT + 1 && |tab[i]| == MAXFILE
    requires RepOk(d, inodes[i], tab[i])
    ensures |SetAddr(inodes, i, bn, b)[i].addrs| == NDIRECT + 1 && |SetRow(tab, i, bn, b)[i]| == MAXFILE
    ensures RepOk(d, SetAddr(inodes, i, bn, b)[i], SetRow(tab, i, bn, b)[i])
  {
    var ns, t := SetAddr(inodes, i, bn, b), SetRow(tab, i, bn, b);
    assert ns[i].addrs[..NDIRECT] == inodes[i].addrs[..NDIRECT][bn := b];
    assert t[i][..NDIRECT] == tab[i][..NDIRECT][bn := b];
  }

  lemma OwnIndex(owner: map<nat, Use>, inodes: seq<Inode>, i: nat, b: nat)
    requires IndexOwned(owner, inodes) && i < |inodes| && inodes[i].addrs[NDIRECT] == 0
    requires b !in owner && b != 0
    ensures IndexOwned(owner[b := Index(i)], SetAddr(inodes, i, NDIRECT, b))
  {
    var o, r := owner[b := Index(i)], SetAddr(inodes, i, NDIRECT, b);
    forall k: nat | k < |r| && r[k].addrs[NDIRECT] != 0 ensures Owns(o, r[k].addrs[NDIRECT], Index(k)) {
      if k != i { assert Owns(owner, inodes[k].addrs[NDIRECT], Index(k)); }
    }
  }

  lemma AttachIndex(l: Layout, d: Disk, inodes: seq<Inode>, tab: Table, owner: map<nat, Use>, i: nat, b: nat)
    requires FsOk(l, d, inodes, tab, owner) && i < |tab| && inodes[i].addrs[NDIRECT] == 0
    requires b < l.size && !Bit(l, d, b)
    ensures FsOk(l, Taken(l, d, b), SetAddr(inodes, i, NDIRECT, b), tab, owner[b := Index(i)])
  {
    var e, ns, o := Taken(l, d, b), SetAddr(inodes, i, NDIRECT, b), owner[b := Index(i)];
    FreeBlockIsUnused(l, d, inodes, tab, owner, b);
    TakenKeepsRows(l, d, inodes, tab, owner, b);
    OwnIndex(owner, inodes, i, b);
    BitsOfKeys(l, e, owner[b := Data(0, 0)], o);
    assert RepOk(d, inodes[i], tab[i]);
    assert ns[i].addrs[..NDIRECT] == inodes[i].addrs[..NDIRECT];
    assert e[b] == ZeroBlock();
    forall bn | NDIRECT <= bn < MAXFILE ensures tab[i][bn] == Word(e[b], bn - NDIRECT) {
      ZeroWords(bn - NDIRECT);
    }
    assert RepOk(e, ns[i], tab[i]);
  }

  /** Writing a block other than the bitmap's and the index blocks keeps everything but that
      block's contents. */
  lemma WriteIndex(l: Layout, d: Disk, inodes: seq<Inode>, tab: Table, owner: map<nat, Use>, i: nat, bn: nat, b: nat)
    requires FsOk(l, d, inodes, tab, owner) && i < |tab| && NDIRECT <= bn < MAXFILE
    requires inodes[i].addrs[NDIRECT] != 0 && tab[i][bn] == 0
    requires b < l.size && !Bit(l, d, b)
    ensures inodes[i].addrs[NDIRECT] < l.size
    ensures var x := inodes[i].addrs[NDIRECT];
            var e := Taken(l, d, b);
            var f := e[x := WithWord(e[x], bn - NDIRECT, b)];
            && e[x] == d[x]
            && (forall k: nat :: k < |inodes| ==> RepOk(f, inodes[k], SetRow(tab, i, bn, b)[k]))
            && BitsOk(l, f, owner[b := Data(i, bn)])
  {
    var x := inodes[i].addrs[NDIRECT];
    assert Owns(owner, x, Index(i));
    FreeBlockIsUnused(l, d, inodes, tab, owner, b);
    TakenKeepsRows(l, d, inodes, tab, owner, b);
    var e := Taken(l, d, b);
    var f := e[x := WithWord(e[x], bn - NDIRECT, b)];
    var t := SetRow(tab, i, bn, b);
    forall k: nat | k < |inodes| ensures RepOk(f, inodes[k], t[k]) {
      assert RepOk(e, inodes[k], tab[k]);
      if k == i {
        assert t[i][..NDIRECT] == tab[i][..NDIRECT];
      } else {
        var y := inodes[k].addrs[NDIRECT];
        if y != 0 { assert Owns(owner, y, Index(k)); }
      }
    }
    forall c: nat | c < l.size ensures Bit(l, f, c) <==> c in owner[b := Data(i, bn)] {
      OtherBlockKeepsBits(l, e, x, WithWord(e[x], bn - NDIRECT, b), c);
    }
  }

  lemma AttachEntry(l: Layout, d: Disk, inodes: seq<Inode>, tab: Table, owner: map<nat, Use>, i: nat, bn: nat, b: nat)
    requires FsOk(l, d, inodes, tab, owner) && i < |tab| && NDIRECT <= bn < MAXFILE
    requires inodes[i].addrs[NDIRECT] != 0 && tab[i][bn] == 0
    requires b < l.size && !Bit(l, d, b)
    ensures inodes[i].addrs[NDIRECT] < l.size
    ensures var x := inodes[i].addrs[NDIRECT];
            var e := Taken(l, d, b);
            FsOk(l, e[x := WithWord(e[x], bn - NDIRECT, b)], inodes, SetRow(tab, i, bn, b), owner[b := Data(i, bn)])
  {
    hide Bit, MarkUsed, TableOwned, RepOk, BitsOk, NoHoles, WithWord;
    FreeBlockIsUnused(l, d, inodes, tab, owner, b);
    WriteIndex(l, d, inodes, tab, owner, i, bn, b);
    OwnData(owner, tab, i, bn, b);
    EntryKeepsNoHoles(inodes, tab, i, bn, b);
  }

  /** A data block's contents matter to nothing else. */
  lemma WriteData(l: Layout, d: Disk, inodes: seq<Inode>, tab: Table, owner: map<nat, Use>, b: nat, x: Block)
    requires FsOk(l, d, inodes, tab, owner) && b in owner && owner[b].Data?
    ensures b < l.size && FsOk(l, d[b := x], inodes, tab, owner)
  {
    var e := d[b := x];
    forall i: nat | i < |inodes| ensures RepOk(e, inodes[i], tab[i]) {
      assert RepOk(d, inodes[i], tab[i]);
      var y := inodes[i].addrs[NDIRECT];
      if y != 0 { assert Owns(owner, y, Index(i)); }
    }
    forall c: nat | c < l.size ensures Bit(l, e, c) <==> c in owner {
      OtherBlockKeepsBits(l, d, b, x, c);
    }
  }

  // ---- One call of bmap ----------------------------------------------------------------------

  /** The file layer's state at one moment. */
  datatype View = View(disk: Disk, inodes: seq<Inode>, tab: Table, owner: map<nat, Use>, logged: set<nat>)

  ghost predicate Ok(l: Layout, v: View) {
    FsOk(l, v.disk, v.inodes, v.tab, v.owner)
  }

  function IndexOf(v: View, i: nat): (x: nat)
    requires i < |v.inodes| && |v.inodes[i].addrs| == NDIRECT + 1
  {
    v.inodes[i].addrs[NDIRECT]
  }

  /** The data blocks of all files keep their contents. */
  ghost predicate DataKept(v: View, w: View) {
    && |v.disk| == |w.disk|
    && (forall c :: c in v.owner && v.owner[c].Data? ==> c < |v.disk| && c in w.owner && w.owner[c] == v.owner[c] && w.disk[c] == v.disk[c])
  }

  /** Nothing but the block numbers of inode i differs. */
  predicate InodesKept(v: View, w: View, i: nat) {
    && |w.inodes| == |v.inodes| && i < |v.inodes|
    && (forall k :: 0 <= k < |v.inodes| && k != i ==> w.inodes[k] == v.inodes[k])
    && w.inodes[i] == v.inodes[i].(addrs := w.inodes[i].addrs)
  }

  /** The blocks logged when file block bn of inode i is added as disk block b: b itself, the
      bitmap block of each block allocated, and the indirect block. */
  function AddLog(l: Layout, v: View, w: View, i: nat, bn: nat, b: nat): (s: set<nat>)
    requires i < |v.inodes| && |v.inodes[i].addrs| == NDIRECT + 1
    requires i < |w.inodes| && |w.inodes[i].addrs| == NDIRECT + 1
  {
    {b, BBlock(l, b)} + (if bn < NDIRECT then {} else {IndexOf(w, i)})
      + (if bn < NDIRECT || IndexOf(v, i) != 0 then {} else {BBlock(l, IndexOf(w, i))})
  }

  /** The blocks that adding file block bn takes: its own, and one for the indirect block if that is missing. */
  function Takes(bn: nat, x: nat): (n: nat) {
    if bn < NDIRECT || x != 0 then 1 else 2
  }

  /** What bmap does when it returns block b for file block bn of inode i. */
  ghost predicate MapStep(l: Layout, v: View, w: View, i: nat, bn: nat, b: nat)
    requires Ok(l, v) && i < |v.inodes| && bn < MAXFILE
  {
    && Ok(l, w) && Owns(w.owner, b, Data(i, bn)) && b != 0
    && w.tab == SetRow(v.tab, i, bn, b)
    && InodesKept(v, w, i)
    && DataKept(v, w)
    && (v.tab[i][bn] != 0 ==> w == v)
    && (v.tab[i][bn] == 0 ==>
          && b !in v.owner && w.disk[b] == ZeroBlock()
          && |w.owner| == |v.owner| + Takes(bn, IndexOf(v, i))
          && w.logged == v.logged + AddLog(l, v, w, i, bn, b)
          && (bn < NDIRECT || IndexOf(v, i) != 0 ==> IndexOf(w, i) == IndexOf(v, i)))
  }

  lemma ShapeOf(l: Layout, v: View, i: nat)
    requires Ok(l, v) && i < |v.inodes|
    ensures |v.inodes[i].addrs| == NDIRECT + 1 && i < |v.tab| && |v.tab[i]| == MAXFILE && NoHoles(v.inodes[i], v.tab[i])
    ensures LayoutOk(l) && |v.inodes| == |v.tab| && |v.disk| == l.size && v.inodes[i].size <= MAXFILE * BSIZE
  {
  }

  /** A free block taken for some use: the data blocks stay, and one block more is in use. */
  lemma TakenKeepsData(l: Layout, v: View, b: nat, u: Use, w: View)
    requires Ok(l, v) && b < l.size && !Bit(l, v.disk, b) && w.disk == Taken(l, v.disk, b) && w.owner == v.owner[b := u]
    ensures DataKept(v, w) && |w.owner| == |v.owner| + 1 && b !in v.owner && b != 0 && w.disk[b] == ZeroBlock()
  {
    hide Bit, MarkUsed, BitsOk, RepOk, NoHoles, IndexOwned, BBlock;
    FreeBlockIsUnused(l, v.disk, v.inodes, v.tab, v.owner, b);
    assert w.owner.Keys == v.owner.Keys + {b};
    assert |w.owner| == |w.owner.Keys| && |v.owner| == |v.owner.Keys|;
  }

  ghost function WithDirect(l: Layout, v: View, i: nat, bn: nat, b: nat): (w: View)
    requires Ok(l, v) && i < |v.inodes| && bn < NDIRECT && b < l.size
  {
    View(Taken(l, v.disk, b), SetAddr(v.inodes, i, bn, b), SetRow(v.tab, i, bn, b), v.owner[b := Data(i, bn)],
         v.logged + {BBlock(l, b), b})
  }

  lemma DirectStep(l: Layout, v: View, i: nat, bn: nat, b: nat)
    requires Ok(l, v) && i < |v.inodes| && bn < NDIRECT && v.tab[i][bn] == 0 && b < l.size && !Bit(l, v.disk, b)
    ensures MapStep(l, v, WithDirect(l, v, i, bn, b), i, bn, b)
  {
    hide FsOk, Bit, Taken, BBlock, DataKept;
    ShapeOf(l, v, i);
    AttachDirect(l, v.disk, v.inodes, v.tab, v.owner, i, bn, b);
    ShapeOf(l, WithDirect(l, v, i, bn, b), i);
    TakenKeepsData(l, v, b, Data(i, bn), WithDirect(l, v, i, bn, b));
  }

  ghost function WithIndex(l: Layout, v: View, i: nat, x: nat): (w: View)
    requires Ok(l, v) && i < |v.inodes| && x < l.size
  {
    View(Taken(l, v.disk, x), SetAddr(v.inodes, i, NDIRECT, x), v.tab, v.owner[x := Index(i)],
         v.logged + {BBlock(l, x), x})
  }

  lemma IndexStep(l: Layout, v: View, i: nat, x: nat)
    requires Ok(l, v) && i < |v.inodes| && IndexOf(v, i) == 0 && x < l.size && !Bit(l, v.disk, x)
    ensures var w := WithIndex(l, v, i, x);
            Ok(l, w) && InodesKept(v, w, i) && DataKept(v, w) && IndexOf(w, i) == x && x != 0 && |w.owner| == |v.owner| + 1
  {
    AttachIndex(l, v.disk, v.inodes, v.tab, v.owner, i, x);
    FreeBlockIsUnused(l, v.disk, v.inodes, v.tab, v.owner, x);
  }

  ghost function WithEntry(l: Layout, v: View, i: nat, bn: nat, b: nat): (w: View)
    requires Ok(l, v) && i < |v.inodes| && NDIRECT <= bn < MAXFILE && b < l.size && IndexOf(v, i) < l.size
  {
    var e := Taken(l, v.disk, b);
    var x := IndexOf(v, i);
    View(e[x := WithWord(e[x], bn - NDIRECT, b)], v.inodes, SetRow(v.tab, i, bn, b), v.owner[b := Data(i, bn)],
         v.logged + {BBlock(l, b), b} + {x})
  }

  lemma EntryStep(l: Layout, v: View, i: nat, bn: nat, b: nat)
    requires Ok(l, v) && i < |v.inodes| && NDIRECT <= bn < MAXFILE && v.tab[i][bn] == 0
    requires IndexOf(v, i) != 0 && b < l.size && !Bit(l, v.disk, b)
    ensures Owns(v.owner, IndexOf(v, i), Index(i)) && Taken(l, v.disk, b)[IndexOf(v, i)] == v.disk[IndexOf(v, i)]
    ensures MapStep(l, v, WithEntry(l, v, i, bn, b), i, bn, b)
  {
    assert Owns(v.owner, IndexOf(v, i), Index(i));
    var w := WithEntry(l, v, i, bn, b);
    FreeBlockIsUnused(l, v.disk, v.inodes, v.tab, v.owner, b);
    assert DataKept(v, w);
    assert Ok(l, w) by {
      AttachEntry(l, v.disk, v.inodes, v.tab, v.owner, i, bn, b);
    }
  }

  lemma SameRow(tab: Table, i: nat, bn: nat)
    requires i < |tab| && bn < |tab[i]|
    ensures SetRow(tab, i, bn, tab[i][bn]) == tab
  {
    assert tab[i][bn := tab[i][bn]] == tab[i];
  }

  /** Adding the indirect block first and the entry then is one step of bmap. */
  lemma IndexThenEntry(l: Layout, v: View, u: View, w: View, i: nat, bn: nat, b: nat)
    requires Ok(l, v) && i < |v.inodes| && NDIRECT <= bn < MAXFILE && v.tab[i][bn] == 0 && IndexOf(v, i) == 0
    requires Ok(l, u) && u.tab == v.tab && InodesKept(v, u, i) && DataKept(v, u) && IndexOf(u, i) != 0
    requires u.logged == v.logged + {BBlock(l, IndexOf(u, i)), IndexOf(u, i)} && v.owner.Keys <= u.owner.Keys
    requires |u.owner| == |v.owner| + 1
    requires MapStep(l, u, w, i, bn, b)
    ensures MapStep(l, v, w, i, bn, b)
  {
    hide OwnOk, BitsOk, RepOk, NoHoles, BBlock;
  }
}

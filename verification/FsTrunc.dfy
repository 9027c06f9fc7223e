/** Taking blocks away from a file (itrunc) keeps the ownership of all blocks in order. */
module FsTrunc {
  import opened FsLayout
  import opened FsState
  import opened FsAlloc
  import opened FsBytes
  import opened FsLogBound
  import opened FsWrite

  /** A block in use is marked; freeing it touches only the bitmap. */
  lemma UsedBlock(l: Layout, d: Disk, inodes: seq<Inode>, tab: Table, owner: map<nat, Use>, b: nat)
    requires FsOk(l, d, inodes, tab, owner) && b in owner && owner[b] != System
    ensures b < l.size && Bit(l, d, b)
    ensures BitsOk(l, MarkFree(l, d, b), owner - {b})
    ensures forall c :: c in owner && owner[c] != System ==> c < |d| && MarkFree(l, d, b)[c] == d[c]
    ensures SystemOwned(l, owner - {b})
  {
    hide Bit, MarkFree, RepOk, NoHoles, TableOwned, IndexOwned, FsOk;
    SystemParts(l, d, inodes, tab, owner);
    assert Reserved(l, BBlock(l, b));
    OnlyBitmapBlock(l, d, b);
    DropSystem(l, owner, b);
    forall c: nat | c < l.size ensures Bit(l, MarkFree(l, d, b), c) <==> c in owner - {b} {
      MarkedBit(l, d, b, c);
    }
  }

  lemma SystemParts(l: Layout, d: Disk, inodes: seq<Inode>, tab: Table, owner: map<nat, Use>)
    requires FsOk(l, d, inodes, tab, owner)
    ensures LayoutOk(l) && |d| == l.size && BitsOk(l, d, owner) && SystemOwned(l, owner)
  {
  }

  lemma OnlyBitmapBlock(l: Layout, d: Disk, b: nat)
    requires LayoutOk(l) && |d| == l.size && b < l.size
    ensures |MarkFree(l, d, b)| == |d| && forall c :: 0 <= c < |d| && c != BBlock(l, b) ==> MarkFree(l, d, b)[c] == d[c]
  {
  }

  lemma DropSystem(l: Layout, owner: map<nat, Use>, b: nat)
    requires SystemOwned(l, owner) && b in owner && owner[b] != System
    ensures SystemOwned(l, owner - {b})
  {
  }

  lemma DropData(owner: map<nat, Use>, tab: Table, i: nat, bn: nat)
    requires TableOwned(owner, tab) && i < |tab| && bn < MAXFILE && tab[i][bn] != 0
    ensures Owns(owner, tab[i][bn], Data(i, bn)) && TableOwned(owner - {tab[i][bn]}, SetRow(tab, i, bn, 0))
  {
    var b := tab[i][bn];
    var o, t := owner - {b}, SetRow(tab, i, bn, 0);
    assert Owns(owner, b, Data(i, bn));
    forall k: nat, c: nat | k < |t| && c < MAXFILE && t[k][c] != 0 ensures Owns(o, t[k][c], Data(k, c)) {
      assert t[k][c] == tab[k][c] && Owns(owner, tab[k][c], Data(k, c));
    }
  }

  lemma DropIndex(owner: map<nat, Use>, inodes: seq<Inode>, i: nat)
    requires IndexOwned(owner, inodes) && i < |inodes| && inodes[i].addrs[NDIRECT] != 0
    ensures Owns(owner, inodes[i].addrs[NDIRECT], Index(i))
    ensures IndexOwned(owner - {inodes[i].addrs[NDIRECT]}, SetAddr(inodes, i, NDIRECT, 0))
  {
    var x := inodes[i].addrs[NDIRECT];
    var o, r := owner - {x}, SetAddr(inodes, i, NDIRECT, 0);
    assert Owns(owner, x, Index(i));
    forall k: nat | k < |r| && r[k].addrs[NDIRECT] != 0 ensures Owns(o, r[k].addrs[NDIRECT], Index(k)) {
      assert Owns(owner, inodes[k].addrs[NDIRECT], Index(k));
    }
  }

  /** Freeing a block changes no indirect block, so every inode still reads the same. */
  lemma FreedKeepsRows(l: Layout, d: Disk, inodes: seq<Inode>, tab: Table, owner: map<nat, Use>, b: nat)
    requires FsOk(l, d, inodes, tab, owner) && b in owner && owner[b] != System
    ensures b < l.size && forall k :: 0 <= k < |inodes| ==> RepOk(MarkFree(l, d, b), inodes[k], tab[k])
  {
    UsedBlock(l, d, inodes, tab, owner, b);
    forall k: nat | k < |inodes| ensures RepOk(MarkFree(l, d, b), inodes[k], tab[k]) {
      assert RepOk(d, inodes[k], tab[k]);
      var x := inodes[k].addrs[NDIRECT];
      if x != 0 { assert Owns(owner, x, Index(k)); }
    }
  }

  lemma DetachDirect(l: Layout, d: Disk, inodes: seq<Inode>, tab: Table, owner: map<nat, Use>, i: nat, bn: nat)
    requires FsOk(l, d, inodes, tab, owner) && i < |tab| && inodes[i].size == 0 && bn < NDIRECT && tab[i][bn] != 0
    ensures Owns(owner, tab[i][bn], Data(i, bn)) && tab[i][bn] < l.size && Bit(l, d, tab[i][bn])
    ensures FsOk(l, MarkFree(l, d, tab[i][bn]), SetAddr(inodes, i, bn, 0), SetRow(tab, i, bn, 0), owner - {tab[i][bn]})
  {
    hide Bit, MarkFree;
    var b := tab[i][bn];
    var ns, t := SetAddr(inodes, i, bn, 0), SetRow(tab, i, bn, 0);
    DropData(owner, tab, i, bn);
    UsedBlock(l, d, inodes, tab, owner, b);
    FreedKeepsRows(l, d, inodes, tab, owner, b);
    assert forall k :: 0 <= k < |ns| ==> ns[k].addrs[NDIRECT] == inodes[k].addrs[NDIRECT];
    assert RepOk(MarkFree(l, d, b), inodes[i], tab[i]);
    assert ns[i].addrs[..NDIRECT] == inodes[i].addrs[..NDIRECT][bn := 0];
    assert t[i][..NDIRECT] == tab[i][..NDIRECT][bn := 0];
    assert RepOk(MarkFree(l, d, b), ns[i], t[i]);
  }

  /** An entry of the indirect block, freed and cleared. (itrunc does not clear it: it drops the
      whole indirect block at the end.) */
  lemma DetachEntry(l: Layout, d: Disk, inodes: seq<Inode>, tab: Table, owner: map<nat, Use>, i: nat, bn: nat)
    requires FsOk(l, d, inodes, tab, owner) && i < |tab| && inodes[i].size == 0
    requires NDIRECT <= bn < MAXFILE && tab[i][bn] != 0
    ensures Owns(owner, tab[i][bn], Data(i, bn)) && tab[i][bn] < l.size && Bit(l, d, tab[i][bn])
    ensures 0 < inodes[i].addrs[NDIRECT] < |d|
    ensures var x := inodes[i].addrs[NDIRECT];
            var e := MarkFree(l, d, tab[i][bn]);
            FsOk(l, e[x := WithWord(e[x], bn - NDIRECT, 0)], inodes, SetRow(tab, i, bn, 0), owner - {tab[i][bn]})
  {
    hide Bit, MarkFree, Word;
    var b := tab[i][bn];
    var x := inodes[i].addrs[NDIRECT];
    DropData(owner, tab, i, bn);
    UsedBlock(l, d, inodes, tab, owner, b);
    FreedKeepsRows(l, d, inodes, tab, owner, b);
    assert RepOk(d, inodes[i], tab[i]);
    assert Owns(owner, x, Index(i));
    var e := MarkFree(l, d, b);
    var f := e[x := WithWord(e[x], bn - NDIRECT, 0)];
    var t := SetRow(tab, i, bn, 0);
    forall k: nat | k < |inodes| ensures RepOk(f, inodes[k], t[k]) {
      assert RepOk(e, inodes[k], tab[k]);
      if k == i {
        assert t[i][..NDIRECT] == tab[i][..NDIRECT];
      } else {
        var y := inodes[k].addrs[NDIRECT];
        if y != 0 { assert Owns(owner, y, Index(k)); }
      }
    }
    forall c: nat | c < l.size ensures Bit(l, f, c) <==> c in owner - {b} {
      OtherBlockKeepsBits(l, e, x, WithWord(e[x], bn - NDIRECT, 0), c);
    }
  }

  lemma DetachIndex(l: Layout, d: Disk, inodes: seq<Inode>, tab: Table, owner: map<nat, Use>, i: nat)
    requires FsOk(l, d, inodes, tab, owner) && i < |tab| && inodes[i].addrs[NDIRECT] != 0
    requires forall bn :: NDIRECT <= bn < MAXFILE ==> tab[i][bn] == 0
    ensures Owns(owner, inodes[i].addrs[NDIRECT], Index(i)) && inodes[i].addrs[NDIRECT] < l.size
    ensures Bit(l, d, inodes[i].addrs[NDIRECT])
    ensures FsOk(l, MarkFree(l, d, inodes[i].addrs[NDIRECT]), SetAddr(inodes, i, NDIRECT, 0), tab,
                 owner - {inodes[i].addrs[NDIRECT]})
  {
    var x := inodes[i].addrs[NDIRECT];
    var ns := SetAddr(inodes, i, NDIRECT, 0);
    DropIndex(owner, inodes, i);
    UsedBlock(l, d, inodes, tab, owner, x);
    FreedKeepsRows(l, d, inodes, tab, owner, x);
    forall k: nat, c: nat | k < |tab| && c < MAXFILE && tab[k][c] != 0 ensures Owns(owner - {x}, tab[k][c], Data(k, c)) {
      assert Owns(owner, tab[k][c], Data(k, c));
    }
    assert RepOk(MarkFree(l, d, x), inodes[i], tab[i]);
    assert ns[i].addrs[..NDIRECT] == inodes[i].addrs[..NDIRECT];
    assert RepOk(MarkFree(l, d, x), ns[i], tab[i]);
  }

  /** What stands in a block that is nobody's does not matter. */
  lemma FreeBlockContents(l: Layout, d: Disk, inodes: seq<Inode>, tab: Table, owner: map<nat, Use>, x: nat, b: Block)
    requires FsOk(l, d, inodes, tab, owner) && x < l.size && x !in owner
    ensures FsOk(l, d[x := b], inodes, tab, owner)
  {
    assert !Reserved(l, x);
    forall k: nat | k < |inodes| ensures RepOk(d[x := b], inodes[k], tab[k]) {
      assert RepOk(d, inodes[k], tab[k]);
      var y := inodes[k].addrs[NDIRECT];
      if y != 0 { assert Owns(owner, y, Index(k)); }
    }
    forall c: nat | c < l.size ensures Bit(l, d[x := b], c) <==> c in owner {
      OtherBlockKeepsBits(l, d, x, b, c);
    }
  }

  // ---- The loops of itrunc -------------------------------------------------------------------

  /** The inodes as if inode i were empty already. */
  function Emptied(inodes: seq<Inode>, i: nat): (r: seq<Inode>)
    requires i < |inodes|
    ensures |r| == |inodes| && r[i].addrs == inodes[i].addrs && r[i].size == 0
  {
    inodes[i := inodes[i].(size := 0)]
  }

  lemma EmptiedOk(l: Layout, v: View, i: nat)
    requires Ok(l, v) && i < |v.inodes|
    ensures FsOk(l, v.disk, Emptied(v.inodes, i), v.tab, v.owner)
  {
    var r := Emptied(v.inodes, i);
    assert IndexOwned(v.owner, r);
    assert RepOk(v.disk, r[i], v.tab[i]);
  }

  predicate OfFile(u: Use, i: nat) {
    (u.Data? || u.Index?) && u.inum == i
  }

  /** Some blocks of file i, and none of any other, have been given back. */
  ghost predicate GaveBack(o: map<nat, Use>, p: map<nat, Use>, i: nat) {
    && (forall b :: b in p ==> b in o && p[b] == o[b])
    && (forall b :: b in o && !OfFile(o[b], i) ==> b in p)
  }

  /** Blocks have been taken from file i only, and nothing else has changed. */
  ghost predicate TakenFrom(v: View, w: View, i: nat) {
    && OthersKept(v, w, i) && i < |v.inodes|
    && w.inodes[i] == v.inodes[i].(addrs := w.inodes[i].addrs)
    && GaveBack(v.owner, w.owner, i)
  }

  lemma GiveBack(o: map<nat, Use>, p: map<nat, Use>, i: nat, b: nat)
    requires GaveBack(o, p, i) && b in p && OfFile(p[b], i)
    ensures GaveBack(o, p - {b}, i)
  {
  }

  /** A change of bitmap blocks and of file i's inode and row concerns no other file. */
  lemma BitmapOnly(l: Layout, v: View, w: View, x: View, i: nat)
    requires Ok(l, v) && OthersKept(v, w, i)
    requires |x.disk| == |w.disk| && |x.tab| == |w.tab| && |x.inodes| == |w.inodes|
    requires forall c: nat :: c < |w.disk| && !Reserved(l, c) ==> x.disk[c] == w.disk[c]
    requires forall j :: 0 <= j < |w.tab| && j != i ==> x.tab[j] == w.tab[j] && x.inodes[j] == w.inodes[j]
    ensures OthersKept(v, x, i)
  {
    forall j: nat, bn: nat | j < |v.tab| && j != i && bn < |v.tab[j]| && 0 < v.tab[j][bn] < |v.disk|
      ensures x.disk[v.tab[j][bn]] == v.disk[v.tab[j][bn]]
    {
      assert Owns(v.owner, v.tab[j][bn], Data(j, bn));
      assert !Reserved(l, v.tab[j][bn]);
      assert w.disk[v.tab[j][bn]] == v.disk[v.tab[j][bn]];
    }
  }

  lemma FreedBitmapOnly(l: Layout, d: Disk, b: nat, c: nat)
    requires LayoutOk(l) && |d| == l.size && b < l.size && c < l.size && !Reserved(l, c)
    ensures MarkFree(l, d, b)[c] == d[c]
  {
    assert Reserved(l, BBlock(l, b));
  }

  lemma DirectRow(l: Layout, d: Disk, inodes: seq<Inode>, tab: Table, owner: map<nat, Use>, i: nat, bn: nat)
    requires FsOk(l, d, inodes, tab, owner) && i < |inodes| && bn < NDIRECT
    ensures |tab| == |inodes| && |tab[i]| == MAXFILE && |inodes[i].addrs| == NDIRECT + 1 && |d| == l.size
    ensures inodes[i].addrs[bn] == tab[i][bn]
    ensures tab[i][bn] == 0 ==> tab[i][bn := 0] == tab[i]
  {
    assert RepOk(d, inodes[i], tab[i]);
    assert inodes[i].addrs[..NDIRECT][bn] == tab[i][..NDIRECT][bn];
  }

  lemma MarkFreeElsewhere(l: Layout, d: Disk, b: nat, x: nat, g: Block)
    requires LayoutOk(l) && |d| == l.size && b < l.size && x < l.size && x != BBlock(l, b)
    ensures MarkFree(l, d[x := g], b) == MarkFree(l, d, b)[x := g]
  {
  }

  /** With no block left in its table and no indirect block, a file owns nothing. */
  lemma OwnsNothing(owner: map<nat, Use>, inodes: seq<Inode>, tab: Table, i: nat)
    requires TableOwned(owner, tab) && IndexOwned(owner, inodes) && i < |tab| == |inodes|
    requires inodes[i].addrs[NDIRECT] == 0 && forall bn :: 0 <= bn < MAXFILE ==> tab[i][bn] == 0
    ensures forall b :: b in owner ==> !OfFile(owner[b], i)
  {
  }

  /** The state inside itrunc's second loop, with the indirect block x read as g: the entries
      already freed count as cleared there, though the block itself still has them. */
  ghost predicate Draining(l: Layout, v: View, w: View, i: nat, x: nat, g: Block, j: nat) {
    && Ok(l, v) && TakenFrom(v, w, i) && i < |w.inodes| && |w.disk| == l.size && x < l.size && LayoutOk(l)
    && FsOk(l, w.disk[x := g], Emptied(w.inodes, i), w.tab, w.owner)
    && |w.inodes[i].addrs| == NDIRECT + 1 && w.inodes[i].addrs[NDIRECT] == x != 0
    && |w.tab| == |w.inodes| && |w.tab[i]| == MAXFILE && j <= NINDIRECT
    && (forall bn :: 0 <= bn < NDIRECT + j ==> w.tab[i][bn] == 0)
    && (forall k :: j <= k < NINDIRECT ==> Word(w.disk[x], k) == w.tab[i][NDIRECT + k])
  }

  lemma DrainStart(l: Layout, v: View, w: View, i: nat)
    requires Ok(l, v) && TakenFrom(v, w, i) && i < |w.inodes| && FsOk(l, w.disk, Emptied(w.inodes, i), w.tab, w.owner)
    requires forall bn :: 0 <= bn < NDIRECT ==> w.tab[i][bn] == 0
    requires |w.inodes[i].addrs| == NDIRECT + 1 && w.inodes[i].addrs[NDIRECT] != 0
    ensures var x := w.inodes[i].addrs[NDIRECT]; x < |w.disk| && Draining(l, v, w, i, x, w.disk[x], 0)
  {
    var x := w.inodes[i].addrs[NDIRECT];
    assert Owns(w.owner, Emptied(w.inodes, i)[i].addrs[NDIRECT], Index(i));
    assert w.disk[x := w.disk[x]] == w.disk;
    assert RepOk(w.disk, Emptied(w.inodes, i)[i], w.tab[i]);
    forall k | 0 <= k < NINDIRECT ensures Word(w.disk[x], k) == w.tab[i][NDIRECT + k] {
      assert w.tab[i][NDIRECT + k] == Word(w.disk[x], NDIRECT + k - NDIRECT);
    }
  }

  /** What is known of entry j before it is freed. */
  lemma DrainEntry(l: Layout, v: View, w: View, i: nat, x: nat, g: Block, j: nat)
    requires Draining(l, v, w, i, x, g, j) && j < NINDIRECT && w.tab[i][NDIRECT + j] != 0
    ensures var b := w.tab[i][NDIRECT + j];
            b in w.owner && OfFile(w.owner[b], i) && b < l.size && Bit(l, w.disk, b) && x != BBlock(l, b)
  {
    var b := w.tab[i][NDIRECT + j];
    DetachEntry(l, w.disk[x := g], Emptied(w.inodes, i), w.tab, w.owner, i, NDIRECT + j);
    IndexOutside(l, w, i, x, g, b);
  }

  lemma IndexOutside(l: Layout, w: View, i: nat, x: nat, g: Block, b: nat)
    requires i < |w.inodes| && |w.disk| == l.size && x < l.size && LayoutOk(l) && b < l.size
    requires FsOk(l, w.disk[x := g], Emptied(w.inodes, i), w.tab, w.owner) && w.inodes[i].addrs[NDIRECT] == x != 0
    ensures x in w.owner && w.owner[x] == Index(i) && x != BBlock(l, b)
    ensures Bit(l, w.disk, b) <==> Bit(l, w.disk[x := g], b)
  {
    hide Bit, RepOk, NoHoles, BitsOk, TableOwned;
    assert Owns(w.owner, Emptied(w.inodes, i)[i].addrs[NDIRECT], Index(i));
    assert !Reserved(l, x) && Reserved(l, BBlock(l, b));
    OtherBlockKeepsBits(l, w.disk, x, g, b);
  }

  /** Entry j freed. */
  lemma DrainNext(l: Layout, v: View, w: View, y: View, i: nat, x: nat, g: Block, j: nat)
    requires Draining(l, v, w, i, x, g, j) && j < NINDIRECT && w.tab[i][NDIRECT + j] != 0
    requires TakenFrom(v, y, i) && y.inodes == w.inodes && y.tab == SetRow(w.tab, i, NDIRECT + j, 0)
    requires w.tab[i][NDIRECT + j] < l.size && y.owner == w.owner - {w.tab[i][NDIRECT + j]}
    requires y.disk == MarkFree(l, w.disk, w.tab[i][NDIRECT + j])
    ensures Draining(l, v, y, i, x, WithWord(g, j, 0), j + 1)
  {
    var b := w.tab[i][NDIRECT + j];
    DrainEntry(l, v, w, i, x, g, j);
    MarkFreeElsewhere(l, w.disk, b, x, g);
    DetachEntry(l, w.disk[x := g], Emptied(w.inodes, i), w.tab, w.owner, i, NDIRECT + j);
    var e := MarkFree(l, w.disk[x := g], b);
    assert e[x] == g;
    assert e[x := WithWord(g, j, 0)] == y.disk[x := WithWord(g, j, 0)];
    assert y.disk[x] == w.disk[x];
  }

  /** All entries freed, and then the indirect block itself. */
  lemma DrainEnd(l: Layout, v: View, w: View, y: View, i: nat, x: nat, g: Block)
    requires Draining(l, v, w, i, x, g, NINDIRECT) && |y.inodes| == |w.inodes|
    requires y.inodes == SetAddr(w.inodes, i, NDIRECT, 0) && y.tab == w.tab && y.owner == w.owner - {x}
    requires y.disk == MarkFree(l, w.disk, x)
    ensures FsOk(l, y.disk, Emptied(y.inodes, i), y.tab, y.owner)
  {
    hide RepOk, NoHoles, BitsOk, OwnOk, MarkFree, Word, TakenFrom;
    IndexOutside(l, w, i, x, g, x);
    MarkFreeElsewhere(l, w.disk, x, x, g);
    DetachIndex(l, w.disk[x := g], Emptied(w.inodes, i), w.tab, w.owner, i);
    var e := MarkFree(l, w.disk[x := g], x);
    assert Emptied(y.inodes, i) == SetAddr(Emptied(w.inodes, i), i, NDIRECT, 0);
    FreeBlockContents(l, e, Emptied(y.inodes, i), y.tab, y.owner, x, y.disk[x]);
    assert e[x := y.disk[x]] == y.disk;
  }

  lemma NothingTaken(v: View, i: nat)
    requires i < |v.inodes| == |v.tab|
    ensures TakenFrom(v, v, i)
  {
  }

  lemma NoIndex(l: Layout, d: Disk, inodes: seq<Inode>, tab: Table, owner: map<nat, Use>, i: nat)
    requires FsOk(l, d, inodes, tab, owner) && i < |inodes| && inodes[i].addrs[NDIRECT] == 0
    requires forall bn :: 0 <= bn < NDIRECT ==> tab[i][bn] == 0
    ensures |tab| == |inodes| && |tab[i]| == MAXFILE && forall bn :: 0 <= bn < MAXFILE ==> tab[i][bn] == 0
  {
    assert RepOk(d, inodes[i], tab[i]);
  }

  /** What itrunc has achieved when its loops are done and the size is set to 0. */
  lemma TakenFacts(v: View, w: View, i: nat)
    requires TakenFrom(v, w, i)
    ensures OthersKept(v, w, i)
  {
  }

  lemma SnugLogged(v: View, w: View)
    requires AllSnug(v) && w == v.(logged := w.logged)
    ensures AllSnug(w)
  {
  }

  lemma EmptySnug(v: View, w: View, i: nat)
    requires AllSnug(v) && OthersKept(v, w, i) && i < |w.inodes| && forall bn :: 0 <= bn < |w.tab[i]| ==> w.tab[i][bn] == 0
    ensures AllSnug(w.(inodes := Emptied(w.inodes, i)))
  {
    var x := w.(inodes := Emptied(w.inodes, i));
    forall k | 0 <= k < |x.inodes| ensures Snug(x.inodes[k], x.tab[k]) {
      assert Snug(v.inodes[k], v.tab[k]);
    }
  }

  lemma EmptyFile(l: Layout, v: View, w: View, i: nat)
    requires Ok(l, v) && i < |w.inodes| && FsOk(l, w.disk, Emptied(w.inodes, i), w.tab, w.owner) && TakenFrom(v, w, i)
    requires |w.tab| == |w.inodes| && |w.tab[i]| == MAXFILE && forall bn :: 0 <= bn < MAXFILE ==> w.tab[i][bn] == 0
    requires |w.inodes[i].addrs| == NDIRECT + 1 && w.inodes[i].addrs[NDIRECT] == 0
    ensures var x := w.(inodes := Emptied(w.inodes, i));
            && Ok(l, x) && |x.inodes| == |v.inodes| && Bytes(l, x, i) == []
            && x.inodes[i].kind == v.inodes[i].kind && x.inodes[i].nlink == v.inodes[i].nlink
            && (forall j: nat :: j < |v.inodes| && j != i ==> Bytes(l, x, j) == Bytes(l, v, j) && x.inodes[j] == v.inodes[j])
    ensures forall b :: b in w.owner <==> b in v.owner && !OfFile(v.owner[b], i)
    ensures forall b :: b in w.owner ==> w.owner[b] == v.owner[b]
  {
    var x := w.(inodes := Emptied(w.inodes, i));
    OwnsNothing(w.owner, x.inodes, w.tab, i);
    assert OthersKept(v, x, i);
    forall j: nat | j < |v.inodes| && j != i ensures Bytes(l, x, j) == Bytes(l, v, j) {
      OthersBytes(l, v, x, i, j);
    }
  }
}

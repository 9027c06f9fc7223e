/** The state of the file layer (fs.c): the disk with its free bitmap, the inodes, and which block
    belongs to what. */
module FsState {
  import opened Common
  import opened FsLayout

  const T_DIR := 1
  const T_DEV := 3

  /** The superblock: total blocks, inodes, and log blocks (at the end of the disk). */
  datatype Layout = Layout(size: nat, ninodes: nat, nlog: nat)

  datatype Inode = Inode(kind: int, nlink: int, size: nat, addrs: seq<nat>)

  /** What a block in use is for. */
  datatype Use = System | Data(inum: nat, bn: nat) | Index(inum: nat)

  /** BBLOCK: the bitmap block with the bit of block b. */
  function BBlock(l: Layout, b: nat): (s: nat) {
    b / BPB + l.ninodes / IPB + 3
  }

  function IBlock(inum: nat): (s: nat) {
    inum / IPB + 2
  }

  function DataStart(l: Layout): (s: nat) {
    l.ninodes / IPB + 3 + l.size / BPB + 1
  }

  predicate LayoutOk(l: Layout) {
    l.size < TWO32 / 2 && DataStart(l) + l.nlog <= l.size
  }

  /** The log region lies at the end of the disk. */
  predicate InLog(l: Layout, b: nat) {
    l.size <= b + l.nlog
  }

  /** Boot block, superblock, inodes and bitmap at the front, and the log at the end. */
  predicate Reserved(l: Layout, b: nat) {
    b < DataStart(l) || InLog(l, b)
  }

  // ---- The bitmap ----------------------------------------------------------------------------

  predicate Bit(l: Layout, d: Disk, b: nat)
    requires LayoutOk(l) && |d| == l.size && b < l.size
  {
    BitOf(d[BBlock(l, b)][b % BPB / 8], b % BPB % 8)
  }

  function MarkUsed(l: Layout, d: Disk, b: nat): (e: Disk)
    requires LayoutOk(l) && |d| == l.size && b < l.size
    ensures |e| == |d| && forall s :: 0 <= s < |d| && s != BBlock(l, b) ==> e[s] == d[s]
  {
    var s, i := BBlock(l, b), b % BPB;
    d[s := d[s][i / 8 := SetBit(d[s][i / 8], i % 8)]]
  }

  function MarkFree(l: Layout, d: Disk, b: nat): (e: Disk)
    requires LayoutOk(l) && |d| == l.size && b < l.size
    ensures |e| == |d| && forall s :: 0 <= s < |d| && s != BBlock(l, b) ==> e[s] == d[s]
  {
    var s, i := BBlock(l, b), b % BPB;
    d[s := d[s][i / 8 := ClearBit(d[s][i / 8], i % 8)]]
  }

  lemma SameBit(b: nat, c: nat)
    requires b / BPB == c / BPB && b % BPB / 8 == c % BPB / 8 && b % BPB % 8 == c % BPB % 8
    ensures b == c
  {
  }

  lemma MarkedBit(l: Layout, d: Disk, b: nat, c: nat)
    requires LayoutOk(l) && |d| == l.size && b < l.size && c < l.size
    ensures Bit(l, MarkUsed(l, d, b), c) <==> c == b || Bit(l, d, c)
    ensures Bit(l, MarkFree(l, d, b), c) <==> c != b && Bit(l, d, c)
  {
    if b / BPB == c / BPB && b % BPB / 8 == c % BPB / 8 {
      if b % BPB % 8 == c % BPB % 8 { SameBit(b, c); }
    }
  }

  /** Changing a block that is not part of the bitmap changes no bit. */
  lemma OtherBlockKeepsBits(l: Layout, d: Disk, s: nat, x: Block, c: nat)
    requires LayoutOk(l) && |d| == l.size && s < l.size && c < l.size && DataStart(l) <= s
    ensures Bit(l, d[s := x], c) <==> Bit(l, d, c)
  {
  }

  // ---- Ownership -----------------------------------------------------------------------------

  /** `tab` lists the data blocks of every inode; 0 means none. */
  type Table = seq<seq<nat>>

  predicate Shaped(l: Layout, d: Disk, inodes: seq<Inode>, tab: Table) {
    && LayoutOk(l) && |d| == l.size && |inodes| == |tab| == l.ninodes
    && (forall i :: 0 <= i < |inodes| ==> |inodes[i].addrs| == NDIRECT + 1 && inodes[i].size <= MAXFILE * BSIZE)
    && (forall i :: 0 <= i < |tab| ==> |tab[i]| == MAXFILE)
  }

  ghost predicate SystemOwned(l: Layout, owner: map<nat, Use>) {
    && (forall b :: b in owner ==> b < l.size && (owner[b] == System <==> Reserved(l, b)))
    && (forall b :: 0 <= b < l.size && Reserved(l, b) ==> b in owner)
  }

  predicate Owns(owner: map<nat, Use>, b: nat, u: Use) {
    b in owner && owner[b] == u
  }

  ghost predicate TableOwned(owner: map<nat, Use>, tab: Table) {
    && (forall i :: 0 <= i < |tab| ==> |tab[i]| == MAXFILE)
    && (forall i: nat, bn: nat :: i < |tab| && bn < MAXFILE && tab[i][bn] != 0 ==> Owns(owner, tab[i][bn], Data(i, bn)))
    && (forall b :: b in owner && owner[b].Data? ==>
          && b != 0 && owner[b].inum < |tab| && owner[b].bn < MAXFILE && tab[owner[b].inum][owner[b].bn] == b)
  }

  ghost predicate IndexOwned(owner: map<nat, Use>, inodes: seq<Inode>) {
    && (forall i :: 0 <= i < |inodes| ==> |inodes[i].addrs| == NDIRECT + 1)
    && (forall i: nat :: i < |inodes| && inodes[i].addrs[NDIRECT] != 0 ==> Owns(owner, inodes[i].addrs[NDIRECT], Index(i)))
    && (forall b :: b in owner && owner[b].Index? ==>
          && b != 0 && owner[b].inum < |inodes| && inodes[owner[b].inum].addrs[NDIRECT] == b)
  }

  /** A block has at most one use, which the table (or the inode) confirms, and everything the
      table lists is in use for just that. */
  ghost predicate OwnOk(l: Layout, owner: map<nat, Use>, inodes: seq<Inode>, tab: Table) {
    SystemOwned(l, owner) && TableOwned(owner, tab) && IndexOwned(owner, inodes)
  }

  /** The bitmap marks exactly the blocks in use. */
  ghost predicate BitsOk(l: Layout, d: Disk, owner: map<nat, Use>)
    requires LayoutOk(l) && |d| == l.size
  {
    forall b: nat :: b < l.size ==> (Bit(l, d, b) <==> b in owner)
  }

  /** The direct and indirect block numbers of an inode are those of its table. */
  predicate RepOk(d: Disk, ino: Inode, row: seq<nat>)
    requires |ino.addrs| == NDIRECT + 1 && |row| == MAXFILE
  {
    && ino.addrs[..NDIRECT] == row[..NDIRECT]
    && (ino.addrs[NDIRECT] == 0 ==> forall bn :: NDIRECT <= bn < MAXFILE ==> row[bn] == 0)
    && (0 < ino.addrs[NDIRECT] < |d| ==>
          forall bn :: NDIRECT <= bn < MAXFILE ==> row[bn] == Word(d[ino.addrs[NDIRECT]], bn - NDIRECT))
  }

  /** Every block below the size is there. */
  predicate NoHoles(ino: Inode, row: seq<nat>)
    requires |row| == MAXFILE
  {
    forall bn :: 0 <= bn < MAXFILE && bn * BSIZE < ino.size ==> row[bn] != 0
  }

  ghost predicate FsOk(l: Layout, d: Disk, inodes: seq<Inode>, tab: Table, owner: map<nat, Use>) {
    && Shaped(l, d, inodes, tab)
    && OwnOk(l, owner, inodes, tab)
    && BitsOk(l, d, owner)
    && (forall i :: 0 <= i < |inodes| ==> RepOk(d, inodes[i], tab[i]))
    && (forall i :: 0 <= i < |inodes| ==> NoHoles(inodes[i], tab[i]))
  }

  // ---- A new file system -----------------------------------------------------------------------

  /** A zeroed disk with the bits of the reserved blocks below k set, those of the log region included. */
  function Formatted(l: Layout, k: nat): (d: Disk)
    requires LayoutOk(l) && k <= l.size
    ensures |d| == l.size
  {
    if k == 0 then seq(l.size, _ => ZeroBlock())
    else if Reserved(l, k - 1) then MarkUsed(l, Formatted(l, k - 1), k - 1)
    else Formatted(l, k - 1)
  }

  lemma {:induction false} FormattedBits(l: Layout, k: nat, b: nat)
    requires LayoutOk(l) && k <= l.size && b < l.size
    ensures Bit(l, Formatted(l, k), b) <==> b < k && Reserved(l, b)
  {
    hide Bit, MarkUsed;
    if k == 0 {
      NoBits(l, b);
    } else {
      FormattedBits(l, k - 1, b);
      if Reserved(l, k - 1) { MarkedBit(l, Formatted(l, k - 1), k - 1, b); }
    }
  }

  lemma {:induction false} ZeroHasNoBits(k: nat)
    ensures !BitOf(0, k)
  {
    if k > 0 { ZeroHasNoBits(k - 1); }
  }

  lemma NoBits(l: Layout, b: nat)
    requires LayoutOk(l) && b < l.size
    ensures !Bit(l, Formatted(l, 0), b)
  {
    ZeroHasNoBits(b % BPB % 8);
  }

  function NoInodes(n: nat): (r: seq<Inode>) {
    seq(n, _ => Inode(0, 0, 0, seq(NDIRECT + 1, _ => 0)))
  }

  function NoTable(n: nat): (r: Table) {
    seq(n, _ => seq(MAXFILE, _ => 0))
  }

  function SystemOwner(l: Layout): (r: map<nat, Use>) {
    map b: nat | b < l.size && Reserved(l, b) :: System
  }

  /** There is a file system with no files at all. */
  lemma NewFsOk(l: Layout)
    requires LayoutOk(l)
    ensures FsOk(l, Formatted(l, l.size), NoInodes(l.ninodes), NoTable(l.ninodes), SystemOwner(l))
  {
    hide Bit, Word;
    forall b: nat | b < l.size ensures Bit(l, Formatted(l, l.size), b) <==> b in SystemOwner(l) { FormattedBits(l, l.size, b); }
  }

  // ---- Allocating a block --------------------------------------------------------------------

  /** A free block is nobody's, and marking and zeroing it touches no block in use but the
      bitmap. */
  lemma FreeBlockIsUnused(l: Layout, d: Disk, inodes: seq<Inode>, tab: Table, owner: map<nat, Use>, b: nat)
    requires FsOk(l, d, inodes, tab, owner) && b < l.size && !Bit(l, d, b)
    ensures b !in owner && DataStart(l) <= b && b != 0 && !Reserved(l, b)
    ensures var e := MarkUsed(l, d, b)[b := ZeroBlock()];
            && |e| == |d| && e[b] == ZeroBlock()
            && (forall c :: c in owner && owner[c] != System ==> e[c] == d[c])
            && BitsOk(l, e, owner[b := Data(0, 0)])
  {
    hide RepOk, NoHoles, TableOwned, IndexOwned, Bit, MarkUsed;
    var e := MarkUsed(l, d, b)[b := ZeroBlock()];
    forall c: nat | c < l.size ensures Bit(l, e, c) <==> c == b || c in owner {
      OtherBlockKeepsBits(l, MarkUsed(l, d, b), b, ZeroBlock(), c);
      MarkedBit(l, d, b, c);
    }
    assert Reserved(l, BBlock(l, b));
  }

  /** Only the set of blocks in use matters to the bitmap. */
  lemma BitsOfKeys(l: Layout, d: Disk, o: map<nat, Use>, p: map<nat, Use>)
    requires LayoutOk(l) && |d| == l.size && BitsOk(l, d, o) && o.Keys == p.Keys
    ensures BitsOk(l, d, p)
  {
    assert forall b :: b in o <==> b in p.Keys;
  }
}

/** fs.c as code: block allocation, the map from file blocks to disk blocks, and reading, writing
    and truncating a file. A panic of the kernel is a result of its own. The ghost fields say what
    every block is for (`owner`), which blocks each file has (`tab`), and which blocks have been
    passed to log_write in the current transaction (`logged`). */
module Fs {
  import opened Common
  import opened FsLayout
  import opened FsState
  import opened FsAlloc
  import opened FsBytes
  import opened FsLogBound
  import opened FsWrite
  import opened FsTrunc

  datatype Alloc = Block(b: nat) | NoBlocks

  /** The result of readi and writei: the count, -1, the device's business, or a panic. */
  datatype Io = Count(n: nat) | Error | Device | Panic

  class Fs {
    const l: Layout
    var disk: Disk
    var inodes: seq<Inode>
    var dinodes: seq<Inode>
    ghost var tab: Table
    ghost var owner: map<nat, Use>
    ghost var logged: set<nat>

    ghost predicate Valid()
      reads this
    {
      FsOk(l, disk, inodes, tab, owner) && |dinodes| == |inodes|
    }

    /** A file system without files, whose bitmap also marks the log region. */
    constructor (layout: Layout)
      requires LayoutOk(layout)
      ensures Valid() && Settled() && l == layout && forall i: nat :: i < |inodes| ==> inodes[i].size == 0
    {
      l, disk := layout, Formatted(layout, layout.size);
      inodes, dinodes := NoInodes(layout.ninodes), NoInodes(layout.ninodes);
      tab, owner, logged := NoTable(layout.ninodes), SystemOwner(layout), {};
      NewFsOk(layout);
    }

    /** balloc's inner loop: the first clear bit in the bitmap block of b, or where it ends. */
    method ClearBitAt(b: nat) returns (bi: nat)
      requires LayoutOk(l) && |disk| == l.size && b < l.size && b % BPB == 0
      ensures bi <= BPB && forall c: nat :: b <= c < b + bi && c < l.size ==> Bit(l, disk, c)
      ensures bi < BPB && b + bi < l.size ==> !Bit(l, disk, b + bi)
      ensures bi == BPB || b + bi < l.size || b + bi == l.size
    {
      hide BitOf, Reserved;
      var bp := disk[BBlock(l, b)];
      bi := 0;
      while bi < BPB && b + bi < l.size
        invariant 0 <= bi <= BPB && b + bi <= l.size
        invariant forall c: nat :: b <= c < b + bi && c < l.size ==> Bit(l, disk, c)
      {
        InBlock(b, bi);
        if !BitOf(bp[bi / 8], bi % 8) { return; }
        bi := bi + 1;
      }
    }

    /** balloc: the first free block, marked and zeroed. On a disk whose log region is not marked in use, as mkfs
        leaves it, that is a block of the log exactly when no other block is free and one of those is. */
    method Balloc() returns (r: Alloc)
      requires LayoutOk(l) && |disk| == l.size
      modifies this`disk, this`logged
      ensures r.Block? ==>
                && r.b < l.size && !Bit(l, old(disk), r.b)
                && (forall c: nat :: c < r.b ==> Bit(l, old(disk), c))
                && disk == Taken(l, old(disk), r.b)
                && logged == old(logged) + {BBlock(l, r.b), r.b}
      ensures r.NoBlocks? ==>
                && disk == old(disk) && logged == old(logged)
                && forall c: nat :: c < l.size ==> Bit(l, disk, c)
      ensures r.Block? && InLog(l, r.b) <==>
                (forall c: nat :: c < l.size && !InLog(l, c) ==> Bit(l, old(disk), c))
                && exists c: nat :: c < l.size && !Bit(l, old(disk), c)
    {
      hide Bit, Reserved, BBlock, Taken, InLog;
      var b := 0;
      while b < l.size
        invariant b % BPB == 0
        invariant disk == old(disk) && logged == old(logged)
        invariant forall c: nat :: c < b && c < l.size ==> Bit(l, disk, c)
        decreases l.size - b
      {
        var bi := ClearBitAt(b);
        if bi < BPB && b + bi < l.size {
          FirstInLog(disk, b + bi);
          Take(b, bi);
          return Block(b + bi);
        }
        b := b + BPB;
      }
      r := NoBlocks;
    }

    /** What balloc does with the bit it found: it is set, and the block zeroed. */
    method Take(b: nat, bi: nat)
      requires LayoutOk(l) && |disk| == l.size && b % BPB == 0 && bi < BPB && b + bi < l.size
      modifies this`disk, this`logged
      ensures disk == Taken(l, old(disk), b + bi) && logged == old(logged) + {BBlock(l, b + bi), b + bi}
    {
      hide Bit, Reserved;
      InBlock(b, bi);
      var bp := disk[BBlock(l, b)];
      bp := bp[bi / 8 := SetBit(bp[bi / 8], bi % 8)];
      disk := disk[BBlock(l, b) := bp];
      disk := disk[b + bi := ZeroBlock()];
      logged := logged + {BBlock(l, b), b + bi};
    }

    /** The first free block is in the log exactly when no block before the log is free. */
    lemma FirstInLog(d: Disk, b: nat)
      requires LayoutOk(l) && |d| == l.size && b < l.size && !Bit(l, d, b) && forall c: nat :: c < b ==> Bit(l, d, c)
      ensures InLog(l, b) <==> forall c: nat :: c < l.size && !InLog(l, c) ==> Bit(l, d, c)
    {
      hide Bit;
    }

    lemma InBlock(b: nat, bi: nat)
      requires b % BPB == 0 && bi < BPB
      ensures BBlock(l, b) == BBlock(l, b + bi) && (b + bi) % BPB == bi
    {
    }

    /** bfree: panics on a block that is already free. */
    method Bfree(b: nat) returns (panics: bool)
      requires LayoutOk(l) && |disk| == l.size && b < l.size
      modifies this`disk, this`logged
      ensures panics <==> !Bit(l, old(disk), b)
      ensures disk == if panics then old(disk) else MarkFree(l, old(disk), b)
      ensures logged == if panics then old(logged) else old(logged) + {BBlock(l, b)}
    {
      var bp := disk[BBlock(l, b)];
      var bi := b % BPB;
      if !BitOf(bp[bi / 8], bi % 8) {
        return true;
      }
      disk := disk[BBlock(l, b) := bp[bi / 8 := ClearBit(bp[bi / 8], bi % 8)]];
      logged := logged + {BBlock(l, b)};
      panics := false;
    }

    ghost function Now(): (v: View)
      reads this
    {
      View(disk, inodes, tab, owner, logged)
    }

    /** bmap: the disk block of file block bn, allocated if it is not there yet; panics when bn is
        out of range or fewer blocks are free than that takes. */
    method Bmap(inum: nat, bn: nat) returns (r: Alloc)
      requires Valid() && inum < |inodes|
      modifies this`disk, this`inodes, this`tab, this`owner, this`logged
      ensures r.Block? ==> bn < MAXFILE && Valid() && MapStep(l, old(Now()), Now(), inum, bn, r.b)
      ensures r.NoBlocks? ==> bn >= MAXFILE || (Full() && old(tab[inum])[bn] == 0 && |old(owner)| + old(Need(inum, bn)) > l.size)
    {
      hide Bit, Word, MarkUsed, RepOk, NoHoles, TableOwned, IndexOwned, BitsOk;
      if bn < NDIRECT {
        var addr := inodes[inum].addrs[bn];
        DirectEntry(inum, bn);
        if addr == 0 {
          r := Balloc();
          if r.Block? {
            DirectStep(l, old(Now()), inum, bn, r.b);
            inodes := SetAddr(inodes, inum, bn, r.b);
            tab := SetRow(tab, inum, bn, r.b);
            owner := owner[r.b := Data(inum, bn)];
          } else {
            FullUse(l, Now());
          }
          return;
        }
        return Block(addr);
      }
      if bn >= MAXFILE {
        return NoBlocks;
      }
      r := BmapIndirect(inum, bn);
    }

    /** The second half of bmap: through the indirect block. */
    method BmapIndirect(inum: nat, bn: nat) returns (r: Alloc)
      requires Valid() && inum < |inodes| && NDIRECT <= bn < MAXFILE
      modifies this`disk, this`inodes, this`tab, this`owner, this`logged
      ensures r.Block? ==> Valid() && MapStep(l, old(Now()), Now(), inum, bn, r.b)
      ensures r.NoBlocks? ==> Full() && old(tab[inum])[bn] == 0 && |old(owner)| + old(Need(inum, bn)) > l.size
    {
      hide Bit, MarkUsed, BitsOk, NoHoles, TableOwned, IndexOwned, DataKept, AddLog, Word;
      var addr := inodes[inum].addrs[NDIRECT];
      assert RepOk(disk, inodes[inum], tab[inum]);
      if addr == 0 {
        r := Balloc();
        if r.NoBlocks? {
          FullUse(l, Now());
          return;
        }
        addr := r.b;
        IndexStep(l, old(Now()), inum, addr);
        inodes := SetAddr(inodes, inum, NDIRECT, addr);
        owner := owner[addr := Index(inum)];
      }
      ghost var u := Now();
      r := MapEntry(inum, bn, addr);
      if r.Block? && old(inodes[inum]).addrs[NDIRECT] == 0 {
        assert RepOk(old(disk), old(inodes[inum]), old(tab[inum]));
        IndexThenEntry(l, old(Now()), u, Now(), inum, bn, r.b);
      }
    }

    /** The entry for bn in the indirect block addr, allocated if it is zero. */
    method MapEntry(inum: nat, bn: nat, addr: nat) returns (r: Alloc)
      requires Valid() && inum < |inodes| && NDIRECT <= bn < MAXFILE && addr == inodes[inum].addrs[NDIRECT] != 0
      modifies this`disk, this`tab, this`owner, this`logged
      ensures r.Block? ==> Valid() && MapStep(l, old(Now()), Now(), inum, bn, r.b)
      ensures r.NoBlocks? ==> Full() && old(tab[inum])[bn] == 0 && |owner| == old(|owner|) == l.size
    {
      hide Bit, Word, MarkUsed, RepOk, NoHoles, TableOwned, IndexOwned, BitsOk;
      IndirectEntry(inum, bn);
      r := Block(Word(disk[addr], bn - NDIRECT));
      if r.b == 0 {
        r := Balloc();
        if r.Block? {
          EntryStep(l, old(Now()), inum, bn, r.b);
          disk := disk[addr := WithWord(disk[addr], bn - NDIRECT, r.b)];
          logged := logged + {addr};
          tab := SetRow(tab, inum, bn, r.b);
          owner := owner[r.b := Data(inum, bn)];
          assert Now() == WithEntry(l, old(Now()), inum, bn, r.b);
        } else {
          FullUse(l, Now());
        }
      }
    }

    /** The blocks that mapping file block bn takes if it is missing. */
    ghost function Need(inum: nat, bn: nat): (n: nat)
      reads this
      requires Valid() && inum < |inodes|
    {
      Takes(bn, IndexOf(Now(), inum))
    }

    /** No block is free. */
    ghost predicate Full()
      reads this
    {
      LayoutOk(l) && |disk| == l.size && forall c: nat :: c < l.size ==> Bit(l, disk, c)
    }

    lemma DirectEntry(inum: nat, bn: nat)
      requires Valid() && inum < |inodes| && bn < NDIRECT
      ensures inodes[inum].addrs[bn] == tab[inum][bn]
      ensures tab[inum][bn] != 0 ==> MapStep(l, Now(), Now(), inum, bn, tab[inum][bn])
    {
      assert RepOk(disk, inodes[inum], tab[inum]);
      assert inodes[inum].addrs[..NDIRECT][bn] == tab[inum][..NDIRECT][bn];
      SameRow(tab, inum, bn);
    }

    lemma IndirectEntry(inum: nat, bn: nat)
      requires Valid() && inum < |inodes| && NDIRECT <= bn < MAXFILE && inodes[inum].addrs[NDIRECT] != 0
      ensures inodes[inum].addrs[NDIRECT] < |disk|
      ensures Word(disk[inodes[inum].addrs[NDIRECT]], bn - NDIRECT) == tab[inum][bn]
      ensures tab[inum][bn] != 0 ==> MapStep(l, Now(), Now(), inum, bn, tab[inum][bn])
    {
      assert Owns(owner, inodes[inum].addrs[NDIRECT], Index(inum));
      assert RepOk(disk, inodes[inum], tab[inum]);
      SameRow(tab, inum, bn);
    }
 
    /** What the kernel sees of a file. */
    ghost function File(inum: nat): (s: seq<byte>)
      reads this
      requires Valid() && inum < |inodes|
    {
      Bytes(l, Now(), inum)
    }

    /** The on-disk inodes are those in memory, except perhaps that of inum. */
    ghost predicate SyncedBut(inum: nat)
      reads this
    {
      |dinodes| == |inodes| && forall i :: 0 <= i < |inodes| && i != inum ==> dinodes[i] == inodes[i]
    }

    /** Between calls the on-disk inodes are those in memory, and no file has blocks past its end. */
    ghost predicate Settled()
      reads this
    {
      dinodes == inodes && AllSnug(Now())
    }

    /** iupdate: the on-disk inode is brought up to date, and no other is touched; if it was the only one that
        differed, none differs. */
    method Iupdate(inum: nat)
      requires inum < |inodes| == |dinodes|
      modifies this`dinodes, this`logged
      ensures |dinodes| == old(|dinodes|) && dinodes[inum] == inodes[inum]
      ensures forall i :: 0 <= i < |dinodes| && i != inum ==> dinodes[i] == old(dinodes[i])
      ensures old(SyncedBut(inum)) ==> dinodes == inodes
      ensures logged == old(logged) + {IBlock(inum)}
    {
      dinodes := dinodes[inum := inodes[inum]];
      logged := logged + {IBlock(inum)};
    }

    /** A new type and link count for an inode, and iupdate. */
    method SetInode(inum: nat, kind: int, nlink: int)
      requires Valid() && Settled() && inum < |inodes|
      modifies this`inodes, this`dinodes, this`logged
      ensures Valid() && Settled() && inodes == old(inodes)[inum := old(inodes[inum]).(kind := kind, nlink := nlink)]
      ensures forall i: nat :: i < |inodes| ==> File(i) == old(File(i))
    {
      hide FsOk, Bytes, Snug;
      ghost var v := Now();
      AttrsKeep(l, v, inum, kind, nlink);
      assert AllSnug(SetAttrs(v, inum, kind, nlink)) by {
        SnugAttrs(v, inum, kind, nlink);
      }
      inodes := inodes[inum := inodes[inum].(kind := kind, nlink := nlink)];
      ghost var w := Now();
      assert w == SetAttrs(v, inum, kind, nlink);
      Iupdate(inum);
      BytesOfFiles(l, w, Now());
    }

    /** Map the block of `off`, copy `chunk` into it, and log it. */
    method WriteBlock(inum: nat, off: nat, chunk: seq<byte>) returns (r: Alloc, ghost mid: View)
      requires Valid() && inum < |inodes| && off < MAXFILE * BSIZE && off % BSIZE + |chunk| <= BSIZE
      modifies this`disk, this`inodes, this`tab, this`owner, this`logged
      ensures r.Block? ==>
                && MapStep(l, old(Now()), mid, inum, off / BSIZE, r.b)
                && r.b < |mid.disk| && Valid() && Now() == Patched(mid, r.b, off, chunk)
                && |inodes| == old(|inodes|) && |inodes[inum].addrs| == NDIRECT + 1
      ensures r.NoBlocks? ==> Full() && old(tab[inum])[off / BSIZE] == 0 && |old(owner)| + old(Need(inum, off / BSIZE)) > l.size
    {
      hide Bit, Written, OthersKept, OwnOk, BitsOk, RepOk, NoHoles, DataKept, AddLog, Takes;
      r := Bmap(inum, off / BSIZE);
      mid := Now();
      if r.Block? {
        RoundBytes(l, old(Now()), mid, inum, off, chunk, r.b);
        disk := disk[r.b := WithBytes(disk[r.b], off % BSIZE, chunk)];
        logged := logged + {r.b};
      }
    }

    /** One round of writei's loop: the piece of src from tot on that lies in one block. */
    method WriteRound(inum: nat, src: seq<byte>, off: nat, tot: nat, ghost v: View) returns (m: nat, r: Alloc)
      requires Valid() && inum < |inodes| && tot < |src| && tot <= off && AtEdge(|src|, tot, off)
      requires off - tot + |src| <= MAXFILE * BSIZE
      requires RoundsOk(l, v, Now(), inum, src, off - tot, tot)
      modifies this`disk, this`inodes, this`tab, this`owner, this`logged
      ensures r.NoBlocks? ==> Full() && TooFew(l, v, inum, off - tot, |src|)
      ensures r.Block? ==> 0 < m && tot + m <= |src| && AtEdge(|src|, tot + m, off + m)
      ensures r.Block? ==> Valid() && |inodes| == old(|inodes|)
                           && |inodes[inum].addrs| == NDIRECT + 1
                           && RoundsOk(l, v, Now(), inum, src, off - tot, tot + m)
    {
      hide FsOk, BytesOk, LogOk, MapStep, Bit, Spanned;
      ghost var u := Now();
      m := if |src| - tot < BSIZE - off % BSIZE then |src| - tot else BSIZE - off % BSIZE;
      ghost var mid;
      r, mid := WriteBlock(inum, off, src[tot..tot + m]);
      if r.Block? {
        NextBytes(l, v, u, mid, Now(), inum, src, off - tot, tot, src[tot..tot + m], off / BSIZE, r.b);
        NextLog(l, v, u, mid, Now(), inum, src, off - tot, tot, m, r.b);
      } else {
        RunsOut(l, v, u, inum, src, off - tot, tot);
      }
    }

    /** The loop of writei. */
    method WriteBlocks(inum: nat, src: seq<byte>, off0: nat) returns (full: bool)
      requires Valid() && inum < |inodes| && off0 <= inodes[inum].size && off0 + |src| <= MAXFILE * BSIZE
      modifies this`disk, this`inodes, this`tab, this`owner, this`logged
      ensures full ==> Full() && TooFew(l, old(Now()), inum, off0, |src|)
      ensures !full ==> Valid() && inum < |inodes| && |inodes[inum].addrs| == NDIRECT + 1
      ensures !full ==> RoundsOk(l, old(Now()), Now(), inum, src, off0, |src|)
    {
      hide FsOk, RoundsOk, Bit;
      InodeShape(inum);
      ghost var v := Now();
      NoRounds(l, v, inum, src, off0);
      assert AtEdge(|src|, 0, off0);
      hide AtEdge;
      var tot, off := 0, off0;
      while tot < |src|
        invariant 0 <= tot <= |src| && off == off0 + tot && AtEdge(|src|, tot, off)
        invariant Valid() && inum < |inodes| && |inodes[inum].addrs| == NDIRECT + 1
        invariant RoundsOk(l, v, Now(), inum, src, off0, tot)
        decreases |src| - tot
      {
        var m, r := WriteRound(inum, src, off, tot, v);
        if r.NoBlocks? {
          full := true;
          return;
        }
        tot, off := tot + m, off + m;
      }
      full := false;
      assert RoundsOk(l, v, Now(), inum, src, off0, |src|);
    }

    /** What writei leaves behind when it succeeds. */
    ghost predicate Wrote(v: View, inum: nat, src: seq<byte>, off0: nat)
      reads this
      requires Ok(l, v) && inum < |v.inodes| && off0 <= v.inodes[inum].size
    {
      Valid() && Settled() && WriteDone(l, v, Now(), inum, src, off0)
    }

    /** writei past its checks: the loop, and the size and inode when the file has grown. */
    method WriteAll(inum: nat, src: seq<byte>, off0: nat) returns (r: Io)
      requires Valid() && Settled() && inum < |inodes| && off0 <= inodes[inum].size && off0 + |src| <= MAXFILE * BSIZE
      modifies this`disk, this`inodes, this`dinodes, this`tab, this`owner, this`logged
      ensures r == Panic || r == Count(|src|)
      ensures r.Panic? ==> Full()
      ensures r.Panic? <==> TooFew(l, old(Now()), inum, off0, |src|)
      ensures r.Count? ==> Wrote(old(Now()), inum, src, off0)
    {
      hide FsOk, BytesOk, LogOk, Bit, AllSnug, WriteDone, TooFew, IBlock;
      var n := |src|;
      ghost var v := Now();
      var full := WriteBlocks(inum, src, off0);
      if full {
        return Panic;
      }
      var off := off0 + n;
      ghost var w := Now();
      InodesSame(l, v, w, inum, src, off0);
      if n > 0 && off > inodes[inum].size {
        inodes := inodes[inum := inodes[inum].(size := off)];
        Iupdate(inum);
      }
      FinishAll(l, v, w, inum, src, off0, Now());
      DoneFacts(l, v, Now(), inum, src, off0);
      r := Count(n);
    }

    lemma InodeShape(inum: nat)
      requires Valid() && inum < |inodes|
      ensures |inodes[inum].addrs| == NDIRECT + 1
    {
    }

    /** writei: on success the file is the old one with `src` spliced in at `off`, every other
        file is unchanged, and the on-disk inodes again agree with those in memory. It panics exactly when fewer
        blocks are free than it takes, which happens only if the file is to grow. */
    method Writei(inum: nat, src: seq<byte>, off0: nat) returns (r: Io)
      requires Valid() && Settled() && inum < |inodes| && off0 < TWO32 && |src| < TWO32
      modifies this`disk, this`inodes, this`dinodes, this`tab, this`owner, this`logged
      ensures r.Device? <==> old(inodes[inum]).kind == T_DEV
      ensures r.Error? <==> old(inodes[inum]).kind != T_DEV
                            && (off0 > old(inodes[inum]).size || off0 + |src| > MAXFILE * BSIZE)
      ensures r.Device? || r.Error? ==> Now() == old(Now()) && dinodes == old(dinodes)
      ensures r.Panic? ==> Full()
      ensures r.Panic? <==> !r.Device? && !r.Error? && TooFew(l, old(Now()), inum, off0, |src|)
      ensures r.Count? ==> r.n == |src| && off0 <= old(inodes[inum]).size && Wrote(old(Now()), inum, src, off0)
    {
      hide FsOk, Bit, Bytes, Splice, Spanned;
      if inodes[inum].kind == T_DEV {
        return Device;
      }
      var n := |src|;
      if off0 > inodes[inum].size || (off0 + n) % TWO32 < off0 {
        return Error;
      }
      if (off0 + n) % TWO32 > MAXFILE * BSIZE {
        return Error;
      }
      r := WriteAll(inum, src, off0);
    }
 
    // ---- Reading ---------------------------------------------------------------------------

    /** One round of readi's loop; no block is allocated, because none below the size is missing. */
    method ReadRound(inum: nat, off: nat, m: nat) returns (chunk: seq<byte>)
      requires Valid() && inum < |inodes| && 0 < m && off % BSIZE + m <= BSIZE && off + m <= inodes[inum].size
      modifies this`disk, this`inodes, this`tab, this`owner, this`logged
      ensures Valid() && Now() == old(Now())
      ensures chunk == File(inum)[off..off + m]
    {
      hide FsOk, Bit, Bytes, DataKept, AddLog, Takes;
      InBlockSlice(l, Now(), inum, off, m);
      var r := Bmap(inum, off / BSIZE);
      MapRow(l, old(Now()), Now(), inum, off / BSIZE, r.b);
      chunk := disk[r.b][off % BSIZE..off % BSIZE + m];
    }

    /** readi: the bytes asked for, as far as the file goes. */
    method Readi(inum: nat, off0: nat, n0: nat) returns (r: Io, dst: seq<byte>)
      requires Valid() && inum < |inodes| && off0 < TWO32 && n0 < TWO32
      modifies this`disk, this`inodes, this`tab, this`owner, this`logged
      ensures Valid() && Now() == old(Now())
      ensures r.Device? <==> inodes[inum].kind == T_DEV
      ensures r.Error? <==> inodes[inum].kind != T_DEV && (off0 > inodes[inum].size || off0 + n0 >= TWO32)
      ensures !r.Panic?
      ensures r.Count? ==>
                && off0 <= |File(inum)| && r.n == |dst|
                && dst == File(inum)[off0..if off0 + n0 > |File(inum)| then |File(inum)| else off0 + n0]
    {
      hide FsOk, Bit, Bytes;
      dst := [];
      if inodes[inum].kind == T_DEV {
        return Device, dst;
      }
      if off0 > inodes[inum].size || (off0 + n0) % TWO32 < off0 {
        return Error, dst;
      }
      var n := if off0 + n0 > inodes[inum].size then inodes[inum].size - off0 else n0;
      var tot, off := 0, off0;
      while tot < n
        invariant 0 <= tot <= n && off == off0 + tot
        invariant Valid() && Now() == old(Now())
        invariant dst == File(inum)[off0..off]
        decreases n - tot
      {
        var m := if n - tot < BSIZE - off % BSIZE then n - tot else BSIZE - off % BSIZE;
        var chunk := ReadRound(inum, off, m);
        dst := dst + chunk;
        tot, off := tot + m, off + m;
      }
      r := Count(n);
    }

    // ---- Truncating ------------------------------------------------------------------------

    /** bfree of a block of file i: it does not panic. */
    method FreeBlock(inum: nat, b: nat, ghost v: View)
      requires inum < |inodes| && Ok(l, v) && TakenFrom(v, Now(), inum)
      requires LayoutOk(l) && |disk| == l.size && b < l.size && Bit(l, disk, b)
      requires b in owner && OfFile(owner[b], inum)
      modifies this`disk, this`owner, this`logged
      ensures disk == MarkFree(l, old(disk), b) && owner == old(owner) - {b} && TakenFrom(v, Now(), inum)
    {
      ghost var w := Now();
      var panics := Bfree(b);
      assert !panics;
      owner := owner - {b};
      GiveBack(v.owner, w.owner, inum, b);
      forall c: nat | c < |w.disk| && !Reserved(l, c) ensures disk[c] == w.disk[c] {
        FreedBitmapOnly(l, w.disk, b, c);
      }
      BitmapOnly(l, v, w, Now(), inum);
    }

    /** The body of itrunc's first loop. */
    method FreeDirect(inum: nat, i: nat, ghost v: View)
      requires inum < |inodes| == |dinodes| && i < NDIRECT && Ok(l, v)
      requires FsOk(l, disk, Emptied(inodes, inum), tab, owner) && TakenFrom(v, Now(), inum)
      modifies this`disk, this`inodes, this`tab, this`owner, this`logged
      ensures inum < |inodes| == old(|inodes|)
      ensures FsOk(l, disk, Emptied(inodes, inum), tab, owner) && TakenFrom(v, Now(), inum)
      ensures |inodes[inum].addrs| == NDIRECT + 1 && inodes[inum].addrs[NDIRECT] == old(inodes[inum].addrs)[NDIRECT]
      ensures |tab| == old(|tab|) && tab[inum] == old(tab[inum])[i := 0]
    {
      var b := inodes[inum].addrs[i];
      DirectRow(l, disk, Emptied(inodes, inum), tab, owner, inum, i);
      if b != 0 {
        hide FsOk, Bit, MarkFree, OthersKept, GaveBack;
        DetachDirect(l, disk, Emptied(inodes, inum), tab, owner, inum, i);
        FreeBlock(inum, b, v);
        ghost var w := Now();
        var addrs: seq<nat> := inodes[inum].addrs[i := 0];
        inodes := inodes[inum := inodes[inum].(addrs := addrs)];
        tab := SetRow(tab, inum, i, 0);
        assert Emptied(inodes, inum) == SetAddr(Emptied(w.inodes, inum), inum, i, 0);
        BitmapOnly(l, v, w, Now(), inum);
      }
    }
 
    /** itrunc's first loop: the direct blocks. */
    method TruncDirect(inum: nat)
      requires Valid() && inum < |inodes|
      modifies this`disk, this`inodes, this`tab, this`owner, this`logged
      ensures inum < |inodes| == |dinodes| == |tab| && FsOk(l, disk, Emptied(inodes, inum), tab, owner)
      ensures TakenFrom(old(Now()), Now(), inum)
      ensures |tab[inum]| == MAXFILE && forall bn :: 0 <= bn < NDIRECT ==> tab[inum][bn] == 0
      ensures |inodes[inum].addrs| == NDIRECT + 1
    {
      hide FsOk, TakenFrom;
      ghost var v := Now();
      EmptiedOk(l, v, inum);
      DirectRow(l, disk, inodes, tab, owner, inum, 0);
      NothingTaken(v, inum);
      var i := 0;
      while i < NDIRECT
        invariant 0 <= i <= NDIRECT && inum < |inodes| == |dinodes| == |tab|
        invariant FsOk(l, disk, Emptied(inodes, inum), tab, owner) && TakenFrom(v, Now(), inum)
        invariant |inodes[inum].addrs| == NDIRECT + 1
        invariant |tab[inum]| == MAXFILE && forall bn :: 0 <= bn < i ==> tab[inum][bn] == 0
      {
        FreeDirect(inum, i, v);
        i := i + 1;
      }
    }

    /** The body of itrunc's second loop: free what entry j of the indirect block names. */
    method FreeEntry(inum: nat, a: Block, j: nat, ghost v: View, ghost x: nat, ghost g: Block) returns (ghost g': Block)
      requires j < NINDIRECT && Draining(l, v, Now(), inum, x, g, j) && a == disk[x]
      modifies this`disk, this`tab, this`owner, this`logged
      ensures Draining(l, v, Now(), inum, x, g', j + 1) && a == disk[x] && |tab| == old(|tab|)
    {
      ghost var w := Now();
      g' := g;
      var b := Word(a, j);
      if b != 0 {
        DrainEntry(l, v, w, inum, x, g, j);
        FreeBlock(inum, b, v);
        ghost var u := Now();
        tab := SetRow(tab, inum, NDIRECT + j, 0);
        BitmapOnly(l, v, u, Now(), inum);
        DrainNext(l, v, w, Now(), inum, x, g, j);
        g' := WithWord(g, j, 0);
      }
    }

    /** The second part of itrunc: what the indirect block names, and the indirect block. */
    method TruncIndirect(inum: nat, ghost v: View)
      requires Ok(l, v) && inum < |inodes| == |dinodes| == |tab| && FsOk(l, disk, Emptied(inodes, inum), tab, owner)
      requires TakenFrom(v, Now(), inum) && |inodes[inum].addrs| == NDIRECT + 1
      requires |tab[inum]| == MAXFILE && forall bn :: 0 <= bn < NDIRECT ==> tab[inum][bn] == 0
      modifies this`disk, this`inodes, this`tab, this`owner, this`logged
      ensures inum < |inodes| == |dinodes| && FsOk(l, disk, Emptied(inodes, inum), tab, owner)
      ensures TakenFrom(v, Now(), inum)
      ensures |tab| == |inodes| && |tab[inum]| == MAXFILE && forall bn :: 0 <= bn < MAXFILE ==> tab[inum][bn] == 0
      ensures |inodes[inum].addrs| == NDIRECT + 1 && inodes[inum].addrs[NDIRECT] == 0
    {
      hide FsOk, TakenFrom, Word;
      var x := inodes[inum].addrs[NDIRECT];
      if x == 0 {
        NoIndex(l, disk, Emptied(inodes, inum), tab, owner, inum);
        return;
      }
      DrainStart(l, v, Now(), inum);
      var a := disk[x];
      ghost var g := a;
      var j := 0;
      while j < NINDIRECT
        invariant 0 <= j <= NINDIRECT && Draining(l, v, Now(), inum, x, g, j)
        invariant a == disk[x] && |dinodes| == |inodes|
      {
        g := FreeEntry(inum, a, j, v, x, g);
        j := j + 1;
      }
      FreeIndex(inum, x, v, g);
    }

    method FreeIndex(inum: nat, x: nat, ghost v: View, ghost g: Block)
      requires Draining(l, v, Now(), inum, x, g, NINDIRECT)
      modifies this`disk, this`inodes, this`owner, this`logged
      ensures |inodes| == old(|inodes|) && inum < |inodes| && FsOk(l, disk, Emptied(inodes, inum), tab, owner)
      ensures TakenFrom(v, Now(), inum)
      ensures |inodes[inum].addrs| == NDIRECT + 1 && inodes[inum].addrs[NDIRECT] == 0
    {
      ghost var w := Now();
      IndexOutside(l, w, inum, x, g, x);
      DetachIndex(l, w.disk[x := g], Emptied(w.inodes, inum), w.tab, w.owner, inum);
      FreeBlock(inum, x, v);
      ghost var u := Now();
      var addrs: seq<nat> := inodes[inum].addrs[NDIRECT := 0];
      inodes := inodes[inum := inodes[inum].(addrs := addrs)];
      BitmapOnly(l, v, u, Now(), inum);
      DrainEnd(l, v, w, Now(), inum, x, g);
    }

    /** itrunc: afterwards the file is empty and owns nothing; exactly its own blocks have been
        given back; every other file is as it was; and no bfree has panicked. */
    method Itrunc(inum: nat)
      requires Valid() && Settled() && inum < |inodes|
      modifies this`disk, this`inodes, this`dinodes, this`tab, this`owner, this`logged
      ensures Valid() && Settled() && |inodes| == old(|inodes|)
      ensures File(inum) == [] && inodes[inum].kind == old(inodes[inum].kind) && inodes[inum].nlink == old(inodes[inum].nlink)
      ensures forall i: nat :: i < |inodes| && i != inum ==> File(i) == old(File(i)) && inodes[i] == old(inodes[i])
      ensures forall b :: b in owner <==> b in old(owner) && !OfFile(old(owner)[b], inum)
      ensures forall b :: b in owner ==> owner[b] == old(owner)[b]
    {
      hide FsOk, TakenFrom, AllSnug, Bytes;
      ghost var v := Now();
      TruncDirect(inum);
      TruncIndirect(inum, v);
      ghost var w := Now();
      EmptyFile(l, v, w, inum);
      assert OthersKept(v, w, inum) by { TakenFacts(v, w, inum); }
      EmptySnug(v, w, inum);
      inodes := inodes[inum := inodes[inum].(size := 0)];
      ghost var x := Now();
      assert x == w.(inodes := Emptied(w.inodes, inum));
      Iupdate(inum);
      BytesOfFiles(l, x, Now());
      SnugLogged(x, Now());
    }
  }
}

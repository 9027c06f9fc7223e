/** The inode cache (fs.c:223-340): reference counts, reading an inode in, and freeing it on disk when the
    last reference to an inode without links goes. */
module Inodes {
  import opened FsState
  import opened FsAlloc
  import opened FsBytes
  import opened FsWrite
  import opened FsTrunc
  import opened Fs
  import opened Paths

  const NINODE := 50

  /** A slot of the cache; `valid` is I_VALID. */
  datatype Slot = Slot(id: Id, ref: nat, valid: bool)

  /** How many references the cache holds to an inode. */
  function Refs(slots: seq<Slot>, id: Id): (n: nat) {
    if slots == [] then 0 else Share(slots[0], id) + Refs(slots[1..], id)
  }

  function Share(s: Slot, id: Id): (n: nat) {
    if s.id == id then s.ref else 0
  }

  lemma {:induction false} RefsUpdate(slots: seq<Slot>, i: nat, s: Slot, id: Id)
    requires i < |slots|
    ensures Refs(slots[i := s], id) == Refs(slots, id) - Share(slots[i], id) + Share(s, id)
    ensures Refs(slots, id) >= Share(slots[i], id)
    decreases |slots|
  {
    if i > 0 {
      RefsUpdate(slots[1..], i - 1, s, id);
      assert slots[i := s][1..] == slots[1..][i - 1 := s];
    } else {
      assert slots[i := s][1..] == slots[1..];
    }
  }

  /** An inode that is referred to is in one slot. */
  ghost predicate OneSlot(slots: seq<Slot>) {
    forall i, j :: 0 <= i < j < |slots| && slots[i].ref > 0 && slots[j].ref > 0 ==> slots[i].id != slots[j].id
  }

  /** One more reference to id, or the same, and nothing else. */
  ghost predicate Gains(a: seq<Slot>, b: seq<Slot>, who: Option<Id>) {
    forall id :: Refs(b, id) == Refs(a, id) + if who == Some(id) then 1 else 0
  }

  /** So its slot's count is the number of references. */
  lemma RefIsRefs(slots: seq<Slot>, i: nat)
    requires OneSlot(slots) && i < |slots| && slots[i].ref > 0
    ensures Refs(slots, slots[i].id) == slots[i].ref
  {
    var id := slots[i].id;
    var rest := slots[i := Slot(id, 0, false)];
    RefsUpdate(slots, i, Slot(id, 0, false), id);
    NoRefs(rest, id);
  }

  lemma Regain(slots: seq<Slot>, i: nat, s: Slot)
    requires i < |slots| && (slots[i].id == s.id || slots[i].ref == 0) && s.ref == slots[i].ref + 1
    ensures Gains(slots, slots[i := s], Some(s.id))
  {
    forall id ensures Refs(slots[i := s], id) == Refs(slots, id) + if Some(s.id) == Some(id) then 1 else 0 {
      RefsUpdate(slots, i, s, id);
    }
  }

  lemma Release(slots: seq<Slot>, i: nat, s: Slot)
    requires i < |slots| && slots[i].ref == s.ref + 1 && slots[i].id == s.id
    ensures Gains(slots[i := s], slots, Some(slots[i].id))
  {
    forall id ensures Refs(slots, id) == Refs(slots[i := s], id) + if Some(slots[i].id) == Some(id) then 1 else 0 {
      RefsUpdate(slots, i, s, id);
    }
  }

  lemma {:induction false} NoRefs(slots: seq<Slot>, id: Id)
    requires forall j :: 0 <= j < |slots| ==> !(slots[j].ref > 0 && slots[j].id == id)
    ensures Refs(slots, id) == 0
    decreases |slots|
  {
    if slots != [] { NoRefs(slots[1..], id); }
  }

  /** The slot for an inode with one reference more: the one it had, or a recycled one. */
  predicate Got(a: seq<Slot>, b: seq<Slot>, i: nat, id: Id) {
    && i < |a| == |b|
    && if a[i].ref > 0 then a[i].id == id && b == a[i := a[i].(ref := a[i].ref + 1)]
       else b == a[i := Slot(id, 1, false)] && Refs(a, id) == 0
  }

  /** The inode has been given back: its blocks are free, its type is 0, and nothing else has changed. */
  ghost predicate Erased(l: Layout, v: View, w: View, i: nat) {
    && Ok(l, v) && Ok(l, w) && i < |v.inodes| == |w.inodes|
    && w.inodes[i].kind == 0 && w.inodes[i].nlink == v.inodes[i].nlink && Bytes(l, w, i) == []
    && (forall j: nat :: j < |v.inodes| && j != i ==> Bytes(l, w, j) == Bytes(l, v, j) && w.inodes[j] == v.inodes[j])
    && (forall b :: b in w.owner <==> b in v.owner && !OfFile(v.owner[b], i))
  }

  class Icache {
    var slots: seq<Slot>

    ghost predicate Valid()
      reads this
    {
      |slots| == NINODE && OneSlot(slots)
    }

    /** iget: a slot for the inode, with one reference more; -1 stands for the panic when every slot is
        in use. */
    method Iget(id: Id) returns (i: int)
      requires Valid()
      modifies this
      ensures Valid()
      ensures i == -1 ==> unchanged(this) && Refs(slots, id) == 0 && forall k :: 0 <= k < NINODE ==> slots[k].ref > 0
      ensures i != -1 ==> 0 <= i && Got(old(slots), slots, i, id) && Gains(old(slots), slots, Some(id))
    {
      var empty := -1;
      var k := 0;
      while k < NINODE
        invariant 0 <= k <= NINODE && unchanged(this)
        invariant forall j :: 0 <= j < k ==> !(slots[j].ref > 0 && slots[j].id == id)
        invariant empty == -1 ==> forall j :: 0 <= j < k ==> slots[j].ref > 0
        invariant empty != -1 ==> 0 <= empty < k && slots[empty].ref == 0
      {
        if slots[k].ref > 0 && slots[k].id == id {
          Regain(slots, k, slots[k].(ref := slots[k].ref + 1));
          slots := slots[k := slots[k].(ref := slots[k].ref + 1)];
          return k;
        }
        if empty == -1 && slots[k].ref == 0 { empty := k; }
        k := k + 1;
      }
      NoRefs(slots, id);
      if empty == -1 { return -1; }
      Regain(slots, empty, Slot(id, 1, false));
      slots := slots[empty := Slot(id, 1, false)];
      return empty;
    }

    method Idup(i: nat)
      requires Valid() && i < NINODE && slots[i].ref > 0
      modifies this
      ensures Valid() && Gains(old(slots), slots, Some(old(slots)[i].id)) && Got(old(slots), slots, i, old(slots)[i].id)
    {
      Regain(slots, i, slots[i].(ref := slots[i].ref + 1));
      slots := slots[i := slots[i].(ref := slots[i].ref + 1)];
    }

    /** ilock: the inode is read in unless it has been; false stands for the panic on one without a type. */
    method Ilock(i: nat, fs: Fs) returns (ok: bool)
      requires Valid() && i < NINODE && slots[i].ref > 0 && slots[i].id.inum < |fs.dinodes|
      modifies this
      ensures Valid() && Gains(old(slots), slots, None)
      ensures ok <==> old(slots)[i].valid || fs.dinodes[old(slots)[i].id.inum].kind != 0
      ensures slots == old(slots)[i := old(slots)[i].(valid := true)]
    {
      ok := true;
      if !slots[i].valid { ok := fs.dinodes[slots[i].id.inum].kind != 0; }
      forall id ensures Refs(slots[i := slots[i].(valid := true)], id) == Refs(slots, id) {
        RefsUpdate(slots, i, slots[i].(valid := true), id);
      }
      slots := slots[i := slots[i].(valid := true)];
    }

    /** iput: one reference less. If it was the last one to an inode without links that has been read in, the
        inode's blocks are given back and it is free. */
    method Iput(i: nat, fs: Fs) returns (freed: bool)
      requires Valid() && fs.Valid() && fs.Settled() && i < NINODE && slots[i].ref > 0 && slots[i].id.inum < |fs.inodes|
      modifies this, fs`disk, fs`inodes, fs`dinodes, fs`tab, fs`owner, fs`logged
      ensures Valid() && fs.Valid() && fs.Settled() && Gains(slots, old(slots), Some(old(slots)[i].id))
      ensures slots == old(slots)[i := Slot(old(slots)[i].id, old(slots)[i].ref - 1, old(slots)[i].valid && !freed)]
      ensures freed <==> old(slots)[i].ref == 1 && old(slots)[i].valid && old(fs.inodes[slots[i].id.inum].nlink) == 0
      ensures !freed ==> unchanged(fs)
      ensures freed ==> Erased(fs.l, old(fs.Now()), fs.Now(), old(slots)[i].id.inum)
    {
      hide FsOk, Bytes, AllSnug;
      var inum := slots[i].id.inum;
      freed := slots[i].ref == 1 && slots[i].valid && fs.inodes[inum].nlink == 0;
      if freed {
        ghost var nlink := fs.inodes[inum].nlink;
        fs.Itrunc(inum);
        fs.SetInode(inum, 0, fs.inodes[inum].nlink);
        assert fs.inodes[inum].nlink == nlink;
        slots := slots[i := slots[i].(valid := false)];
      }
      ghost var before := old(slots);
      Release(before, i, Slot(before[i].id, before[i].ref - 1, before[i].valid && !freed));
      slots := slots[i := slots[i].(ref := slots[i].ref - 1)];
      assert slots == before[i := Slot(before[i].id, before[i].ref - 1, before[i].valid && !freed)];
    }
  }
}

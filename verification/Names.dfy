/** namex (fs.c:611-641): walking a path through directories that are files, with the inode cache's reference
    counts, and with the freeing of inodes that this can cause. */
module Names {
  import opened Common
  import opened FsState
  import opened FsAlloc
  import opened FsBytes
  import opened FsWrite
  import opened Fs
  import opened Directory
  import opened DirFile
  import opened Paths
  import opened Inodes

  /** What namex ends with; the last two are panics: no slot is left, or an inode without a type is locked. */
  datatype NameResult = Named(slot: nat, name: string) | Unnamed | OutOfInodes | NoType

  // ---- The tree and the files ----------------------------------------------------------------

  /** The tree is what the inodes and the contents of the directory files say. */
  ghost predicate TreeOk(l: Layout, v: View, t: Tree)
    requires Ok(l, v)
  {
    && (forall i: nat :: i < |v.inodes| ==> (v.inodes[i].kind == T_DIR <==> OnRoot(i) in t.dirs))
    && (forall i: nat :: i < |v.inodes| ==> OnRoot(i) in t.links && t.links[OnRoot(i)] == v.inodes[i].nlink)
    && (forall i: nat :: i < |v.inodes| && OnRoot(i) in t.dirs ==> DirOk(Bytes(l, v, i), t.dirs[OnRoot(i)]))
    && (forall id, name :: id in t.dirs && name in t.dirs[id] ==> t.dirs[id][name] < |v.inodes|)
  }

  function Without(t: Tree, freed: set<Id>): (r: Tree) {
    t.(dirs := t.dirs - freed)
  }

  /** What the walk has done to the files: the inodes in `freed` are empty and have no type, and all others are
      as they were. */
  ghost predicate FilesOk(l: Layout, v0: View, v: View, t: Tree, freed: set<Id>) {
    && Ok(l, v0) && Ok(l, v) && |v.inodes| == |v0.inodes| && TreeOk(l, v, Without(t, freed))
    && (forall x :: x in freed ==> OnDisk(x, v) && v.inodes[x.inum].kind == 0 && Bytes(l, v, x.inum) == [])
    && (forall j: nat :: j < |v.inodes| && OnRoot(j) !in freed ==> v.inodes[j] == v0.inodes[j] && Bytes(l, v, j) == Bytes(l, v0, j))
  }

  predicate OnDisk(x: Id, v: View) {
    x.dev == ROOTDEV && x.inum < |v.inodes|
  }

  function KindOf(v: View, x: Id): (k: int) {
    if x.inum < |v.inodes| then v.inodes[x.inum].kind else 0
  }

  lemma NothingFreed(l: Layout, v: View, t: Tree)
    requires Ok(l, v) && TreeOk(l, v, t)
    ensures FilesOk(l, v, v, t, {})
  {
    hide FsOk, Bytes, DirOk;
    assert Without(t, {}) == t;
  }

  lemma FreedOne(l: Layout, v0: View, v: View, w: View, t: Tree, freed: set<Id>, x: Id)
    requires FilesOk(l, v0, v, t, freed) && OnDisk(x, v) && Erased(l, v, w, x.inum)
    ensures FilesOk(l, v0, w, t, freed + {x})
  {
    hide FsOk, Bytes, DirOk;
    var a, b := Without(t, freed), Without(t, freed + {x});
    assert forall i: nat :: OnRoot(i) == x <==> i == x.inum;
    assert forall id :: id in b.dirs <==> id in a.dirs && id != x;
    forall i: nat | i < |w.inodes| && OnRoot(i) in b.dirs ensures DirOk(Bytes(l, w, i), b.dirs[OnRoot(i)]) {
      assert i != x.inum && OnRoot(i) in a.dirs;
    }
  }

  // ---- The slots -----------------------------------------------------------------------------

  /** The walk holds one reference, in slot i, to inode cur; inodes that it has freed are not read in. */
  ghost predicate Here(slots0: seq<Slot>, slots: seq<Slot>, i: nat, cur: Id, freed: set<Id>) {
    && |slots| == NINODE && OneSlot(slots) && i < NINODE && slots[i].ref > 0 && slots[i].id == cur
    && Gains(slots0, slots, Some(cur)) && NotReadIn(slots, freed)
  }

  predicate NotReadIn(slots: seq<Slot>, freed: set<Id>) {
    forall k :: 0 <= k < |slots| && slots[k].ref > 0 && slots[k].id in freed ==> !slots[k].valid
  }

  lemma Locked(slots0: seq<Slot>, slots1: seq<Slot>, slots: seq<Slot>, i: nat, cur: Id, freed: set<Id>)
    requires Here(slots0, slots1, i, cur, freed) && cur !in freed
    requires slots == slots1[i := slots1[i].(valid := true)] && Gains(slots1, slots, None)
    ensures Here(slots0, slots, i, cur, freed)
  {
    hide Refs;
  }

  /** The count that decides about freeing: whether anybody else has a reference. */
  lemma LastRef(slots0: seq<Slot>, slots: seq<Slot>, i: nat, cur: Id, freed: set<Id>)
    requires Here(slots0, slots, i, cur, freed)
    ensures slots[i].ref == Refs(slots0, cur) + 1
  {
    RefIsRefs(slots, i);
  }

  lemma LetGo(slots0: seq<Slot>, slots1: seq<Slot>, slots: seq<Slot>, i: nat, cur: Id, freed: set<Id>, f: bool)
    requires Here(slots0, slots1, i, cur, freed) && (f ==> slots1[i].ref == 1)
    requires slots == slots1[i := Slot(cur, slots1[i].ref - 1, slots1[i].valid && !f)] && Gains(slots, slots1, Some(cur))
    ensures Gains(slots0, slots, None)
  {
    hide Refs;
  }

  /** The next inode is taken before the current one is let go. */
  lemma MovedOn(slots0: seq<Slot>, slots1: seq<Slot>, slots2: seq<Slot>, slots: seq<Slot>, i: nat, cur: Id, next: Id,
                j: nat, freed: set<Id>, f: bool)
    requires Here(slots0, slots1, i, cur, freed) && slots1[i].valid
    requires Got(slots1, slots2, j, next) && Gains(slots1, slots2, Some(next)) && OneSlot(slots2)
    requires slots == slots2[i := Slot(cur, slots2[i].ref - 1, slots2[i].valid && !f)] && Gains(slots, slots2, Some(cur))
    requires f ==> slots2[i].ref == 1
    ensures slots2[i].valid && (slots2[i].ref == 1 <==> cur != next && Refs(slots0, cur) == 0)
    ensures Here(slots0, slots, j, next, if f then freed + {cur} else freed)
  {
    hide Refs;
    LastRef(slots0, slots1, i, cur, freed);
    SomeRefs(slots1, i);
    assert cur == next <==> i == j;
  }

  lemma SomeRefs(slots: seq<Slot>, i: nat)
    requires i < |slots| && slots[i].ref > 0
    ensures Refs(slots, slots[i].id) > 0
  {
    RefsUpdate(slots, i, slots[i], slots[i].id);
  }

  // ---- What is freed -------------------------------------------------------------------------

  /** The inodes among s that have no link and to which nobody had a reference. */
  function Doomed(t: Tree, slots0: seq<Slot>, s: set<Id>): (r: set<Id>) {
    set x | x in s && Refs(slots0, x) == 0 && x in t.links && t.links[x] == 0
  }

  /** What the rest of the walk leaves behind is what is still to be freed. */
  ghost predicate Owed(t: Tree, slots0: seq<Slot>, freed: set<Id>, rest: set<Id>, all: set<Id>) {
    freed + Doomed(t, slots0, rest) == Doomed(t, slots0, all)
  }

  lemma Paid(t: Tree, slots0: seq<Slot>, freed: set<Id>, cur: Id, rest: set<Id>, all: set<Id>, f: bool)
    requires Owed(t, slots0, freed, {cur} + rest, all)
    requires f <==> Refs(slots0, cur) == 0 && cur in t.links && t.links[cur] == 0
    ensures Owed(t, slots0, if f then freed + {cur} else freed, rest, all)
  {
    hide Refs;
    assert Doomed(t, slots0, {cur} + rest) == (if f then {cur} else {}) + Doomed(t, slots0, rest);
  }

  /** In a tree whose directories name only inodes with links, a walk frees nothing. */
  lemma NoneDoomed(t: Tree, slots0: seq<Slot>, start: Id, names: seq<string>, parent: bool)
    requires Linked(t) && (start == ROOT || Refs(slots0, start) > 0)
    ensures Doomed(t, slots0, LeftBehind(t, start, names, parent)) == {}
  {
    forall x | x in LeftBehind(t, start, names, parent) ensures x !in Doomed(t, slots0, {x}) {
      LinkedBehind(t, start, names, parent, x);
    }
  }

  // ---- namex ---------------------------------------------------------------------------------

  lemma BehindStep(t: Tree, id: Id, names: seq<string>, parent: bool)
    requires names != []
    ensures var s, last := LeftBehind(t, id, names, parent), parent && |names| == 1;
            && (id !in t.dirs ==> s == {id} + {})
            && (id in t.dirs && last ==> s == {})
            && (id in t.dirs && !last ==>
                  var next := Child(t, id, names[0]);
                  s == if next.None? then {id} + {}
                       else (if next.value == id then {} else {id}) + LeftBehind(t, next.value, names[1..], parent))
  {
  }

  lemma FilesFacts(l: Layout, v0: View, v: View, t: Tree, freed: set<Id>, x: Id)
    requires FilesOk(l, v0, v, t, freed) && OnDisk(x, v)
    ensures x in freed ==> v.inodes[x.inum].kind == 0
    ensures x in t.links && t.links[x] == v.inodes[x.inum].nlink
    ensures x !in freed ==>
              && v.inodes[x.inum] == v0.inodes[x.inum] && (v.inodes[x.inum].kind == T_DIR <==> x in t.dirs)
              && (x in t.dirs ==> DirOk(Bytes(l, v, x.inum), t.dirs[x]))
              && (x in t.dirs ==> forall name :: name in t.dirs[x] ==> t.dirs[x][name] < |v.inodes|)
  {
    hide FsOk, Bytes, DirOk;
    assert x == OnRoot(x.inum);
  }

  lemma HereFacts(slots0: seq<Slot>, slots: seq<Slot>, i: nat, cur: Id, freed: set<Id>)
    requires Here(slots0, slots, i, cur, freed)
    ensures |slots| == NINODE && i < NINODE && slots[i].ref > 0 && slots[i].id == cur && (cur in freed ==> !slots[i].valid)
    ensures Gains(slots0, slots, Some(cur))
  {
  }

  /** iunlockput where the walk fails. */
  method GiveUp(c: Icache, fs: Fs, i: nat, ghost slots0: seq<Slot>, ghost v0: View, ghost t: Tree, ghost cur: Id,
                ghost freed: set<Id>, ghost all: set<Id>) returns (ghost freed': set<Id>)
    requires c.Valid() && fs.Valid() && fs.Settled() && Here(slots0, c.slots, i, cur, freed) && cur !in freed
    requires c.slots[i].valid && OnDisk(cur, fs.Now()) && FilesOk(fs.l, v0, fs.Now(), t, freed)
    requires Owed(t, slots0, freed, {cur} + {}, all)
    modifies c, fs`disk, fs`inodes, fs`dinodes, fs`tab, fs`owner, fs`logged
    ensures c.Valid() && fs.Valid() && fs.Settled() && Gains(slots0, c.slots, None)
    ensures FilesOk(fs.l, v0, fs.Now(), t, freed') && freed' == Doomed(t, slots0, all)
  {
    hide FsOk, FilesOk, Here, Owed, Gains, OneSlot, Erased, AllSnug, Doomed;
    ghost var slots1, v := c.slots, fs.Now();
    HereFacts(slots0, slots1, i, cur, freed);
    LastRef(slots0, slots1, i, cur, freed);
    FilesFacts(fs.l, v0, v, t, freed, cur);
    var f := c.Iput(i, fs);
    LetGo(slots0, slots1, c.slots, i, cur, freed, f);
    if f { FreedOne(fs.l, v0, v, fs.Now(), t, freed, cur); }
    Paid(t, slots0, freed, cur, {}, all, f);
    freed' := if f then freed + {cur} else freed;
    AllPaid(t, slots0, freed', all);
  }

  lemma AllPaid(t: Tree, slots0: seq<Slot>, freed: set<Id>, all: set<Id>)
    requires Owed(t, slots0, freed, {}, all)
    ensures freed == Doomed(t, slots0, all)
  {
  }

  /** The walk goes on to the child: its slot is got, and then the current one let go. */
  method GoOn(c: Icache, fs: Fs, i: nat, child: Id, ghost slots0: seq<Slot>, ghost v0: View, ghost t: Tree, ghost cur: Id,
              ghost freed: set<Id>, ghost rest: set<Id>, ghost all: set<Id>) returns (j: int, ghost freed': set<Id>)
    requires c.Valid() && fs.Valid() && fs.Settled() && Here(slots0, c.slots, i, cur, freed) && cur !in freed
    requires c.slots[i].valid && OnDisk(cur, fs.Now()) && FilesOk(fs.l, v0, fs.Now(), t, freed)
    requires Owed(t, slots0, freed, (if child == cur then {} else {cur}) + rest, all)
    modifies c, fs`disk, fs`inodes, fs`dinodes, fs`tab, fs`owner, fs`logged
    ensures c.Valid()
    ensures j < 0 ==> freed' == freed && forall k :: 0 <= k < NINODE ==> c.slots[k].ref > 0
    ensures j >= 0 ==>
      && fs.Valid() && fs.Settled() && |fs.inodes| == old(|fs.inodes|) && Here(slots0, c.slots, j, child, freed')
      && FilesOk(fs.l, v0, fs.Now(), t, freed') && Owed(t, slots0, freed', rest, all)
  {
    hide FsOk, FilesOk, Here, Owed, Gains, OneSlot, Erased, AllSnug, Doomed, Got, Refs;
    ghost var slots1, v := c.slots, fs.Now();
    HereFacts(slots0, slots1, i, cur, freed);
    FilesFacts(fs.l, v0, v, t, freed, cur);
    freed' := freed;
    j := c.Iget(child);
    if j == -1 { return; }
    ghost var slots2 := c.slots;
    StillThere(slots1, slots2, i, j, child);
    var f := c.Iput(i, fs);
    MovedOn(slots0, slots1, slots2, c.slots, i, cur, child, j, freed, f);
    if f { FreedOne(fs.l, v0, v, fs.Now(), t, freed, cur); }
    freed' := if f then freed + {cur} else freed;
    if child != cur {
      Paid(t, slots0, freed, cur, rest, all, f);
    } else {
      assert {} + rest == rest;
    }
    FilesSize(fs.l, v0, v, fs.Now(), t, freed, freed');
  }

  lemma FilesSize(l: Layout, v0: View, v: View, w: View, t: Tree, freed: set<Id>, freed': set<Id>)
    requires FilesOk(l, v0, v, t, freed) && FilesOk(l, v0, w, t, freed')
    ensures |w.inodes| == |v.inodes|
  {
  }

  lemma StillThere(a: seq<Slot>, b: seq<Slot>, i: nat, j: nat, id: Id)
    requires Got(a, b, j, id) && i < |a| && a[i].ref > 0
    ensures |b| == |a| && b[i].ref > 0 && b[i].id == a[i].id
  {
  }

  /** The reference that the walk starts with: one more, or to an inode that is not read in. */
  lemma Started(slots0: seq<Slot>, slots: seq<Slot>, i: nat, id: Id)
    requires |slots0| == NINODE && OneSlot(slots) && Got(slots0, slots, i, id) && Gains(slots0, slots, Some(id))
    ensures Here(slots0, slots, i, id, {}) && (slots[i].ref > 1 || !slots[i].valid)
  {
  }

  /** What one turn of the loop does: go on, stop one level early, fail, or panic. */
  datatype Turn = To(slot: nat) | Stop | Fail | Full | Typeless

  /** One turn of namex's loop, at inode cur with the names left; `last` is nameiparent with one name left. */
  method Advance(c: Icache, fs: Fs, i: nat, name: string, last: bool, ghost slots0: seq<Slot>, ghost v0: View, ghost t: Tree,
                 ghost cur: Id, ghost names: seq<string>, ghost parent: bool, ghost freed: set<Id>, ghost all: set<Id>)
    returns (turn: Turn, ghost freed': set<Id>, ghost next: Id)
    requires c.Valid() && fs.Valid() && fs.Settled() && Here(slots0, c.slots, i, cur, freed) && OnDisk(cur, fs.Now())
    requires FilesOk(fs.l, v0, fs.Now(), t, freed) && names != [] && names[0] == name && NoNul(name) && Key(name) == name
    requires last == (parent && |names| == 1) && Owed(t, slots0, freed, LeftBehind(t, cur, names, parent), all)
    modifies c, fs`disk, fs`inodes, fs`dinodes, fs`tab, fs`owner, fs`logged
    ensures c.Valid() && (turn.To? || turn.Stop? || turn.Fail? ==> fs.Valid() && fs.Settled() && FilesOk(fs.l, v0, fs.Now(), t, freed'))
    ensures turn.To? ==>
      && !last && Here(slots0, c.slots, turn.slot, next, freed') && OnDisk(next, fs.Now()) && |fs.inodes| == old(|fs.inodes|)
      && Owed(t, slots0, freed', LeftBehind(t, next, names[1..], parent), all) && Child(t, cur, name) == Some(next)
      && Resolve(t, cur, names, parent) == Resolve(t, next, names[1..], parent)
    ensures turn.Stop? ==> last && Here(slots0, c.slots, i, cur, freed') && Resolve(t, cur, names, parent) == Some(cur)
    ensures turn.Fail? ==> Gains(slots0, c.slots, None) && Resolve(t, cur, names, parent) == None
    ensures turn.Stop? || turn.Fail? ==> freed' == Doomed(t, slots0, all)
    ensures turn.Full? || turn.Typeless? ==> freed' <= Doomed(t, slots0, all)
    ensures turn.Full? ==> forall k :: 0 <= k < NINODE ==> c.slots[k].ref > 0
    ensures turn.Typeless? ==> cur in freed' || KindOf(v0, cur) == 0
  {
    hide FsOk, Gains, Resolve, LeftBehind, OneSlot, Child, FilesOk, Here, Owed, Doomed, Got, AllSnug, Refs;
    ghost var slots1 := c.slots;
    freed', next := freed, cur;
    HereFacts(slots0, slots1, i, cur, freed);
    FilesFacts(fs.l, v0, fs.Now(), t, freed, cur);
    ResolveStep(t, cur, names, parent);
    BehindStep(t, cur, names, parent);
    PaidPart(t, slots0, freed, LeftBehind(t, cur, names, parent), all);
    var ok := c.Ilock(i, fs);
    if !ok { return Typeless, freed', next; }
    Locked(slots0, slots1, c.slots, i, cur, freed);
    var inum := c.slots[i].id.inum;
    if fs.inodes[inum].kind != T_DIR {
      freed' := GiveUp(c, fs, i, slots0, v0, t, cur, freed, all);
      return Fail, freed', next;
    }
    if last {
      AllPaid(t, slots0, freed, all);
      return Stop, freed', next;
    }
    var d := Dirlookup(fs, inum, name, t.dirs[cur]);
    ChildIs(t, cur, name, d);
    if d.Absent? {
      freed' := GiveUp(c, fs, i, slots0, v0, t, cur, freed, all);
      return Fail, freed', next;
    }
    next := OnRoot(d.inum);
    var j;
    j, freed' := GoOn(c, fs, i, OnRoot(d.inum), slots0, v0, t, cur, freed, LeftBehind(t, next, names[1..], parent), all);
    turn := if j < 0 then Full else To(j);
  }

  /** The first reference: to the root, or one more to the current directory. */
  method Begin(c: Icache, path: string, cwd: nat) returns (i: int)
    requires c.Valid() && cwd < NINODE && c.slots[cwd].ref > 0
    modifies c
    ensures c.Valid() && -1 <= i < NINODE
    ensures i == -1 ==> forall k :: 0 <= k < NINODE ==> c.slots[k].ref > 0
    ensures i != -1 ==>
      && Here(old(c.slots), c.slots, i, if path != [] && path[0] == '/' then ROOT else old(c.slots)[cwd].id, {})
      && (c.slots[i].ref > 1 || !c.slots[i].valid)
  {
    hide Gains, OneSlot, Got, Refs, Here;
    ghost var slots0 := c.slots;
    if path != [] && path[0] == '/' {
      i := c.Iget(ROOT);
      if i == -1 { return; }
      Started(slots0, c.slots, i, ROOT);
    } else {
      i := cwd;
      c.Idup(cwd);
      Started(slots0, c.slots, i, slots0[cwd].id);
    }
    HereFacts(slots0, c.slots, i, c.slots[i].id, {});
  }

  /** How a walk from `start` ends: the result is what the path means, with one reference more to it and to
      nothing else. Freed are exactly the inodes left behind without a link and without another reference; in
      a tree whose directories name only inodes with links there are none. A panic on an inode without a type
      comes at one that had none, or lost it on the way. */
  ghost predicate Walked(slots0: seq<Slot>, slots: seq<Slot>, v0: View, t: Tree, start: Id, names: seq<string>, parent: bool,
                         r: NameResult, freed: set<Id>)
  {
    var want := Resolve(t, start, names, parent);
    var doomed := Doomed(t, slots0, LeftBehind(t, start, names, parent));
    && |slots| == NINODE
    && (r.Named? ==> r.slot < NINODE && want == Some(slots[r.slot].id) && Gains(slots0, slots, want))
    && (r.Named? && parent ==> names != [] && r.name == names[|names| - 1])
    && (r.Unnamed? ==> want.None? && Gains(slots0, slots, None))
    && (if r.Named? || r.Unnamed? then freed == doomed else freed <= doomed)
    && (Linked(t) ==> freed == {})
    && (r.NoType? ==> exists k: nat :: k < |names| && NoTypeAt(v0, t, start, names[..k], freed))
    && (r.OutOfInodes? ==> forall k :: 0 <= k < NINODE ==> slots[k].ref > 0)
  }

  /** Where a walk is: `done` names lead to inode cur, and the walk goes on from there as the path says. */
  ghost predicate Walking(slots0: seq<Slot>, slots: seq<Slot>, i: nat, t: Tree, start: Id, names: seq<string>, parent: bool,
                          cur: Id, done: seq<string>, rest: seq<string>, freed: set<Id>)
  {
    && Here(slots0, slots, i, cur, freed) && names == done + rest && Follow(t, start, done) == Some(cur)
    && Owed(t, slots0, freed, LeftBehind(t, cur, rest, parent), LeftBehind(t, start, names, parent))
    && Resolve(t, start, names, parent) == Resolve(t, cur, rest, parent)
    && (done == [] ==> slots[i].ref > 1 || !slots[i].valid) && (parent && rest == [] ==> done == [])
  }

  lemma WalkBegins(slots0: seq<Slot>, slots: seq<Slot>, i: nat, t: Tree, start: Id, names: seq<string>, parent: bool)
    requires Here(slots0, slots, i, start, {}) && (slots[i].ref > 1 || !slots[i].valid)
    ensures Walking(slots0, slots, i, t, start, names, parent, start, [], names, {})
  {
    hide Refs, Resolve, LeftBehind, Gains;
  }

  lemma WalkGoesOn(slots0: seq<Slot>, slots1: seq<Slot>, slots: seq<Slot>, i: nat, j: nat, t: Tree, start: Id, names: seq<string>,
                   parent: bool, cur: Id, next: Id, done: seq<string>, rest: seq<string>, freed: set<Id>, freed': set<Id>)
    requires Walking(slots0, slots1, i, t, start, names, parent, cur, done, rest, freed) && rest != []
    requires Here(slots0, slots, j, next, freed') && Child(t, cur, rest[0]) == Some(next) && !(parent && |rest| == 1)
    requires Owed(t, slots0, freed', LeftBehind(t, next, rest[1..], parent), LeftBehind(t, start, names, parent))
    requires Resolve(t, cur, rest, parent) == Resolve(t, next, rest[1..], parent)
    ensures Walking(slots0, slots, j, t, start, names, parent, next, done + [rest[0]], rest[1..], freed')
  {
    hide Refs, Resolve, LeftBehind, Gains, Here, Owed, Follow;
    FollowMore(t, start, done, rest[0]);
    assert rest == [rest[0]] + rest[1..];
  }

  /** The walk ends here: with the inode that it is at, in failure, or in a panic. */
  lemma WalkStops(slots0: seq<Slot>, slots1: seq<Slot>, slots: seq<Slot>, v0: View, i: nat, t: Tree, start: Id, names: seq<string>,
                  parent: bool, cur: Id, done: seq<string>, rest: seq<string>, freed: set<Id>, r: NameResult, freed': set<Id>)
    requires Walking(slots0, slots1, i, t, start, names, parent, cur, done, rest, freed) && |slots| == NINODE
    requires start == ROOT || Refs(slots0, start) > 0
    requires r.Named? ==> r.slot < NINODE && slots[r.slot].id == cur && Gains(slots0, slots, Some(cur)) && Resolve(t, cur, rest, parent) == Some(cur)
    requires r.Named? && parent ==> rest == [r.name]
    requires r.Unnamed? ==> Resolve(t, cur, rest, parent) == None && Gains(slots0, slots, None)
    requires var doomed := Doomed(t, slots0, LeftBehind(t, start, names, parent));
             if r.Named? || r.Unnamed? then freed' == doomed else freed' <= doomed
    requires r.NoType? ==> rest != [] && (cur in freed' || KindOf(v0, cur) == 0)
    requires r.OutOfInodes? ==> forall k :: 0 <= k < NINODE ==> slots[k].ref > 0
    ensures Walked(slots0, slots, v0, t, start, names, parent, r, freed')
  {
    hide Refs, Resolve, LeftBehind, Gains, Here, Owed, Follow, Doomed, Linked;
    if Linked(t) { NoneDoomed(t, slots0, start, names, parent); }
    if r.NoType? {
      assert names[..|done|] == done;
      assert NoTypeAt(v0, t, start, names[..|done|], freed');
    }
  }

  lemma WalkFacts(slots0: seq<Slot>, slots: seq<Slot>, i: nat, t: Tree, start: Id, names: seq<string>, parent: bool,
                  cur: Id, done: seq<string>, rest: seq<string>, freed: set<Id>)
    requires Walking(slots0, slots, i, t, start, names, parent, cur, done, rest, freed)
    ensures Here(slots0, slots, i, cur, freed) && |slots| == NINODE && i < NINODE && slots[i].ref > 0 && slots[i].id == cur
    ensures Gains(slots0, slots, Some(cur)) && names == done + rest
    ensures Owed(t, slots0, freed, LeftBehind(t, cur, rest, parent), LeftBehind(t, start, names, parent))
    ensures rest == [] ==> freed == Doomed(t, slots0, LeftBehind(t, start, names, parent))
    ensures rest == [] ==> Resolve(t, cur, rest, parent) == if parent then None else Some(cur)
    ensures parent && rest == [] ==> slots[i].ref > 1 || !slots[i].valid
  {
    hide Refs, Resolve, LeftBehind, Gains, Doomed, Follow;
    ResolveEnd(t, cur, parent);
    NothingBehind(t, cur, parent);
    if rest == [] { AllPaid(t, slots0, freed, LeftBehind(t, start, names, parent)); }
  }

  lemma NoSlot(slots0: seq<Slot>, slots: seq<Slot>, v0: View, t: Tree, start: Id, names: seq<string>, parent: bool)
    requires |slots| == NINODE && forall k :: 0 <= k < NINODE ==> slots[k].ref > 0
    ensures Walked(slots0, slots, v0, t, start, names, parent, OutOfInodes, {})
  {
    hide Refs, Resolve, LeftBehind, Gains, Doomed, Follow;
  }

  /** namex, from the root or from the current directory, whose inode is in slot cwd. */
  method Namex(c: Icache, fs: Fs, ghost t: Tree, path: string, cwd: nat, parent: bool)
    returns (r: NameResult, ghost freed: set<Id>)
    requires c.Valid() && fs.Valid() && fs.Settled() && TreeOk(fs.l, fs.Now(), t) && NoNul(path)
    requires cwd < NINODE && c.slots[cwd].ref > 0 && OnDisk(c.slots[cwd].id, fs.Now()) && OnDisk(ROOT, fs.Now())
    modifies c, fs`disk, fs`inodes, fs`dinodes, fs`tab, fs`owner, fs`logged
    ensures c.Valid()
    ensures r.Named? || r.Unnamed? ==> fs.Valid() && fs.Settled() && FilesOk(fs.l, old(fs.Now()), fs.Now(), t, freed)
    ensures Walked(old(c.slots), c.slots, old(fs.Now()), t, if path != [] && path[0] == '/' then ROOT else old(c.slots)[cwd].id,
                   Components(path), parent, r, freed)
  {
    hide FsOk, Gains, Components, Resolve, LeftBehind, OneSlot, Child, FilesOk, Here, Owed, Doomed, TreeOk, AllSnug, Walking, Walked, KindOf, Refs, Key, NoNul, Follow, Linked;
    ghost var slots0, v0, names := c.slots, fs.Now(), Components(path);
    ghost var start := if path != [] && path[0] == '/' then ROOT else c.slots[cwd].id;
    freed := {};
    SomeRefs(slots0, cwd);
    var i := Begin(c, path, cwd);
    if i == -1 {
      NoSlot(slots0, c.slots, v0, t, start, names, parent);
      return OutOfInodes, freed;
    }
    NothingFreed(fs.l, v0, t);
    WalkBegins(slots0, c.slots, i, t, start, names, parent);
    ComponentNames(path);
    ghost var done, cur := [], start;
    var p := path;
    var e := Skipelem(p);
    while e.Elem?
      invariant c.Valid() && fs.Valid() && fs.Settled() && 0 <= i && OnDisk(cur, fs.Now())
      invariant FilesOk(fs.l, v0, fs.Now(), t, freed)
      invariant Walking(slots0, c.slots, i, t, start, names, parent, cur, done, Components(p), freed)
      invariant e.NoElem? <==> Components(p) == []
      invariant e.Elem? ==> Components(p) == [e.name] + Components(e.rest) && |e.rest| < |p| && (e.rest == [] <==> Components(e.rest) == [])
      decreases |p|
    {
      ghost var slots1, rest, freed1 := c.slots, Components(p), freed;
      WalkFacts(slots0, slots1, i, t, start, names, parent, cur, done, rest, freed);
      assert rest[1..] == Components(e.rest) && rest[0] == names[|done|] == e.name;
      var turn;
      ghost var next;
      turn, freed, next := Advance(c, fs, i, e.name, parent && e.rest == [], slots0, v0, t, cur, rest, parent, freed, LeftBehind(t, start, names, parent));
      if !turn.To? {
        r := if turn.Full? then OutOfInodes else if turn.Typeless? then NoType else if turn.Fail? then Unnamed else Named(i, e.name);
        if turn.Stop? { HereFacts(slots0, c.slots, i, cur, freed); }
        WalkStops(slots0, slots1, c.slots, v0, i, t, start, names, parent, cur, done, rest, freed1, r, freed);
        return r, freed;
      }
      WalkGoesOn(slots0, slots1, c.slots, i, turn.slot, t, start, names, parent, cur, next, done, rest, freed1, freed);
      done, cur := done + [e.name], next;
      i := turn.slot;
      p := e.rest;
      e := Skipelem(p);
    }
    ghost var slots1 := c.slots;
    WalkFacts(slots0, slots1, i, t, start, names, parent, cur, done, [], freed);
    r := Named(i, "");
    if parent {
      r := Unnamed;
      var f := c.Iput(i, fs);
      LetGo(slots0, slots1, c.slots, i, cur, freed, f);
    }
    WalkStops(slots0, slots1, c.slots, v0, i, t, start, names, parent, cur, done, [], freed, r, freed);
  }

  /** The inode that a prefix of the path leads to has no type, or lost it on the way. */
  ghost predicate NoTypeAt(v0: View, t: Tree, start: Id, names: seq<string>, freed: set<Id>) {
    var x := Follow(t, start, names);
    x.Some? && (x.value in freed || KindOf(v0, x.value) == 0)
  }

  lemma ChildIs(t: Tree, cur: Id, name: string, d: DirResult)
    requires cur in t.dirs && Key(name) == name && (d.Absent? || d.Found?)
    requires d.Absent? ==> Key(name) !in t.dirs[cur]
    requires d.Found? ==> Key(name) in t.dirs[cur] && d.inum == t.dirs[cur][Key(name)] && d.inum != 0
    ensures d.Absent? ==> Child(t, cur, name) == None
    ensures d.Found? ==> Child(t, cur, name) == Some(Id(cur.dev, d.inum))
  {
  }

  lemma NothingBehind(t: Tree, id: Id, parent: bool)
    ensures LeftBehind(t, id, [], parent) == {}
  {
  }

  lemma PaidPart(t: Tree, slots0: seq<Slot>, freed: set<Id>, rest: set<Id>, all: set<Id>)
    requires Owed(t, slots0, freed, rest, all)
    ensures freed <= Doomed(t, slots0, all)
  {
  }
}

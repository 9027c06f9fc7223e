/** What a page directory means: the image of every virtual page, and how single writes to
    directories and tables change it. */
module AddressSpace {
  import opened Pages

  const USER_PAGES := USER_DIRS * ENTRIES
  const ALL_PAGES := ENTRIES * ENTRIES

  /** The entry for virtual page u in directory d, or 0 when the page is not present. */
  function Image(page: Memory, d: nat, u: nat): (w: nat) {
    Mapping(page, d, u / ENTRIES, u % ENTRIES)
  }

  /** The directory slots that hold a table. */
  function Slots(page: Memory, d: nat): (s: set<nat>)
    ensures forall i: nat :: i in s <==> i < ENTRIES && TableAt(page, d, i) != 0
  {
    set i: nat | 0 <= i < ENTRIES && TableAt(page, d, i) != 0
  }

  lemma TableFacts(page: Memory, role: Roles, freelist: nat, fl: seq<nat>, d: nat, i: nat)
    requires MemOk(page, role, freelist, fl) && d in role && role[d].Directory? && i < ENTRIES
    ensures Present(page[d][i]) <==> TableAt(page, d, i) != 0
    ensures TableAt(page, d, i) != 0 ==> TableAt(page, d, i) in role && role[TableAt(page, d, i)] == Table(d, i)
  {
  }

  /** A new table changes no image. */
  lemma ImageWithTable(page: Memory, role: Roles, freelist: nat, fl: seq<nat>, d: nat, i: nat, t: nat, page': Memory)
    requires MemOk(page, role, freelist, fl) && d in role && role[d].Directory? && i < ENTRIES && !Present(page[d][i])
    requires t in role && (role[t].Free? || role[t].Held?)
    requires page' == page[t := ZeroPage()][d := Put(page[d], i, Pte(t, 7))]
    ensures forall u :: 0 <= u < ALL_PAGES ==> Image(page', d, u) == Image(page, d, u)
    ensures Slots(page', d) == Slots(page, d) + {i} && TableAt(page', d, i) == t
  {
    hide ListOk, Put, Pte, Ppn, Present;
    PteParts(t, 7);
    ZeroIsAbsent();
    assert forall k: nat :: k < ENTRIES && k != i ==> TableAt(page', d, k) == TableAt(page, d, k);
    forall u | 0 <= u < ALL_PAGES ensures Image(page', d, u) == Image(page, d, u) {
      var k := u / ENTRIES;
      if k != i {
        TableFacts(page, role, freelist, fl, d, k);
      } else {
        assert TableAt(page, d, k) == 0;
      }
    }
  }

  /** Writing one table entry changes one image. */
  lemma ImageWithEntry(page: Memory, role: Roles, freelist: nat, fl: seq<nat>, t: nat, j: nat, w: nat, page': Memory)
    requires MemOk(page, role, freelist, fl) && t in role && role[t].Table? && j < ENTRIES
    requires page'.Keys == page.Keys && page'[t] == Put(page[t], j, w)
    requires forall p :: p in role && p != t && (role[p].Directory? || role[p].Table?) ==> page'[p] == page[p]
    ensures var d, u0 := role[t].dir, role[t].i * ENTRIES + j;
      && u0 < ALL_PAGES && Slots(page', d) == Slots(page, d) && (forall i: nat :: 0 <= i < ENTRIES ==> TableAt(page', d, i) == TableAt(page, d, i))
      && forall u :: 0 <= u < ALL_PAGES ==> Image(page', d, u) == if u == u0 then (if Present(w) then w else 0) else Image(page, d, u)
  {
    hide ListOk, Put, Ppn, Present;
    var d, i := role[t].dir, role[t].i;
    forall u | 0 <= u < ALL_PAGES
      ensures Image(page', d, u) == if u == i * ENTRIES + j then (if Present(w) then w else 0) else Image(page, d, u)
    {
      TableFacts(page, role, freelist, fl, d, u / ENTRIES);
      TableFacts(page, role, freelist, fl, d, i);
    }
  }

  /** A directory whose own pages are untouched means what it did. */
  lemma ImageStays(page: Memory, role: Roles, freelist: nat, fl: seq<nat>, page': Memory, d: nat)
    requires MemOk(page, role, freelist, fl) && d in role && role[d].Directory? && page'.Keys == page.Keys
    requires page'[d] == page[d] && forall p :: p in role && role[p].Table? && role[p].dir == d ==> page'[p] == page[p]
    ensures forall u :: 0 <= u < ALL_PAGES ==> Image(page', d, u) == Image(page, d, u)
    ensures Slots(page', d) == Slots(page, d)
  {
    hide ListOk;
    forall u | 0 <= u < ALL_PAGES ensures Image(page', d, u) == Image(page, d, u) {
      TableFacts(page, role, freelist, fl, d, u / ENTRIES);
    }
  }

  /** Present user pages and user frames are the same thing. */
  lemma ImageIsFrame(page: Memory, role: Roles, freelist: nat, fl: seq<nat>, d: nat, u: nat)
    requires MemOk(page, role, freelist, fl) && d in role && role[d].Directory? && u < USER_PAGES
    ensures Image(page, d, u) != 0 ==>
      && Present(Image(page, d, u)) && Ppn(Image(page, d, u)) in role
      && role[Ppn(Image(page, d, u))] == Frame(d, u / ENTRIES, u % ENTRIES)
    ensures forall f :: f in role && role[f] == Frame(d, u / ENTRIES, u % ENTRIES) ==> Image(page, d, u) != 0 && Ppn(Image(page, d, u)) == f
  {
    hide ListOk, Ppn;
    TableFacts(page, role, freelist, fl, d, u / ENTRIES);
  }

  // ---- Counting tables -----------------------------------------------------------------------

  /** The tables that mapping pages v to e makes when `slots` already hold one. */
  function TablesNeeded(slots: set<nat>, v: nat, e: nat): (n: nat)
    decreases e - v
  {
    if v >= e then 0
    else (if v / ENTRIES in slots then 0 else 1) + TablesNeeded(slots + {v / ENTRIES}, v + 1, e)
  }

  /** The slots that hold a table after pages v to e have been mapped. */
  function AddSlots(slots: set<nat>, v: nat, e: nat): (r: set<nat>)
    decreases e - v
  {
    if v >= e then slots else AddSlots(slots + {v / ENTRIES}, v + 1, e)
  }

  lemma {:induction false} AddSlotsMeans(slots: set<nat>, v: nat, e: nat, i: nat)
    ensures i in AddSlots(slots, v, e) <==> i in slots || exists u :: v <= u < e && u / ENTRIES == i
    decreases e - v
  {
    if v < e { AddSlotsMeans(slots + {v / ENTRIES}, v + 1, e, i); }
  }

  lemma {:induction false} AddSlotsEnd(slots: set<nat>, v: nat, e: nat)
    requires v <= e
    ensures AddSlots(slots, v, e + 1) == AddSlots(slots, v, e) + {e / ENTRIES}
    ensures TablesNeeded(slots, v, e + 1) == TablesNeeded(slots, v, e) + if e / ENTRIES in AddSlots(slots, v, e) then 0 else 1
    decreases e - v
  {
    if v < e { AddSlotsEnd(slots + {v / ENTRIES}, v + 1, e); }
  }

  // ---- Taking pages away ---------------------------------------------------------------------

  /** The first user slot from i on that holds a table. */
  function FirstSlot(page: Memory, d: nat, i: nat): (f: nat)
    ensures i <= USER_DIRS ==> i <= f <= USER_DIRS
    ensures f < USER_DIRS ==> TableAt(page, d, f) != 0
    ensures forall k :: i <= k < f ==> TableAt(page, d, k) == 0
    decreases USER_DIRS - i
  {
    if i >= USER_DIRS then USER_DIRS
    else if TableAt(page, d, i) != 0 then i
    else FirstSlot(page, d, i + 1)
  }

  /** Where the page-by-page part of deallocuvm's scan from page a begins: every slot without a table
      is stepped over by a whole table's worth of pages, which keeps the offset within the table. */
  function ScanStart(page: Memory, d: nat, a: nat): (s: nat) {
    FirstSlot(page, d, a / ENTRIES) * ENTRIES + a % ENTRIES
  }

  function Vpn(r: Role): (u: nat)
    requires r.Frame?
  {
    r.i * ENTRIES + r.j
  }

  predicate Doomed(r: Role, d: nat, s: nat, e: nat) {
    r.Frame? && r.dir == d && s <= Vpn(r) < e
  }

  /** Exactly the frames of d for pages s to e have become free. */
  ghost predicate Freed(role: Roles, role': Roles, d: nat, s: nat, e: nat) {
    && role.Keys == role'.Keys
    && forall p :: p in role ==> role'[p] == if Doomed(role[p], d, s, e) then Free else role[p]
  }

  /** Only those frames and the tables of d have been written. */
  ghost predicate FreedPages(page: Memory, role: Roles, page': Memory, d: nat, s: nat, e: nat) {
    && page.Keys == role.Keys == page'.Keys
    && forall p :: p in role && !(role[p].Table? && role[p].dir == d) && !Doomed(role[p], d, s, e) ==> page'[p] == page[p]
  }

  ghost predicate Unmapped(page: Memory, page': Memory, d: nat, s: nat, e: nat) {
    forall u :: 0 <= u < ALL_PAGES ==> Image(page', d, u) == if s <= u < e then 0 else Image(page, d, u)
  }

  /** Pages s to e of d are gone: their frames are free, and everything else is as it was. */
  ghost predicate Removed(page: Memory, role: Roles, page': Memory, role': Roles, d: nat, s: nat, e: nat) {
    Freed(role, role', d, s, e) && FreedPages(page, role, page', d, s, e) && Unmapped(page, page', d, s, e)
  }

  /** No page of d from v to v' is present. */
  ghost predicate NonePresent(page: Memory, d: nat, v: nat, v': nat) {
    forall u :: v <= u < v' ==> Image(page, d, u) == 0
  }

  lemma RemovedWider(page: Memory, role: Roles, freelist: nat, fl: seq<nat>, page': Memory, role': Roles, d: nat,
                     s: nat, e: nat, e': nat)
    requires MemOk(page, role, freelist, fl) && d in role && role[d].Directory? && e <= e' <= USER_PAGES
    requires Removed(page, role, page', role', d, s, e) && NonePresent(page, d, e, e')
    ensures Removed(page, role, page', role', d, s, e')
  {
    forall p | p in role && Doomed(role[p], d, s, e') ensures Doomed(role[p], d, s, e) {
      DoomedPresent(page, role, freelist, fl, d, p);
    }
  }

  lemma DoomedPresent(page: Memory, role: Roles, freelist: nat, fl: seq<nat>, d: nat, p: nat)
    requires MemOk(page, role, freelist, fl) && p in role && role[p].Frame? && role[p].dir == d
    ensures d in role && role[d].Directory? && Vpn(role[p]) < USER_PAGES
    ensures Image(page, d, Vpn(role[p])) != 0 && Ppn(Image(page, d, Vpn(role[p]))) == p
  {
    hide ListOk, Ppn;
    ImageIsFrame(page, role, freelist, fl, d, Vpn(role[p]));
  }

  lemma OnlyFrame(page: Memory, role: Roles, freelist: nat, fl: seq<nat>, d: nat, u: nat, f: nat)
    requires MemOk(page, role, freelist, fl) && f in role && role[f] == Frame(d, u / ENTRIES, u % ENTRIES)
    ensures forall p :: p in role && role[p].Frame? && role[p].dir == d && Vpn(role[p]) == u ==> p == f
  {
    hide MemOk, Ppn, Image;
    forall p | p in role && role[p].Frame? && role[p].dir == d && Vpn(role[p]) == u ensures p == f {
      DoomedPresent(page, role, freelist, fl, d, p);
      DoomedPresent(page, role, freelist, fl, d, f);
    }
  }

  lemma FreedOne(page: Memory, role: Roles, page1: Memory, role1: Roles, d: nat, s: nat, u: nat, t: nat, f: nat,
                 page2: Memory)
    requires Freed(role, role1, d, s, u) && FreedPages(page, role, page1, d, s, u) && s <= u
    requires f in role1 && role1[f] == Frame(d, u / ENTRIES, u % ENTRIES)
    requires forall p :: p in role1 && role1[p].Frame? && role1[p].dir == d && Vpn(role1[p]) == u ==> p == f
    requires t in role1 && role1[t] == Table(d, u / ENTRIES)
    requires page2.Keys == page1.Keys && forall p :: p in page1 && p != f && p != t ==> page2[p] == page1[p]
    ensures Freed(role, role1[f := Free], d, s, u + 1) && FreedPages(page, role, page2, d, s, u + 1)
  {
    assert Doomed(role[f], d, s, u + 1);
    forall p | p in role ensures Doomed(role[p], d, s, u + 1) <==> Doomed(role[p], d, s, u) || p == f {
      if Doomed(role[p], d, s, u + 1) && !Doomed(role[p], d, s, u) { assert role1[p] == role[p]; }
    }
  }

  /** Unmapping the next page. */
  lemma RemovedOne(page: Memory, role: Roles, page1: Memory, role1: Roles, freelist1: nat, fl1: seq<nat>, d: nat,
                   s: nat, u: nat, t: nat, f: nat, page2: Memory)
    requires MemOk(page1, role1, freelist1, fl1) && s <= u < USER_PAGES
    requires Removed(page, role, page1, role1, d, s, u)
    requires t in role1 && role1[t] == Table(d, u / ENTRIES) && f in role1
    requires role1[f] == Frame(d, u / ENTRIES, u % ENTRIES)
    requires page2 == page1[f := FreePage(freelist1)][t := Put(page1[t], u % ENTRIES, 0)]
    ensures Removed(page, role, page2, role1[f := Free], d, s, u + 1)
  {
    hide MemOk, Put, Freed, FreedPages, Image;
    KeysAgree(page1, role1, freelist1, fl1);
    ZeroIsAbsent();
    ImageWithEntry(page1, role1, freelist1, fl1, t, u % ENTRIES, 0, page2);
    OnlyFrame(page1, role1, freelist1, fl1, d, u, f);
    FreedOne(page, role, page1, role1, d, s, u, t, f, page2);
  }

  lemma KeysAgree(page: Memory, role: Roles, freelist: nat, fl: seq<nat>)
    requires MemOk(page, role, freelist, fl)
    ensures page.Keys == role.Keys && 0 !in page && forall p :: p in page ==> |page[p]| == ENTRIES
  {
  }
}

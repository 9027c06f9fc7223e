/** The effect of mapping, unmapping and dismantling on the pages of a memory, step by step. */
module VmSteps {
  import opened Pages
  import opened AddressSpace

  const PTE_W := 2
  const PTE_U := 4

  datatype MapResult = Done | NoTable | Remap

  /** perm | PTE_P for a permission set below one page. */
  function WithPresent(perm: nat): (f: nat)
    ensures f % 2 == 1 && (perm < PGSIZE ==> f < PGSIZE)
  {
    if perm % 2 == 1 then perm else perm + 1
  }

  /** Pages that no part of directory d is made of, nor free. */
  predicate Foreign(role: Roles, d: nat, q: nat)
    requires q in role
  {
    && !role[q].Free? && q != d
    && !(role[q].Table? && role[q].dir == d) && !(role[q].Frame? && role[q].dir == d)
  }

  /** Everything directory d is made of has become free, and everything else is as it was. */
  ghost predicate Dismantled(page: Memory, role: Roles, page': Memory, role': Roles, d: nat) {
    && page.Keys == role.Keys == page'.Keys == role'.Keys
    && (forall p :: p in role ==> role'[p] == if Foreign(role, d, p) || role[p].Free? then role[p] else Free)
    && (forall p :: p in role && Foreign(role, d, p) ==> page'[p] == page[p])
  }

  /** Removing every user page of d leaves no frame of it. */
  lemma AllRemoved(page: Memory, role: Roles, freelist: nat, fl: seq<nat>, page': Memory, role': Roles,
                   freelist': nat, fl': seq<nat>, d: nat)
    requires MemOk(page, role, freelist, fl) && d in role && role[d].Directory? && MemOk(page', role', freelist', fl')
    requires Removed(page, role, page', role', d, ScanStart(page, d, PageCount(0)), PageCount(KERNBASE))
    ensures page.Keys == role.Keys == page'.Keys == role'.Keys && d in role' && role'[d].Directory?
    ensures forall p :: p in role ==> role'[p] == if role[p].Frame? && role[p].dir == d then Free else role[p]
    ensures forall p :: p in role && !(role[p].Table? && role[p].dir == d) && !(role[p].Frame? && role[p].dir == d) ==> page'[p] == page[p]
  {
    hide MemOk, Ppn, Image, Unmapped, ScanStart;
    assert PageCount(0) == 0 && PageCount(KERNBASE) == USER_PAGES;
    KeysAgree(page, role, freelist, fl);
    forall p | p in role && role[p].Frame? && role[p].dir == d ensures Doomed(role[p], d, ScanStart(page, d, 0), USER_PAGES) {
      DoomedPresent(page, role, freelist, fl, d, p);
      PresentAfterStart(page, d, Vpn(role[p]));
    }
  }

  /** The scan from page 0 begins no later than the first present page. */
  lemma PresentAfterStart(page: Memory, d: nat, u: nat)
    requires u < USER_PAGES && Image(page, d, u) != 0 && 0 !in page
    ensures ScanStart(page, d, 0) <= u
  {
    assert TableAt(page, d, u / ENTRIES) != 0;
  }

  /** The tables in slots below i have become free; the directory still says where the others are. */
  ghost predicate TablesFreed(page: Memory, role: Roles, page': Memory, role': Roles, d: nat, i: nat) {
    && page.Keys == role.Keys == page'.Keys == role'.Keys && d in page && page'[d] == page[d] && |page[d]| == ENTRIES
    && (forall p :: p in role && !(role[p].Table? && role[p].dir == d) ==> page'[p] == page[p])
    && (forall p :: p in role && p != d && !(role[p].Table? && role[p].dir == d) ==> role'[p] == role[p])
    && (forall p :: p in role && role[p].Table? && role[p].dir == d && p != d ==> role'[p] == if role[p].i < i then Free else Held)
    && (forall k :: 0 <= k < ENTRIES && Present(page[d][k]) ==> Ppn(page[d][k]) in role && role[Ppn(page[d][k])] == Table(d, k))
    && (forall p :: p in role && role[p].Table? && role[p].dir == d ==> role[p].i < ENTRIES && Present(page[d][role[p].i]) && Ppn(page[d][role[p].i]) == p)
  }

  lemma TablesBegin(page: Memory, role: Roles, freelist: nat, fl: seq<nat>, d: nat)
    requires MemOk(page, role, freelist, fl) && d in role && role[d].Directory?
    ensures TablesFreed(page, role, page, Dissolved(role, d), d, 0)
  {
    hide ListOk, Ppn, Present;
  }

  lemma NextTable(page: Memory, role: Roles, page': Memory, role': Roles, d: nat, i: nat)
    requires TablesFreed(page, role, page', role', d, i) && i < ENTRIES && d in role && role[d].Directory?
    ensures d in page' && |page'[d]| == ENTRIES
    ensures Present(page'[d][i]) ==> Ppn(page'[d][i]) in role' && role'[Ppn(page'[d][i])].Held? && Ppn(page'[d][i]) != d
    ensures !Present(page'[d][i]) ==> TablesFreed(page, role, page', role', d, i + 1)
  {
    hide Ppn, Present;
  }

  lemma TableFreed(page: Memory, role: Roles, page': Memory, role': Roles, d: nat, i: nat, content: Page)
    requires TablesFreed(page, role, page', role', d, i) && i < ENTRIES && d in role && role[d].Directory?
    requires d in page' && |page'[d]| == ENTRIES && Present(page'[d][i])
    ensures TablesFreed(page, role, page'[Ppn(page'[d][i]) := content], role'[Ppn(page'[d][i]) := Free], d, i + 1)
  {
    hide Ppn, Present;
  }

  lemma DirectoryFreed(page: Memory, role: Roles, page1: Memory, role1: Roles, page2: Memory, role2: Roles, d: nat,
                       content: Page)
    requires TablesFreed(page1, role1, page2, role2, d, ENTRIES) && d in role && role[d].Directory?
    requires page.Keys == role.Keys == page1.Keys
    requires forall p :: p in role ==> role1[p] == if role[p].Frame? && role[p].dir == d then Free else role[p]
    requires forall p :: p in role && !(role[p].Table? && role[p].dir == d) && !(role[p].Frame? && role[p].dir == d) ==> page1[p] == page[p]
    ensures Dismantled(page, role, page2[d := content], role2[d := Free], d)
  {
    hide Ppn, Present;
  }

  /** The number of pages that sz bytes reach into. */
  function PageCount(sz: nat): (n: nat)
    ensures n * PGSIZE < sz + PGSIZE && sz <= n * PGSIZE
  {
    (sz + PGSIZE - 1) / PGSIZE
  }

  lemma PageCounts(x: nat, y: nat)
    requires x <= y <= KERNBASE
    ensures PageCount(x) <= PageCount(y) <= USER_PAGES
    ensures forall v :: v * PGSIZE < y <==> v < PageCount(y)
  {
  }

  function Least(a: nat, b: nat): (m: nat) {
    if a < b then a else b
  }

  /** Where the scan stands at page v, between slots without tables or past its start. */
  ghost predicate ScanAt(page: Memory, d: nat, s: nat, v: nat) {
    && (v <= s ==> v % ENTRIES == s % ENTRIES && FirstSlot(page, d, v / ENTRIES) == s / ENTRIES)
    && (v > s ==> v % ENTRIES == 0 || TableAt(page, d, v / ENTRIES) != 0)
  }

  lemma ScanBegins(page: Memory, d: nat, a: nat)
    requires a <= USER_PAGES
    ensures ScanAt(page, d, ScanStart(page, d, a), a) && a <= ScanStart(page, d, a)
  {
  }

  /** Over a slot without a table the scan keeps its offset and misses nothing present. */
  lemma ScanSkips(page: Memory, d: nat, s: nat, v: nat, e: nat)
    requires ScanAt(page, d, s, v) && v < USER_PAGES && TableAt(page, d, v / ENTRIES) == 0 && 0 !in page
    ensures ScanAt(page, d, s, v + ENTRIES)
    ensures v < s ==> v + ENTRIES <= s
    ensures v >= s ==> NonePresent(page, d, v, Least(v + ENTRIES, e))
  {
    assert (v + ENTRIES) / ENTRIES == v / ENTRIES + 1 && (v + ENTRIES) % ENTRIES == v % ENTRIES;
    if v >= s {
      assert v > s && v % ENTRIES == 0;
      forall u | v <= u < v + ENTRIES ensures Image(page, d, u) == 0 { assert u / ENTRIES == v / ENTRIES; }
    }
  }

  lemma ScanEnters(page: Memory, d: nat, s: nat, v: nat)
    requires ScanAt(page, d, s, v) && v < USER_PAGES && TableAt(page, d, v / ENTRIES) != 0
    ensures v >= s && ScanAt(page, d, s, v + 1)
  {
    assert (v + 1) % ENTRIES == 0 || (v + 1) / ENTRIES == v / ENTRIES;
  }

  lemma RemovedNone(page: Memory, role: Roles, freelist: nat, fl: seq<nat>, d: nat, s: nat, e: nat)
    requires MemOk(page, role, freelist, fl) && e <= s
    ensures Removed(page, role, page, role, d, s, e)
  {
  }

  lemma RemovedNothing(page: Memory, role: Roles, page': Memory, role': Roles, d: nat, s: nat, e: nat, e': nat)
    requires Removed(page, role, page', role', d, s, e) && e <= s && e' <= s
    ensures Removed(page, role, page', role', d, s, e')
  {
  }

  lemma SameTables(page: Memory, role: Roles, page': Memory, role': Roles, d: nat, s: nat, e: nat, i: nat)
    requires Removed(page, role, page', role', d, s, e) && d in role && role[d].Directory?
    ensures TableAt(page', d, i) == TableAt(page, d, i)
    ensures e < ALL_PAGES ==> Image(page', d, e) == Image(page, d, e)
  {
  }

  lemma ListFacts(page: Memory, role: Roles, freelist: nat, fl: seq<nat>)
    requires MemOk(page, role, freelist, fl)
    ensures Shape(page, role) && ListOk(page, role, freelist, fl)
  {
  }

  ghost predicate HeldRange(role: Roles, p: nat, e: nat) {
    forall m :: p <= m < e ==> m in role && role[m].Held?
  }

  lemma StillHeld(page: Memory, role: Roles, page': Memory, role': Roles, d: nat, u: nat, p: nat, e: nat)
    requires Mapped(page, role, page', role', d, u, p)
    ensures HeldRange(role, p, e) ==> HeldRange(role', p + 1, e)
    ensures d in role && role[d].Directory? && (u < USER_PAGES ==> p in role && role[p].Held?) ==> d in role' && role'[d].Directory?
  {
  }

  lemma NeedNext(slots: set<nat>, v: nat, e: nat)
    requires v < e
    ensures TablesNeeded(slots, v, e) == (if v / ENTRIES in slots then 0 else 1) + TablesNeeded(slots + {v / ENTRIES}, v + 1, e)
    ensures v + 1 == e ==> TablesNeeded(slots + {v / ENTRIES}, v + 1, e) == 0
    ensures AddSlots(slots, v, e) == AddSlots(slots + {v / ENTRIES}, v + 1, e)
    ensures v + 1 == e ==> AddSlots(slots, v, e) == slots + {v / ENTRIES}
  {
  }

  lemma MappedNone(page: Memory, role: Roles, freelist: nat, fl: seq<nat>, d: nat, v: nat, p: nat)
    requires MemOk(page, role, freelist, fl)
    ensures MappedRange(page, role, page, role, d, v, 0, p)
  {
  }

  /** Pages taken from the free list have become tables of d. */
  ghost predicate TakenForTables(role: Roles, role': Roles, d: nat) {
    role.Keys == role'.Keys && forall q :: q in role && role[q].Free? ==> role'[q].Free? || (role'[q].Table? && role'[q].dir == d)
  }

  /** As Mapped, for the first k pages of a range. */
  ghost predicate MappedRange(page: Memory, role: Roles, page': Memory, role': Roles, d: nat, v: nat, k: nat, p: nat) {
    && page.Keys == page'.Keys == role.Keys == role'.Keys
    && (v < USER_PAGES ==> forall m :: p <= m < p + k ==> m in role' && role'[m] == Frame(d, (v + m - p) / ENTRIES, (v + m - p) % ENTRIES))
    && (forall q :: q in role && !role[q].Free? && (!(p <= q < p + k) || v >= USER_PAGES) ==> role'[q] == role[q])
    && (forall q :: q in role && !role[q].Free? && q != d && !(role[q].Table? && role[q].dir == d) ==> page'[q] == page[q])
    && (forall q :: q in role' && role'[q].Held? ==> role[q].Held?)
    && TakenForTables(role, role', d)
  }

  lemma MappedOne(page: Memory, role: Roles, page1: Memory, role1: Roles, page2: Memory, role2: Roles, d: nat, v: nat,
                  k: nat, p: nat)
    requires MappedRange(page, role, page1, role1, d, v, k, p) && Mapped(page1, role1, page2, role2, d, v + k, p + k)
    requires v < USER_PAGES ==> v + k < USER_PAGES && p + k in role && role[p + k].Held?
    requires d in role && role[d].Directory?
    ensures MappedRange(page, role, page2, role2, d, v, k + 1, p)
  {
  }

  /** Of the pages in use, only the directory and its tables are written, and only page p changes
      its role. */
  ghost predicate Mapped(page: Memory, role: Roles, page': Memory, role': Roles, d: nat, u: nat, p: nat) {
    && page.Keys == page'.Keys == role.Keys == role'.Keys
    && (u < USER_PAGES ==> p in role' && role'[p] == Frame(d, u / ENTRIES, u % ENTRIES))
    && (forall q :: q in role && !role[q].Free? && (q != p || u >= USER_PAGES) ==> role'[q] == role[q])
    && (forall q :: q in role && !role[q].Free? && q != d && !(role[q].Table? && role[q].dir == d) ==> page'[q] == page[q])
    && (forall q :: q in role' && role'[q].Held? ==> role[q].Held?)
    && TakenForTables(role, role', d)
  }

  // ---- Mapping a range -----------------------------------------------------------------------

  lemma ImageAt(page: Memory, d: nat, i: nat, j: nat)
    requires i < ENTRIES && j < ENTRIES
    ensures TableAt(page, d, i) == 0 && 0 !in page ==> Mapping(page, d, i, j) == 0
    ensures var t := TableAt(page, d, i); t in page && |page[t]| == ENTRIES ==>
      Mapping(page, d, i, j) == if Present(page[t][j]) then page[t][j] else 0
    ensures !Present(0)
  {
  }

  /** After walkpgdir every image is as before, and only free pages and the directory were touched. */
  lemma AfterWalk(page: Memory, role: Roles, freelist: nat, fl: seq<nat>, d: nat, i: nat, t: nat, page': Memory,
                  role': Roles)
    requires MemOk(page, role, freelist, fl) && d in role && role[d].Directory? && i < ENTRIES && t != 0
    requires (page' == page && role' == role && t == TableAt(page, d, i))
          || (TableAt(page, d, i) == 0 && t in role && role[t].Free? && role' == role[t := Table(d, i)]
              && page' == page[t := ZeroPage()][d := Put(page[d], i, Pte(t, 7))])
    ensures forall u :: 0 <= u < ALL_PAGES ==> Image(page', d, u) == Image(page, d, u)
    ensures Slots(page', d) == Slots(page, d) + {i}
    ensures page.Keys == page'.Keys == role.Keys == role'.Keys
    ensures forall q :: q in role && !role[q].Free? ==> role'[q] == role[q] && (q != d ==> page'[q] == page[q])
    ensures forall q :: q in role' && role'[q].Held? ==> role[q].Held?
    ensures TakenForTables(role, role', d)
    ensures TableAt(page, d, i) == 0 ==> forall j :: 0 <= j < |page'[t]| ==> page'[t][j] == 0
  {
    hide MemOk;
    WalkFacts(page, role, freelist, fl, d, i);
    if TableAt(page, d, i) == 0 {
      ImageWithTable(page, role, freelist, fl, d, i, t, page');
    } else {
      assert Slots(page, d) == Slots(page, d) + {i};
    }
  }

  lemma MappedTwice(page: Memory, role: Roles, page1: Memory, role1: Roles, page2: Memory, role2: Roles, d: nat,
                    u: nat, p: nat, t: nat)
    requires page.Keys == page1.Keys == page2.Keys == role.Keys == role1.Keys == role2.Keys
    requires forall q :: q in role && !role[q].Free? ==> role1[q] == role[q] && (q != d ==> page1[q] == page[q])
    requires t in page1 && role1[t] == Table(d, u / ENTRIES)
    requires (forall q :: q in page1 && q != t ==> page2[q] == page1[q])
    requires (t in role && role[t] == role1[t]) || (t in role && role[t].Free?)
    requires u < USER_PAGES ==> p in role && role2 == role1[p := Frame(d, u / ENTRIES, u % ENTRIES)]
    requires u >= USER_PAGES ==> role2 == role1
    requires forall q :: q in role1 && role1[q].Held? ==> role[q].Held?
    requires TakenForTables(role, role1, d) && (u < USER_PAGES ==> !role[p].Free?)
    ensures Mapped(page, role, page2, role2, d, u, p)
  {
  }

  lemma EmptyList(page: Memory, role: Roles, freelist: nat, fl: seq<nat>)
    requires MemOk(page, role, freelist, fl)
    ensures freelist == 0 <==> fl == []
  {
  }

  lemma WalkFacts(page: Memory, role: Roles, freelist: nat, fl: seq<nat>, d: nat, i: nat)
    requires MemOk(page, role, freelist, fl) && d in role && role[d].Directory? && i < ENTRIES
    ensures page.Keys == role.Keys && |page[d]| == ENTRIES && 0 !in role
    ensures Present(page[d][i]) <==> TableAt(page, d, i) != 0
    ensures TableAt(page, d, i) != 0 ==> Ppn(page[d][i]) == TableAt(page, d, i) && TableAt(page, d, i) in role && role[TableAt(page, d, i)] == Table(d, i)
    ensures TableAt(page, d, i) != 0 ==> |page[TableAt(page, d, i)]| == ENTRIES
    ensures i in Slots(page, d) <==> TableAt(page, d, i) != 0
  {
  }
}

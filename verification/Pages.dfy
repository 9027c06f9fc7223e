/** Physical pages of the kernel: the words of page tables (section 4.3 of the Intel SDM volume 3A,
    mmu.h:103-145), the free list threaded through free pages (kalloc.c), and the one role every
    page plays. */
module Pages {

  const KERNBASE := 0x8000_0000
  const PGSIZE := 4096
  const ENTRIES := 1024
  const USER_DIRS := 512
  const JUNK := 0x0101_0101

  /** A page as 32-bit words. */
  type Page = seq<nat>

  // ---- Words of directories and tables -------------------------------------------------------

  predicate Present(w: nat) {
    w % 2 == 1
  }

  function Ppn(w: nat): (p: nat) {
    w / PGSIZE
  }

  function Flags(w: nat): (f: nat) {
    w % PGSIZE
  }

  function Pte(p: nat, flags: nat): (w: nat) {
    p * PGSIZE + flags
  }

  lemma ZeroIsAbsent()
    ensures !Present(0)
  {
  }

  lemma PteParts(p: nat, flags: nat)
    requires flags < PGSIZE
    ensures Ppn(Pte(p, flags)) == p && Flags(Pte(p, flags)) == flags
    ensures Present(Pte(p, flags)) <==> flags % 2 == 1
  {
  }

  function ZeroPage(): (r: Page)
    ensures |r| == ENTRIES && forall j :: 0 <= j < |r| ==> r[j] == 0
  {
    seq(ENTRIES, _ => 0)
  }

  function Put(p: Page, j: nat, w: nat): (r: Page)
    requires j < |p|
    ensures |r| == |p| && r[j] == w && forall k :: 0 <= k < |p| && k != j ==> r[k] == p[k]
  {
    var r: Page := p[j := w];
    r
  }

  // ---- Links of the free list ----------------------------------------------------------------

  /** A page's kernel virtual address, with 0 for no page. */
  function Link(p: nat): (w: nat) {
    if p == 0 then 0 else KERNBASE + p * PGSIZE
  }

  function Unlink(w: nat): (p: nat) {
    if w < KERNBASE then 0 else (w - KERNBASE) / PGSIZE
  }

  lemma LinkParts(p: nat)
    ensures Unlink(Link(p)) == p
  {
  }

  /** A page filled with junk whose first word links to the next free page. */
  function FreePage(next: nat): (r: Page)
    ensures |r| == ENTRIES && r[0] == Link(next)
  {
    Put(seq(ENTRIES, _ => JUNK), 0, Link(next))
  }

  // ---- Roles ---------------------------------------------------------------------------------

  /** What a page is for. `Table` is the page table that entry i of directory dir points to;
      `Frame` is user memory that entry j of that table points to; `Held` pages have been taken
      from the free list and belong to whoever took them. */
  datatype Role = Free | Held | Directory | Table(dir: nat, i: nat) | Frame(dir: nat, i: nat, j: nat)

  type Memory = map<nat, Page>
  type Roles = map<nat, Role>

  predicate Shape(page: Memory, role: Roles) {
    && page.Keys == role.Keys && 0 !in page
    && (forall p :: p in page ==> |page[p]| == ENTRIES)
  }

  /** Entry k of the list is a page whose first word leads to entry k + 1. */
  predicate LinkedAt(page: Memory, fl: seq<nat>, k: nat) {
    k < |fl| && fl[k] in page && |page[fl[k]]| > 0 && page[fl[k]][0] == Link(if k + 1 < |fl| then fl[k + 1] else 0)
  }

  /** The list from `freelist` through first words is `fl`, and it holds exactly the free pages. */
  predicate ListOk(page: Memory, role: Roles, freelist: nat, fl: seq<nat>)
    requires Shape(page, role)
  {
    && freelist == (if fl == [] then 0 else fl[0])
    && (forall k :: 0 <= k < |fl| ==> fl[k] in role && role[fl[k]].Free?)
    && (forall k :: 0 <= k < |fl| ==> LinkedAt(page, fl, k))
    && (forall k, m :: 0 <= k < m < |fl| ==> fl[k] != fl[m])
    && (forall p :: p in role && role[p].Free? ==> p in fl)
  }

  /** Every present directory entry points to the table in its place. */
  predicate DirsOk(page: Memory, role: Roles)
    requires Shape(page, role)
  {
    forall d, i :: d in role && role[d].Directory? && 0 <= i < ENTRIES && Present(page[d][i]) ==>
      Ppn(page[d][i]) in role && role[Ppn(page[d][i])] == Table(d, i)
  }

  /** Every table is pointed to from its place. */
  predicate TablesOk(page: Memory, role: Roles)
    requires Shape(page, role)
  {
    forall t :: t in role && role[t].Table? ==>
      var d, i := role[t].dir, role[t].i;
      d in role && role[d].Directory? && i < ENTRIES && Present(page[d][i]) && Ppn(page[d][i]) == t
  }

  /** Every present entry of a user-half table points to the frame in its place. */
  predicate EntriesOk(page: Memory, role: Roles)
    requires Shape(page, role)
  {
    forall t, j :: t in role && role[t].Table? && role[t].i < USER_DIRS && 0 <= j < ENTRIES && Present(page[t][j]) ==>
      Ppn(page[t][j]) in role && role[Ppn(page[t][j])] == Frame(role[t].dir, role[t].i, j)
  }

  /** The table that entry i of directory d points to. */
  function TableAt(page: Memory, d: nat, i: nat): (t: nat) {
    if d in page && i < |page[d]| && Present(page[d][i]) then Ppn(page[d][i]) else 0
  }

  /** The entry for user page i, j of directory d, or 0 when the page is not present. */
  function Mapping(page: Memory, d: nat, i: nat, j: nat): (w: nat) {
    var t := TableAt(page, d, i);
    if t in page && j < |page[t]| && Present(page[t][j]) then page[t][j] else 0
  }

  /** Every frame is pointed to from its place. */
  predicate FramesOk(page: Memory, role: Roles)
    requires Shape(page, role)
  {
    forall f :: f in role && role[f].Frame? ==>
      var d, i, j := role[f].dir, role[f].i, role[f].j;
      && d in role && role[d].Directory? && i < USER_DIRS && j < ENTRIES
      && TableAt(page, d, i) in role && role[TableAt(page, d, i)] == Table(d, i)
      && Present(page[TableAt(page, d, i)][j]) && Ppn(page[TableAt(page, d, i)][j]) == f
  }

  predicate MemOk(page: Memory, role: Roles, freelist: nat, fl: seq<nat>) {
    && Shape(page, role) && ListOk(page, role, freelist, fl)
    && DirsOk(page, role) && TablesOk(page, role) && EntriesOk(page, role) && FramesOk(page, role)
  }

  // ---- Before anything is freed --------------------------------------------------------------

  predicate Managed(p: nat, lo: nat, hi: nat) {
    lo <= p < hi
  }

  function FirstPages(lo: nat, hi: nat): (m: Memory)
    ensures forall p: nat :: p in m <==> Managed(p, lo, hi)
    ensures forall p :: p in m ==> |m[p]| == ENTRIES
  {
    map p: nat | p < hi && Managed(p, lo, hi) :: ZeroPage()
  }

  function FirstRoles(lo: nat, hi: nat): (r: Roles)
    ensures forall p: nat :: p in r <==> Managed(p, lo, hi)
    ensures forall p :: p in r ==> r[p] == Held
  {
    map p: nat | p < hi && Managed(p, lo, hi) :: Held
  }

  lemma FirstMemory(lo: nat, hi: nat)
    requires 0 < lo <= hi
    ensures MemOk(FirstPages(lo, hi), FirstRoles(lo, hi), 0, [])
  {
    var m, r := FirstPages(lo, hi), FirstRoles(lo, hi);
    forall p: nat ensures p in m.Keys <==> p in r.Keys {}
  }

  // ---- Steps ---------------------------------------------------------------------------------

  lemma TakeKeepsRest(page: Memory, role: Roles, p: nat)
    requires Shape(page, role) && p in role && role[p].Free?
    requires DirsOk(page, role) && TablesOk(page, role) && EntriesOk(page, role) && FramesOk(page, role)
    ensures var r := role[p := Held]; DirsOk(page, r) && TablesOk(page, r) && EntriesOk(page, r) && FramesOk(page, r)
  {
  }

  lemma TakePage(page: Memory, role: Roles, freelist: nat, fl: seq<nat>)
    requires MemOk(page, role, freelist, fl) && fl != []
    ensures freelist in page && freelist == fl[0] && role[freelist].Free?
    ensures MemOk(page, role[freelist := Held], Unlink(page[freelist][0]), fl[1..])
  {
    hide DirsOk, TablesOk, EntriesOk, FramesOk;
    assert LinkedAt(page, fl, 0);
    LinkParts(if 1 < |fl| then fl[1] else 0);
    TakeKeepsRest(page, role, fl[0]);
    var rest := fl[1..];
    forall k | 0 <= k < |rest| ensures LinkedAt(page, rest, k) {
      assert LinkedAt(page, fl, k + 1);
    }
    forall p | p in role && role[p].Free? && p != freelist ensures p in rest {
      var k :| 0 <= k < |fl| && fl[k] == p;
      assert rest[k - 1] == p;
    }
  }

  lemma GivePage(page: Memory, role: Roles, freelist: nat, fl: seq<nat>, p: nat)
    requires MemOk(page, role, freelist, fl) && p in role && role[p].Held?
    ensures MemOk(page[p := FreePage(freelist)], role[p := Free], p, [p] + fl)
  {
    hide ListOk;
    ListGrows(page, role, freelist, fl, p, page);
  }

  /** Page p goes to the front of the list, whatever else is written into pages not on it. */
  lemma ListGrows(page: Memory, role: Roles, freelist: nat, fl: seq<nat>, p: nat, page': Memory)
    requires Shape(page, role) && ListOk(page, role, freelist, fl) && p in role && !role[p].Free?
    requires page'.Keys == page.Keys && (forall q :: q in page' ==> |page'[q]| == ENTRIES)
    requires forall q :: q in role && role[q].Free? ==> page'[q] == page[q]
    ensures Shape(page'[p := FreePage(freelist)], role[p := Free])
    ensures ListOk(page'[p := FreePage(freelist)], role[p := Free], p, [p] + fl)
  {
    var m, r, l := page'[p := FreePage(freelist)], role[p := Free], [p] + fl;
    forall k | 0 <= k < |l| ensures LinkedAt(m, l, k) {
      if k > 0 { assert LinkedAt(page, fl, k - 1) && l[k] == fl[k - 1] && role[l[k]].Free?; }
    }
    forall q | q in r && r[q].Free? ensures q in l {
      if q != p { assert q in fl; }
    }
  }

  /** Writing pages off the list and giving them other roles leaves the list alone. */
  lemma ListStays(page: Memory, role: Roles, freelist: nat, fl: seq<nat>, page': Memory, role': Roles)
    requires Shape(page, role) && Shape(page', role') && ListOk(page, role, freelist, fl) && page'.Keys == page.Keys
    requires forall p :: p in role ==> (role'[p].Free? <==> role[p].Free?) && (role[p].Free? ==> page'[p] == page[p])
    ensures ListOk(page', role', freelist, fl)
  {
    forall k | 0 <= k < |fl| ensures LinkedAt(page', fl, k) {
      assert LinkedAt(page, fl, k);
    }
  }

  lemma WriteHeld(page: Memory, role: Roles, freelist: nat, fl: seq<nat>, p: nat, content: Page)
    requires MemOk(page, role, freelist, fl) && p in role && role[p].Held? && |content| == ENTRIES
    ensures MemOk(page[p := content], role, freelist, fl)
  {
    hide ListOk, Pte, Ppn, Present, Put;
    ListStays(page, role, freelist, fl, page[p := content], role);
  }

  lemma NewDirectory(page: Memory, role: Roles, freelist: nat, fl: seq<nat>, d: nat)
    requires MemOk(page, role, freelist, fl) && d in role && role[d].Held? && page[d] == ZeroPage()
    ensures MemOk(page, role[d := Directory], freelist, fl)
  {
    hide ListOk, Pte, Ppn, Present, Put;
    ZeroIsAbsent();
    ListStays(page, role, freelist, fl, page, role[d := Directory]);
  }

  lemma NewTableDirs(page: Memory, role: Roles, freelist: nat, fl: seq<nat>, d: nat, i: nat, t: nat)
    requires MemOk(page, role, freelist, fl) && d in role && role[d].Directory? && i < ENTRIES
    requires t in role && role[t].Held? && page[t] == ZeroPage() && !Present(page[d][i])
    ensures Shape(page[d := Put(page[d], i, Pte(t, 7))], role[t := Table(d, i)])
    ensures DirsOk(page[d := Put(page[d], i, Pte(t, 7))], role[t := Table(d, i)])
  {
    hide ListOk, Pte, Ppn, Present, Put;
    ZeroIsAbsent();
    PteParts(t, 7);
  }

  lemma NewTableTables(page: Memory, role: Roles, freelist: nat, fl: seq<nat>, d: nat, i: nat, t: nat)
    requires MemOk(page, role, freelist, fl) && d in role && role[d].Directory? && i < ENTRIES
    requires t in role && role[t].Held? && page[t] == ZeroPage() && !Present(page[d][i])
    ensures Shape(page[d := Put(page[d], i, Pte(t, 7))], role[t := Table(d, i)])
    ensures TablesOk(page[d := Put(page[d], i, Pte(t, 7))], role[t := Table(d, i)])
  {
    hide ListOk, Pte, Ppn, Present, Put;
    ZeroIsAbsent();
    PteParts(t, 7);
  }

  lemma NewTableEntries(page: Memory, role: Roles, freelist: nat, fl: seq<nat>, d: nat, i: nat, t: nat)
    requires MemOk(page, role, freelist, fl) && d in role && role[d].Directory? && i < ENTRIES
    requires t in role && role[t].Held? && page[t] == ZeroPage() && !Present(page[d][i])
    ensures Shape(page[d := Put(page[d], i, Pte(t, 7))], role[t := Table(d, i)])
    ensures EntriesOk(page[d := Put(page[d], i, Pte(t, 7))], role[t := Table(d, i)])
  {
    hide ListOk, Pte, Ppn, Present, Put;
    ZeroIsAbsent();
    PteParts(t, 7);
  }

  lemma NewTableFrames(page: Memory, role: Roles, freelist: nat, fl: seq<nat>, d: nat, i: nat, t: nat)
    requires MemOk(page, role, freelist, fl) && d in role && role[d].Directory? && i < ENTRIES
    requires t in role && role[t].Held? && page[t] == ZeroPage() && !Present(page[d][i])
    ensures Shape(page[d := Put(page[d], i, Pte(t, 7))], role[t := Table(d, i)])
    ensures FramesOk(page[d := Put(page[d], i, Pte(t, 7))], role[t := Table(d, i)])
  {
    hide ListOk, Pte, Ppn, Present, Put;
    ZeroIsAbsent();
    PteParts(t, 7);
  }

  lemma NewTable(page: Memory, role: Roles, freelist: nat, fl: seq<nat>, d: nat, i: nat, t: nat)
    requires MemOk(page, role, freelist, fl) && d in role && role[d].Directory? && i < ENTRIES
    requires t in role && role[t].Held? && page[t] == ZeroPage() && !Present(page[d][i])
    ensures MemOk(page[d := Put(page[d], i, Pte(t, 7))], role[t := Table(d, i)], freelist, fl)
  {
    hide ListOk, DirsOk, TablesOk, EntriesOk, FramesOk;
    NewTableDirs(page, role, freelist, fl, d, i, t);
    NewTableTables(page, role, freelist, fl, d, i, t);
    NewTableEntries(page, role, freelist, fl, d, i, t);
    NewTableFrames(page, role, freelist, fl, d, i, t);
    ListStays(page, role, freelist, fl, page[d := Put(page[d], i, Pte(t, 7))], role[t := Table(d, i)]);
  }

  lemma MapFrameDirs(page: Memory, role: Roles, freelist: nat, fl: seq<nat>, t: nat, j: nat, f: nat, flags: nat)
    requires MemOk(page, role, freelist, fl) && t in role && role[t].Table? && role[t].i < USER_DIRS && j < ENTRIES
    requires f in role && role[f].Held? && !Present(page[t][j]) && flags < PGSIZE && flags % 2 == 1
    ensures Shape(page[t := Put(page[t], j, Pte(f, flags))], role[f := Frame(role[t].dir, role[t].i, j)])
    ensures DirsOk(page[t := Put(page[t], j, Pte(f, flags))], role[f := Frame(role[t].dir, role[t].i, j)])
  {
    hide ListOk, Pte, Ppn, Present, Put;
    PteParts(f, flags);
  }

  lemma MapFrameTables(page: Memory, role: Roles, freelist: nat, fl: seq<nat>, t: nat, j: nat, f: nat, flags: nat)
    requires MemOk(page, role, freelist, fl) && t in role && role[t].Table? && role[t].i < USER_DIRS && j < ENTRIES
    requires f in role && role[f].Held? && !Present(page[t][j]) && flags < PGSIZE && flags % 2 == 1
    ensures Shape(page[t := Put(page[t], j, Pte(f, flags))], role[f := Frame(role[t].dir, role[t].i, j)])
    ensures TablesOk(page[t := Put(page[t], j, Pte(f, flags))], role[f := Frame(role[t].dir, role[t].i, j)])
  {
    hide ListOk, Pte, Ppn, Present, Put;
    PteParts(f, flags);
  }

  lemma MapFrameEntries(page: Memory, role: Roles, freelist: nat, fl: seq<nat>, t: nat, j: nat, f: nat, flags: nat)
    requires MemOk(page, role, freelist, fl) && t in role && role[t].Table? && role[t].i < USER_DIRS && j < ENTRIES
    requires f in role && role[f].Held? && !Present(page[t][j]) && flags < PGSIZE && flags % 2 == 1
    ensures Shape(page[t := Put(page[t], j, Pte(f, flags))], role[f := Frame(role[t].dir, role[t].i, j)])
    ensures EntriesOk(page[t := Put(page[t], j, Pte(f, flags))], role[f := Frame(role[t].dir, role[t].i, j)])
  {
    hide ListOk, Pte, Ppn, Present, Put;
    PteParts(f, flags);
  }

  lemma MapFrameFrames(page: Memory, role: Roles, freelist: nat, fl: seq<nat>, t: nat, j: nat, f: nat, flags: nat)
    requires MemOk(page, role, freelist, fl) && t in role && role[t].Table? && role[t].i < USER_DIRS && j < ENTRIES
    requires f in role && role[f].Held? && !Present(page[t][j]) && flags < PGSIZE && flags % 2 == 1
    ensures Shape(page[t := Put(page[t], j, Pte(f, flags))], role[f := Frame(role[t].dir, role[t].i, j)])
    ensures FramesOk(page[t := Put(page[t], j, Pte(f, flags))], role[f := Frame(role[t].dir, role[t].i, j)])
  {
    hide ListOk, Pte, Ppn, Present, Put;
    PteParts(f, flags);
  }

  lemma MapFrame(page: Memory, role: Roles, freelist: nat, fl: seq<nat>, t: nat, j: nat, f: nat, flags: nat)
    requires MemOk(page, role, freelist, fl) && t in role && role[t].Table? && role[t].i < USER_DIRS && j < ENTRIES
    requires f in role && role[f].Held? && !Present(page[t][j]) && flags < PGSIZE && flags % 2 == 1
    ensures MemOk(page[t := Put(page[t], j, Pte(f, flags))], role[f := Frame(role[t].dir, role[t].i, j)], freelist, fl)
  {
    hide ListOk, DirsOk, TablesOk, EntriesOk, FramesOk;
    MapFrameDirs(page, role, freelist, fl, t, j, f, flags);
    MapFrameTables(page, role, freelist, fl, t, j, f, flags);
    MapFrameEntries(page, role, freelist, fl, t, j, f, flags);
    MapFrameFrames(page, role, freelist, fl, t, j, f, flags);
    ListStays(page, role, freelist, fl, page[t := Put(page[t], j, Pte(f, flags))], role[f := Frame(role[t].dir, role[t].i, j)]);
  }

  lemma MapKernel(page: Memory, role: Roles, freelist: nat, fl: seq<nat>, t: nat, j: nat, w: nat)
    requires MemOk(page, role, freelist, fl) && t in role && role[t].Table? && role[t].i >= USER_DIRS && j < ENTRIES
    ensures MemOk(page[t := Put(page[t], j, w)], role, freelist, fl)
  {
    hide ListOk, Pte, Ppn, Present, Put;
    ListStays(page, role, freelist, fl, page[t := Put(page[t], j, w)], role);
  }

  lemma UnmapFrame(page: Memory, role: Roles, freelist: nat, fl: seq<nat>, t: nat, j: nat)
    requires MemOk(page, role, freelist, fl) && t in role && role[t].Table? && role[t].i < USER_DIRS && j < ENTRIES
    requires Present(page[t][j])
    ensures Ppn(page[t][j]) in role && role[Ppn(page[t][j])] == Frame(role[t].dir, role[t].i, j)
    ensures var f := Ppn(page[t][j]);
      MemOk(page[f := FreePage(freelist)][t := Put(page[t], j, 0)], role[f := Free], f, [f] + fl)
  {
    hide ListOk, Pte, Ppn, Present, Put;
    ZeroIsAbsent();
    var f := Ppn(page[t][j]);
    ListGrows(page, role, freelist, fl, f, page[t := Put(page[t], j, 0)]);
    assert page[f := FreePage(freelist)][t := Put(page[t], j, 0)] == page[t := Put(page[t], j, 0)][f := FreePage(freelist)];
  }

  /** What becomes of the pages of a directory without frames when nothing looks at it any more. */
  function Dissolved(role: Roles, d: nat): (r: Roles)
    ensures r.Keys == role.Keys
    ensures forall p :: p in role ==> r[p] == if p == d || (role[p].Table? && role[p].dir == d) then Held else role[p]
  {
    map p | p in role :: if p == d || (role[p].Table? && role[p].dir == d) then Held else role[p]
  }

  lemma DissolveTables(page: Memory, role: Roles, d: nat)
    requires Shape(page, role) && d in role && role[d].Directory? && DirsOk(page, role) && TablesOk(page, role)
    ensures DirsOk(page, Dissolved(role, d)) && TablesOk(page, Dissolved(role, d))
  {
    hide Present, Ppn;
  }

  lemma DissolveFrames(page: Memory, role: Roles, d: nat)
    requires Shape(page, role) && d in role && role[d].Directory? && EntriesOk(page, role) && FramesOk(page, role)
    requires forall f :: f in role && role[f].Frame? ==> role[f].dir != d
    ensures EntriesOk(page, Dissolved(role, d)) && FramesOk(page, Dissolved(role, d))
  {
    hide Present, Ppn;
  }

  lemma Dissolve(page: Memory, role: Roles, freelist: nat, fl: seq<nat>, d: nat)
    requires MemOk(page, role, freelist, fl) && d in role && role[d].Directory?
    requires forall f :: f in role && role[f].Frame? ==> role[f].dir != d
    ensures MemOk(page, Dissolved(role, d), freelist, fl)
  {
    hide ListOk, DirsOk, TablesOk, EntriesOk, FramesOk;
    DissolveTables(page, role, d);
    DissolveFrames(page, role, d);
    ListStays(page, role, freelist, fl, page, Dissolved(role, d));
  }
}

/** Page allocation and address spaces (kalloc.c:59-95, vm.c:45-90, 127-144, 220-337). Virtual
    addresses are counted in pages, sizes in bytes; a word of a page table is a number below 2^32. */
module Vm {
  import opened Common
  import opened Pages
  import opened AddressSpace
  import opened VmCopy
  import opened VmLoad
  import opened VmSteps

  class Kernel {
    var page: Memory
    var freelist: nat
    ghost var role: Roles
    ghost var fl: seq<nat>

    ghost predicate Valid()
      reads this
    {
      MemOk(page, role, freelist, fl)
    }

    /** All managed pages, lo to hi, are free. */
    constructor (lo: nat, hi: nat)
      requires 0 < lo <= hi
      ensures Valid() && role.Keys == FirstRoles(lo, hi).Keys && forall p :: p in role ==> role[p].Free?
    {
      page, freelist := FirstPages(lo, hi), 0;
      role, fl := FirstRoles(lo, hi), [];
      new;
      hide MemOk, FirstPages, FirstRoles;
      FirstMemory(lo, hi);
      Freerange(lo, hi);
    }

    /** freerange: pages that nobody else has are freed one by one. */
    method Freerange(lo: nat, hi: nat)
      requires Valid() && lo <= hi && HeldRange(role, lo, hi)
      modifies this
      ensures Valid() && role.Keys == old(role.Keys) && page.Keys == old(page.Keys)
      ensures forall p :: p in role ==> role[p] == if lo <= p < hi then Free else old(role)[p]
    {
      hide MemOk, ListOk, FreePage;
      KeysAgree(page, role, freelist, fl);
      var p := lo;
      while p < hi
        invariant lo <= p <= hi && Valid() && role.Keys == old(role.Keys) == page.Keys == old(page.Keys)
        invariant forall q :: q in role ==> role[q] == if lo <= q < p then Free else old(role)[q]
      {
        assert p in role && role[p].Held?;
        Kfree(p);
        p := p + 1;
      }
    }

    method Kalloc() returns (r: nat)
      requires Valid()
      modifies this
      ensures Valid() && page == old(page)
      ensures r == 0 <==> old(fl) == []
      ensures r == 0 ==> unchanged(this)
      ensures r != 0 ==> r in old(role) && old(role[r]).Free? && role == old(role)[r := Held] && fl == old(fl)[1..] && r == old(fl)[0]
    {
      r := freelist;
      if r != 0 {
        TakePage(page, role, freelist, fl);
        freelist := Unlink(page[r][0]);
        role, fl := role[r := Held], fl[1..];
      } else {
        EmptyList(page, role, freelist, fl);
      }
    }

    /** kfree of a page that its caller has: all stays in order, the page will be the next that kalloc gives,
        and no other page is touched. */
    method Kfree(p: nat)
      requires Valid() && p in role && role[p].Held?
      modifies this
      ensures Valid() && page.Keys == old(page.Keys)
      ensures fl == [p] + old(fl) && freelist == p && role == old(role)[p := Free]
      ensures forall q :: q in page && q != p ==> page[q] == old(page[q])
      ensures page == old(page)[p := FreePage(old(freelist))]
    {
      GivePage(page, role, freelist, fl, p);
      ListFacts(page, role, freelist, fl);
      Insert(p);
    }

    /** The stores of kfree, for a page of any use that has just ended. */
    method Insert(p: nat)
      requires Shape(page, role) && ListOk(page, role, freelist, fl) && p in page && !role[p].Free?
      modifies this
      ensures page == old(page)[p := FreePage(old(freelist))] && freelist == p
      ensures role == old(role)[p := Free] && fl == [p] + old(fl)
    {
      page := page[p := seq(ENTRIES, _ => JUNK)];
      page := page[p := Put(page[p], 0, Link(freelist))];
      freelist := p;
      role, fl := role[p := Free], [p] + fl;
    }

    method Walk(d: nat, i: nat, alloc: bool) returns (t: nat)
      requires Valid() && d in role && role[d].Directory? && i < ENTRIES
      modifies this
      ensures Valid()
      ensures t == TableAt(page, d, i) && (t != 0 ==> t in role && role[t] == Table(d, i))
      ensures old(TableAt(page, d, i)) != 0 || !alloc || old(fl) == [] ==> unchanged(this)
      ensures old(TableAt(page, d, i)) == 0 && alloc && old(fl) != [] ==>
        && t == old(fl)[0] && t in old(role) && old(role[t]).Free? && d in old(page) && fl == old(fl)[1..] && role == old(role)[t := Table(d, i)]
        && page == old(page)[t := ZeroPage()][d := Put(old(page)[d], i, Pte(t, 7))]
    {
      hide MemOk;
      WalkFacts(page, role, freelist, fl, d, i);
      if Present(page[d][i]) {
        t := Ppn(page[d][i]);
      } else {
        if !alloc { return 0; }
        t := Kalloc();
        if t == 0 { return; }
        WriteHeld(page, role, freelist, fl, t, ZeroPage());
        page := page[t := ZeroPage()];
        NewTable(page, role, freelist, fl, d, i, t);
        PteParts(t, 7);
        page := page[d := Put(page[d], i, Pte(t, 7))];
        role := role[t := Table(d, i)];
      }
    }

    /** Fills an empty table entry; in the user half the page it refers to becomes a frame. */
    method SetEntry(t: nat, j: nat, p: nat, perm: nat)
      requires Valid() && t in role && t in page && role[t].Table? && j < ENTRIES && |page[t]| == ENTRIES
      requires !Present(page[t][j]) && perm < PGSIZE
      requires role[t].i < USER_DIRS ==> p in role && role[p].Held?
      modifies this
      ensures Valid() && fl == old(fl) && freelist == old(freelist)
      ensures page == old(page)[t := Put(old(page)[t], j, Pte(p, WithPresent(perm)))]
      ensures role == if old(role[t]).i < USER_DIRS then old(role)[p := Frame(old(role[t]).dir, old(role[t]).i, j)] else old(role)
    {
      hide MemOk, Pte, Put;
      if role[t].i < USER_DIRS {
        MapFrame(page, role, freelist, fl, t, j, p, WithPresent(perm));
      } else {
        MapKernel(page, role, freelist, fl, t, j, Pte(p, WithPresent(perm)));
      }
      page := page[t := Put(page[t], j, Pte(p, WithPresent(perm)))];
      if role[t].i < USER_DIRS { role := role[p := Frame(role[t].dir, role[t].i, j)]; }
    }

    /** One turn of the loop of mappages: virtual page u is made to refer to physical page p. */
    method MapPage(d: nat, u: nat, p: nat, perm: nat) returns (r: MapResult)
      requires Valid() && d in role && role[d].Directory? && u < ALL_PAGES && perm < PGSIZE
      requires u < USER_PAGES ==> p in role && role[p].Held?
      modifies this
      ensures Valid()
      ensures !r.Done? ==> unchanged(this)
      ensures r.NoTable? <==> u / ENTRIES !in old(Slots(page, d)) && old(fl) == []
      ensures r.Remap? <==> old(Image(page, d, u)) != 0
      ensures r.Done? ==>
        && (forall x :: 0 <= x < ALL_PAGES ==> Image(page, d, x) == if x == u then Pte(p, WithPresent(perm)) else old(Image(page, d, x)))
        && Slots(page, d) == old(Slots(page, d)) + {u / ENTRIES}
        && fl == (if u / ENTRIES in old(Slots(page, d)) then old(fl) else old(fl)[1..])
        && Mapped(old(page), old(role), page, role, d, u, p)
    {
      hide MemOk, Slots, Mapping, Mapped, Pte, Present, Put;
      var i, j := u / ENTRIES, u % ENTRIES;
      ghost var page0, role0, freelist0, fl0 := page, role, freelist, fl;
      WalkFacts(page, role, freelist, fl, d, i);
      ImageAt(page, d, i, j);
      var t := Walk(d, i, true);
      if t == 0 { return NoTable; }
      AfterWalk(page0, role0, freelist0, fl0, d, i, t, page, role);
      WalkFacts(page, role, freelist, fl, d, i);
      ImageAt(page, d, i, j);
      if Present(page[t][j]) { return Remap; }
      ghost var page1, role1 := page, role;
      SetEntry(t, j, p, perm);
      PteParts(p, WithPresent(perm));
      ImageWithEntry(page1, role1, freelist, fl, t, j, Pte(p, WithPresent(perm)), page);
      MappedTwice(page0, role0, page1, role1, page, role, d, u, p, t);
      r := Done;
    }

    /** Maps n pages from virtual page v to physical pages from p on. */
    method Mappages(d: nat, v: nat, n: nat, p: nat, perm: nat) returns (r: MapResult, ghost k: nat)
      requires Valid() && d in role && role[d].Directory? && 1 <= n && v + n <= ALL_PAGES && perm < PGSIZE
      requires v < USER_PAGES ==> v + n <= USER_PAGES && HeldRange(role, p, p + n)
      modifies this
      ensures Valid() && k <= n && (r.Done? <==> k == n)
      ensures forall x :: 0 <= x < ALL_PAGES ==> Image(page, d, x) == if v <= x < v + k then Pte(p + x - v, WithPresent(perm)) else old(Image(page, d, x))
      ensures forall x :: v <= x < v + k ==> old(Image(page, d, x)) == 0
      ensures r.NoTable? ==> fl == [] && |old(fl)| < TablesNeeded(old(Slots(page, d)), v, v + n)
      ensures r.Remap? ==> old(Image(page, d, v + k)) != 0
      ensures r.Done? ==> |old(fl)| == |fl| + TablesNeeded(old(Slots(page, d)), v, v + n) && Slots(page, d) == AddSlots(old(Slots(page, d)), v, v + n)
      ensures n == 1 && !r.Done? ==> unchanged(this)
      ensures MappedRange(old(page), old(role), page, role, d, v, k, p)
    {
      hide MemOk, Slots, Mapped, MappedRange, Pte, Image, TablesNeeded, AddSlots;
      ghost var page0, role0 := page, role;
      ghost var slots0, fl0 := Slots(page, d), fl;
      var x := v;
      var q := p;
      k := 0;
      assert MappedRange(page0, role0, page, role, d, v, 0, p) by { MappedNone(page, role, freelist, fl, d, v, p); }
      while true
        invariant Valid() && d in role && role[d].Directory?
        invariant k < n && x == v + k && q == p + k
        invariant forall y :: 0 <= y < ALL_PAGES ==> Image(page, d, y) == if v <= y < v + k then Pte(p + y - v, WithPresent(perm)) else Image(page0, d, y)
        invariant forall y :: v <= y < v + k ==> Image(page0, d, y) == 0
        invariant k == 0 ==> unchanged(this)
        invariant AddSlots(Slots(page, d), x, v + n) == AddSlots(slots0, v, v + n)
        invariant |fl0| + TablesNeeded(Slots(page, d), x, v + n) == |fl| + TablesNeeded(slots0, v, v + n)
        invariant MappedRange(page0, role0, page, role, d, v, k, p)
        invariant v < USER_PAGES ==> HeldRange(role0, p, p + n) && HeldRange(role, q, p + n)
        decreases n - k
      {
        ghost var slots1, page1, role1 := Slots(page, d), page, role;
        NeedNext(slots1, x, v + n);
        r := MapPage(d, x, q, perm);
        if !r.Done? { return; }
        ghost var before := k;
        k := k + 1;
        MappedOne(page0, role0, page1, role1, page, role, d, v, before, p);
        StillHeld(page1, role1, page, role, d, x, q, p + n);
        if x == v + n - 1 { break; }
        x, q := x + 1, q + 1;
      }
    }

    /** Unmaps and frees the page a table entry refers to: kfree first, then the entry is cleared. */
    method FreeEntry(t: nat, j: nat)
      requires Valid() && t in role && t in page && role[t].Table? && role[t].i < USER_DIRS
      requires j < |page[t]| == ENTRIES && Present(page[t][j])
      modifies this
      ensures Valid() && old(Ppn(page[t][j])) in old(role)
      ensures old(role[Ppn(page[t][j])]) == Frame(old(role[t]).dir, old(role[t]).i, j)
      ensures var f := old(Ppn(page[t][j]));
        && role == old(role)[f := Free] && fl == [f] + old(fl)
        && page == old(page)[f := FreePage(old(freelist))][t := Put(old(page)[t], j, 0)]
    {
      hide MemOk, ListOk, FreePage, Put, Ppn, Present;
      UnmapFrame(page, role, freelist, fl, t, j);
      ListFacts(page, role, freelist, fl);
      var f := Ppn(page[t][j]);
      Insert(f);
      page := page[t := Put(page[t], j, 0)];
    }

    /** The scan of deallocuvm from virtual page a to the last page that begins below oldsz. */
    method Scan(d: nat, a: nat, oldsz: nat)
      requires Valid() && d in role && role[d].Directory? && oldsz <= KERNBASE && a <= USER_PAGES
      modifies this
      ensures Valid() && d in role && role[d].Directory?
      ensures Removed(old(page), old(role), page, role, d, old(ScanStart(page, d, a)), PageCount(oldsz))
    {
      hide MemOk, Removed, ScanStart, FirstSlot, Present, TableAt;
      ghost var page0, role0, freelist0, fl0 := page, role, freelist, fl;
      ghost var s, e := ScanStart(page, d, a), PageCount(oldsz);
      var v := a;
      ScanBegins(page, d, a);
      RemovedNone(page, role, freelist, fl, d, s, Least(v, e));
      while v * PGSIZE < oldsz
        invariant Valid() && d in role && role[d].Directory?
        invariant ScanAt(page0, d, s, v)
        invariant Removed(page0, role0, page, role, d, s, Least(v, e))
      {
        ghost var page1, role1, freelist1, fl1 := page, role, freelist, fl;
        assert v < e <= USER_PAGES;
        SameTables(page0, role0, page, role, d, s, v, v / ENTRIES);
        WalkFacts(page, role, freelist, fl, d, v / ENTRIES);
        var t := Walk(d, v / ENTRIES, false);
        if t == 0 {
          KeysAgree(page0, role0, freelist0, fl0);
          ScanSkips(page0, d, s, v, e);
          if v >= s { RemovedWider(page0, role0, freelist0, fl0, page, role, d, s, v, Least(v + ENTRIES, e)); }
          else { RemovedNothing(page0, role0, page, role, d, s, v, Least(v + ENTRIES, e)); }
          v := v + (ENTRIES - 1);
        } else {
          ScanEnters(page0, d, s, v);
          ImageAt(page, d, v / ENTRIES, v % ENTRIES);
          if Present(page[t][v % ENTRIES]) {
            FreeEntry(t, v % ENTRIES);
            RemovedOne(page0, role0, page1, role1, freelist1, fl1, d, s, v, t, Ppn(page1[t][v % ENTRIES]), page);
          } else {
            RemovedWider(page0, role0, freelist0, fl0, page, role, d, s, v, v + 1);
          }
        }
        v := v + 1;
      }
    }

    method Deallocuvm(d: nat, oldsz: nat, newsz: nat) returns (r: nat)
      requires Valid() && d in role && role[d].Directory? && oldsz <= KERNBASE
      modifies this
      ensures Valid() && d in role && role[d].Directory?
      ensures newsz >= oldsz ==> r == oldsz && unchanged(this)
      ensures newsz < oldsz ==> r == newsz && Removed(old(page), old(role), page, role, d, old(ScanStart(page, d, PageCount(newsz))), PageCount(oldsz))
    {
      if newsz >= oldsz { return oldsz; }
      Scan(d, PageCount(newsz), oldsz);
      return newsz;
    }

    method Freevm(d: nat)
      requires Valid() && d in role && role[d].Directory?
      modifies this
      ensures Valid()
      ensures Dismantled(old(page), old(role), page, role, d)
    {
      hide MemOk, ListOk, Removed, Dismantled, TablesFreed, ScanStart, PageCount, Ppn, Present, FreePage;
      ghost var page0, role0, freelist0, fl0 := page, role, freelist, fl;
      var r := Deallocuvm(d, KERNBASE, 0);
      AllRemoved(page0, role0, freelist0, fl0, page, role, freelist, fl, d);
      Dissolve(page, role, freelist, fl, d);
      ghost var page1, role1 := page, role;
      KeysAgree(page, role, freelist, fl);
      TablesBegin(page, role, freelist, fl, d);
      role := Dissolved(role, d);
      var i := 0;
      while i < ENTRIES
        invariant 0 <= i <= ENTRIES && Valid() && d in role && d in page && role[d].Held?
        invariant TablesFreed(page1, role1, page, role, d, i)
      {
        NextTable(page1, role1, page, role, d, i);
        if Present(page[d][i]) {
          TableFreed(page1, role1, page, role, d, i, FreePage(freelist));
          Kfree(Ppn(page[d][i]));
        }
        i := i + 1;
      }
      DirectoryFreed(page0, role0, page1, role1, page, role, d, FreePage(freelist));
      Kfree(d);
    }

    /** Takes a page from the list, fills it and maps it: what allocuvm and copyuvm do for each page. */
    method LoadPage(d: nat, u: nat, content: Page, perm: nat) returns (r: LoadResult)
      requires Valid() && d in role && role[d].Directory? && u < USER_PAGES && |content| == ENTRIES && perm < PGSIZE
      requires Image(page, d, u) == 0
      modifies this
      ensures Valid() && d in role && role[d].Directory?
      ensures r.NoPage? ==> unchanged(this)
      ensures LoadOutcome(old(page), old(role), old(fl), page, role, fl, d, u, Load(content, WithPresent(perm)), r)
    {
      hide MemOk, Slots, Image, MappedRange, Loaded, LostOnly, AddSlots, TablesNeeded, Pte;
      ghost var page0, role0, freelist0, fl0 := page, role, freelist, fl;
      KeysAgree(page, role, freelist, fl);
      var mem := Kalloc();
      if mem == 0 { return NoPage; }
      FilledApart(page0, role0, freelist0, fl0, d, mem, content);
      WriteHeld(page, role, freelist, fl, mem, content);
      page := page[mem := content];
      ghost var page1, role1 := page, role;
      NeedNext(Slots(page, d), u, u + 1);
      assert HeldRange(role, mem, mem + 1);
      var m, k := Mappages(d, u, 1, mem, perm);
      if !m.Done? { return Lost(mem); }
      LoadedOne(page0, role0, page1, role1, page, role, d, u, mem, content, WithPresent(perm));
      LoadKeepsRoles(page0, role0, page, role, d, u, [Load(content, WithPresent(perm))]);
      r := Loading;
    }

    method Allocuvm(d: nat, oldsz: nat, newsz: nat) returns (r: nat, ghost lost: set<nat>)
      requires Valid() && d in role && role[d].Directory?
      requires oldsz <= newsz < KERNBASE ==> NonePresent(page, d, PageCount(oldsz), PageCount(newsz))
      modifies this
      ensures Valid()
      ensures newsz >= KERNBASE ==> r == 0 && unchanged(this)
      ensures newsz < KERNBASE && newsz < oldsz ==> r == oldsz && unchanged(this)
      ensures oldsz <= newsz < KERNBASE ==> exists ok ::
        && AllocOutcome(old(page), old(role), old(fl), page, role, fl, d, PageCount(oldsz), PageCount(newsz), ok, lost)
        && r == if ok then newsz else 0
    {
      hide MemOk, Loaded, LostOnly, AllocSoFar, AllocOutcome, Removed, Slots, PageCount, NonePresent, ZeroPage;
      lost := {};
      if newsz >= KERNBASE { return 0, lost; }
      if newsz < oldsz { return oldsz, lost; }
      ghost var page0, role0, freelist0, fl0, a, e := page, role, freelist, fl, PageCount(oldsz), PageCount(newsz);
      PageCounts(oldsz, newsz);
      var v := PageCount(oldsz);
      AllocBegins(page, role, freelist, fl, d, a);
      while v * PGSIZE < newsz
        invariant Valid() && d in role && role[d].Directory? && a <= v <= e
        invariant AllocSoFar(page0, role0, fl0, page, role, fl, d, a, v, lost)
      {
        ghost var page1, role1, freelist1, fl1 := page, role, freelist, fl;
        assert v < e;
        AllocGoesOn(page0, role0, fl0, page, role, fl, d, a, v, e, lost);
        var m := LoadPage(d, v, ZeroPage(), PTE_W + PTE_U);
        if m.NoPage? {
          var s := Deallocuvm(d, newsz, oldsz);
          AllocUndone(page0, role0, freelist0, fl0, page1, role1, freelist1, page, role, freelist, fl, d, a, v, e, lost);
          return 0, lost;
        }
        AllocStep(page0, role0, fl0, page1, role1, freelist1, fl1, page, role, fl, d, a, v, lost, m);
        if m.Lost? { lost := {m.mem}; }
        v := v + 1;
      }
      AllocEnds(page0, role0, fl0, page, role, fl, d, a, e, lost);
      return newsz, lost;
    }

    /** A new directory with the kernel half mapped; or 0 when fewer than KERNEL_NEED pages are free, all of
        which are then lost. */
    method Setupkvm(data: nat) returns (d: nat)
      requires Valid() && EXTMEM_PAGE < data < PHYSTOP_PAGE
      modifies this
      ensures Valid() && AllKept(old(page), old(role), page, role)
      ensures d == 0 <==> |old(fl)| < KERNEL_NEED
      ensures d != 0 ==> SetUp(old(page), old(role), page, role, d, Rows(data))
      ensures d != 0 ==> |old(fl)| == |fl| + KERNEL_NEED && Slots(page, d) == KernelSlots()
      ensures d == 0 ==> RolesBut(old(role), role, Elements(old(fl))) && |Elements(old(fl))| == |old(fl)| && fl == []
    {
      hide MemOk, SetUp, AllKept, RolesBut, MappedRange, Image, RowsImage, Dissolved, ZeroPage, Slots, RowsSlots, KernelSlots, AddSlots, TablesNeeded, Elements;
      ghost var page0, role0, freelist0, fl0 := page, role, freelist, fl;
      NothingChanged(page, role, freelist, fl);
      ListHasFree(page, role, freelist, fl);
      ElementsSize(fl);
      d := Kalloc();
      if d == 0 {
        NothingLost(role, fl);
        return;
      }
      EmptyDirectory(page0, role0, freelist0, fl0, d);
      WriteHeld(page, role, freelist, fl, d, ZeroPage());
      page := page[d := ZeroPage()];
      NewDirectory(page, role, freelist, fl, d);
      role := role[d := Directory];
      assert role == role0[d := Directory];
      var rows := Rows(data);
      assert rows[..0] == [];
      var k := 0;
      while k < |rows|
        invariant 0 <= k <= |rows| && Valid() && SetUp(page0, role0, page, role, d, rows[..k]) && d in role
        invariant role[d].Directory?
        invariant Slots(page, d) == RowsSlots(rows[..k]) && |fl0| == |fl| + 1 + |RowsSlots(rows[..k])|
      {
        ghost var page1, role1 := page, role;
        RowReady(page0, role0, page, role, d, data, k);
        RowTakes(data, k);
        var m, n := Mappages(d, rows[k].virt, rows[k].count, rows[k].phys, rows[k].perm);
        RangeKeepsDirectory(page1, role1, page, role, d, rows[k].virt, n, rows[k].phys);
        NoUserPages(page0, role0, page1, role1, page, role, freelist, fl, d, data, k, rows[k].virt);
        assert !m.Remap?;
        if !m.Done? {
          SetUpFails(page0, role0, freelist0, fl0, page1, role1, page, role, freelist, d, rows[..k], rows[k].virt, n, rows[k].phys);
          Dissolve(page, role, freelist, fl, d);
          role := Dissolved(role, d);
          return 0;
        }
        RowMapped(page0, role0, freelist0, fl0, page1, role1, page, role, d, rows, k);
        k := k + 1;
      }
      assert rows[..4] == rows;
      RowTakes(data, 3);
      SetUpKeeps(page0, role0, page, role, d, rows);
    }

    /** The body of copyuvm's loop up to its failures: user page v of src is copied into d. */
    method CopyPage(src: nat, d: nat, v: nat) returns (r: PageResult)
      requires Valid() && src in role && role[src].Directory? && d in role && role[d].Directory? && v < USER_PAGES
      requires Image(page, d, v) == 0
      modifies this
      ensures Valid() && d in role && role[d].Directory?
      ensures r.Absent? <==> old(Image(page, src, v)) == 0
      ensures r.Absent? || r.load.NoPage? ==> unchanged(this)
      ensures r.Tried? ==>
        LoadOutcome(old(page), old(role), old(fl), page, role, fl, d, v, CopyOf(old(page), src, v), r.load)
    {
      hide MemOk, Image, LoadOutcome, CopyOf, Present, Ppn, TableAt;
      WalkFacts(page, role, freelist, fl, src, v / ENTRIES);
      PageImage(page, src, v);
      var t := Walk(src, v / ENTRIES, false);
      if t == 0 { return Absent; }
      if !Present(page[t][v % ENTRIES]) { return Absent; }
      SourceFrame(page, role, freelist, fl, src, v, t);
      SourceStays(page, role, freelist, fl, page, role, src, v);
      var content, flags := page[Ppn(page[t][v % ENTRIES])], Flags(page[t][v % ENTRIES]);
      var m := LoadPage(d, v, content, flags);
      r := Tried(m);
    }

    /** A copy of the pages of src that sz bytes reach into. How many pages are free decides whether there is
        one, how far a failed one gets, and how many pages it loses; all others it took are free again. */
    method Copyuvm(src: nat, sz: nat, data: nat) returns (r: CopyResult, ghost lost: set<nat>)
      requires Valid() && src in role && role[src].Directory? && sz <= KERNBASE && EXTMEM_PAGE < data < PHYSTOP_PAGE
      modifies this
      ensures Valid() && AllKept(old(page), old(role), page, role)
      ensures var n, k := PageCount(sz), old(Lead(page, src, PageCount(sz)));
        && (r.NoCopy? <==> |old(fl)| < CopyNeed(k))
        && (r.Missing? <==> k < n && CopyNeed(k) <= |old(fl)|) && (r.Missing? ==> r.at == k)
      ensures r.Copied? ==> CopyMade(old(page), old(role), page, role, src, r.dir, PageCount(sz), data)
      ensures r.Copied? ==> |old(fl)| == |fl| + CopyNeed(PageCount(sz))
      ensures r.NoCopy? ==> RolesBut(old(role), role, lost) && |lost| == CopyLeak(|old(fl)|)
    {
      hide MemOk, SetUp, AllKept, RolesBut, CopyMade, Lead, CopyNeed, CopyLeak, Slots, AddSlots, KernelSlots, Elements, Need, Image, CopyOf, Flags, CopySoFar, Loaded, LostOnly, Dismantled, Mapping, TableAt, Rows, Copies, PageCount, Present, Ppn;
      ghost var page0, role0, freelist0, fl0, n := page, role, freelist, fl, PageCount(sz);
      PageCounts(sz, sz);
      ghost var k := Lead(page, src, n);
      CopyNeeds(k);
      lost := {};
      var d := Setupkvm(data);
      if d == 0 { return NoCopy, Elements(fl0); }
      ghost var page1, role1 := page, role;
      NoNeed(KernelSlots());
      CopyBegins(page0, role0, page, role, freelist, fl, src, d, data);
      var v := 0;
      while v * PGSIZE < sz
        invariant 0 <= v <= n && Valid() && CopySoFar(page0, role0, page1, role1, page, role, src, d, v, data)
        invariant Slots(page, d) == AddSlots(KernelSlots(), 0, v) && |fl0| == |fl| + CopyNeed(v) && lost == {}
      {
        ghost var page2, role2, freelist2, fl2 := page, role, freelist, fl;
        CopyGoesOn(page0, role0, freelist0, fl0, page1, role1, page, role, src, d, v, data);
        CopyMeans(page0, role0, page1, role1, page, role, src, d, v, data);
        LeadIs(page0, src, n, v);
        CopyTakes(v);
        var p := CopyPage(src, d, v);
        if p.Absent? { return Missing(v), lost; }
        var m := p.load;
        if m.NoPage? {
          Freevm(d);
          CopyUndone(page0, role0, freelist0, fl0, page1, role1, page2, role2, page, role, d, Rows(data), Copies(page0, src, v), {});
          StopsAt(|fl0|, v, k, false);
          return NoCopy, lost;
        }
        if m.Lost? {
          CopyLoses(page0, role0, page1, role1, page2, role2, freelist2, fl2, src, d, v, data, m.mem, CopyOf(page0, src, v).content);
          ghost var page3, role3 := page, role;
          Freevm(d);
          CopyUndone(page0, role0, freelist0, fl0, page1, role1, page3, role3, page, role, d, Rows(data), Copies(page0, src, v), {m.mem});
          StopsAt(|fl0|, v, k, true);
          return NoCopy, {m.mem};
        }
        CopyStep(page0, role0, freelist0, fl0, page1, role1, page2, role2, freelist2, fl2, page, role, src, d, v, data);
        v := v + 1;
      }
      CopyMeans(page0, role0, page1, role1, page, role, src, d, v, data);
      LeadIs(page0, src, n, n);
      CopyEnds(page0, role0, freelist0, fl0, page1, role1, page, role, src, d, n, data);
      return Copied(d), lost;
    }
  }
}

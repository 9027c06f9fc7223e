/** What the page-level model says about address spaces as a whole. */
module VmTheorems {
  import opened Common
  import opened Pages
  import opened AddressSpace
  import opened VmSteps
  import opened VmLoad
  import opened VmCopy
  import opened Vm

  // ---- One page, one role --------------------------------------------------------------------

  /** Two user pages, of the same or of different directories, never share a frame. */
  lemma NoSharedFrames(page: Memory, role: Roles, freelist: nat, fl: seq<nat>, d: nat, u: nat, d': nat, u': nat)
    requires MemOk(page, role, freelist, fl) && u < USER_PAGES && u' < USER_PAGES
    requires d in role && role[d].Directory? && d' in role && role[d'].Directory?
    requires Image(page, d, u) != 0 && Image(page, d', u') != 0 && (d, u) != (d', u')
    ensures Ppn(Image(page, d, u)) != Ppn(Image(page, d', u'))
    ensures Ppn(Image(page, d, u)) !in fl
  {
    hide Ppn, Mapping;
    ImageIsFrame(page, role, freelist, fl, d, u);
    ImageIsFrame(page, role, freelist, fl, d', u');
  }

  // ---- deallocuvm's skip ---------------------------------------------------------------------

  /** Every present page from a to e lies in the part that the scan visits page by page. */
  ghost predicate ScanIsExact(page: Memory, d: nat, a: nat, e: nat) {
    forall u :: a <= u < e && Image(page, d, u) != 0 ==> ScanStart(page, d, a) <= u
  }

  /** The scan from a is exact when a begins a table, or its table exists, or no page is present in
      the first table that does exist below a's offset. */
  ghost predicate SkipIsHarmless(page: Memory, d: nat, a: nat, e: nat) {
    || a % ENTRIES == 0 || TableAt(page, d, a / ENTRIES) != 0
    || var f := FirstSlot(page, d, a / ENTRIES) * ENTRIES; NonePresent(page, d, f, Least(f + a % ENTRIES, e))
  }

  lemma ScanExactness(page: Memory, role: Roles, freelist: nat, fl: seq<nat>, d: nat, a: nat, e: nat)
    requires MemOk(page, role, freelist, fl) && d in role && role[d].Directory? && a <= e <= USER_PAGES
    ensures ScanIsExact(page, d, a, e) <==> SkipIsHarmless(page, d, a, e)
  {
    hide MemOk;
    KeysAgree(page, role, freelist, fl);
    var i := a / ENTRIES;
    var f := FirstSlot(page, d, i);
    forall u | a <= u < e && Image(page, d, u) != 0 ensures u / ENTRIES >= f {
      assert TableAt(page, d, u / ENTRIES) != 0;
    }
    if TableAt(page, d, i) == 0 && ScanIsExact(page, d, a, e) && a < USER_PAGES {
      forall u | f * ENTRIES <= u < Least(f * ENTRIES + a % ENTRIES, e) ensures Image(page, d, u) == 0 {
        assert f > i;
      }
    }
  }

  /** A space without holes: the pages present are exactly those below n. */
  ghost predicate Contiguous(page: Memory, d: nat, n: nat) {
    forall u :: 0 <= u < USER_PAGES ==> (Image(page, d, u) != 0 <==> u < n)
  }

  /** In a space contiguous from 0, deallocuvm removes exactly the pages from a on. */
  lemma ContiguousIsExact(page: Memory, role: Roles, freelist: nat, fl: seq<nat>, page': Memory, role': Roles, d: nat,
                          a: nat, e: nat, n: nat)
    requires MemOk(page, role, freelist, fl) && d in role && role[d].Directory? && a <= e <= USER_PAGES
    requires Contiguous(page, d, n) && n <= e && Removed(page, role, page', role', d, ScanStart(page, d, a), e)
    ensures Contiguous(page', d, if a < n then a else n)
    ensures forall p :: p in role ==> role'[p] == if role[p].Frame? && role[p].dir == d && a <= Vpn(role[p]) then Free else role[p]
  {
    hide MemOk, Ppn;
    KeysAgree(page, role, freelist, fl);
    var s := ScanStart(page, d, a);
    if a < n { assert Image(page, d, a) != 0 && s == a; }
    assert a <= s;
    forall p | p in role && role[p].Frame? && role[p].dir == d ensures Vpn(role[p]) < n {
      DoomedPresent(page, role, freelist, fl, d, p);
    }
  }

  // ---- A page left behind --------------------------------------------------------------------

  /** Page 1024 alone is present, in a space just made. */
  lemma OnePage(page0: Memory, role0: Roles, page: Memory, role: Roles, fl: seq<nat>, page1: Memory, role1: Roles, fl1: seq<nat>,
                d: nat, data: nat, ok: bool, lost: set<nat>)
    requires EXTMEM_PAGE < data < PHYSTOP_PAGE && SetUp(page0, role0, page, role, d, Rows(data))
    requires Slots(page, d) == KernelSlots() && |fl| >= 2
    requires AllocOutcome(page, role, fl, page1, role1, fl1, d, 1024, 1025, ok, lost)
    ensures ok && Image(page1, d, 1024) != 0 && TableAt(page1, d, 0) == 0 && TableAt(page1, d, 1) != 0
  {
    hide SetUp, LostOnly, KernelSlots, Image, TableAt;
    NeedNext(KernelSlots(), 1024, 1025);
    assert 1024 / ENTRIES == 1;
    assert LoadedAt(page, role, page1, d, 1024 + 0, Zeros(1)[0]);
    assert 0 !in Slots(page1, d) && 1 in Slots(page1, d);
  }

  lemma NothingAt(page0: Memory, role0: Roles, page: Memory, role: Roles, d: nat, data: nat)
    requires EXTMEM_PAGE < data < PHYSTOP_PAGE && SetUp(page0, role0, page, role, d, Rows(data))
    ensures NonePresent(page, d, 1024, 1025)
  {
    assert Rows(data)[..4] == Rows(data);
    RowsAbove(data, 4, 1024);
  }

  lemma SkipTo(page: Memory, d: nat)
    requires TableAt(page, d, 0) == 0 && TableAt(page, d, 1) != 0
    ensures ScanStart(page, d, 1) == 1025
  {
    assert FirstSlot(page, d, 1) == 1 && FirstSlot(page, d, 0) == 1;
  }

  lemma LeftAlone(page: Memory, role: Roles, page': Memory, role': Roles, d: nat, u: nat)
    requires Removed(page, role, page', role', d, 1025, 1025) && u < ALL_PAGES
    ensures Image(page', d, u) == Image(page, d, u)
  {
  }

  /** A page that deallocuvm leaves behind, reached from any state with enough free pages: a new space is grown
      by page 1024 alone and then cut to one page. The scan steps from page 1, whose slot has no table, over
      page 1024 to page 1025; deallocuvm reports the new size, and the page is still there. */
  method SkipLeavesPages(k: Kernel, data: nat) returns (d: nat, size: nat)
    requires k.Valid() && EXTMEM_PAGE < data < PHYSTOP_PAGE && |k.fl| >= KERNEL_NEED + 2
    modifies k
    ensures k.Valid() && d in k.role && k.role[d].Directory?
    ensures size == PGSIZE && Image(k.page, d, 1024) != 0
  {
    hide SetUp, AllocOutcome, NonePresent, KernelSlots, Slots, Image, TableAt, Removed, ScanStart, MemOk, RolesBut, AllKept, Elements;
    ghost var page0, role0 := k.page, k.role;
    d := k.Setupkvm(data);
    ghost var page1, role1, fl1 := k.page, k.role, k.fl;
    SetUpKeeps(page0, role0, page1, role1, d, Rows(data));
    NothingAt(page0, role0, page1, role1, d, data);
    assert PageCount(1024 * PGSIZE) == 1024 && PageCount(1025 * PGSIZE) == 1025 && PageCount(PGSIZE) == 1;
    var r, lost := k.Allocuvm(d, 1024 * PGSIZE, 1025 * PGSIZE);
    ghost var ok :| AllocOutcome(page1, role1, fl1, k.page, k.role, k.fl, d, 1024, 1025, ok, lost);
    OnePage(page0, role0, page1, role1, fl1, k.page, k.role, k.fl, d, data, ok, lost);
    AllocKeeps(page1, role1, fl1, k.page, k.role, k.fl, d, 1024, 1025, ok, lost);
    ghost var page2, role2 := k.page, k.role;
    SkipTo(page2, d);
    size := k.Deallocuvm(d, 1025 * PGSIZE, PGSIZE);
    LeftAlone(page2, role2, k.page, k.role, d, 1024);
  }

  lemma AllocKeeps(page: Memory, role: Roles, fl: seq<nat>, page': Memory, role': Roles, fl': seq<nat>, d: nat, a: nat, e: nat,
                   ok: bool, lost: set<nat>)
    requires AllocOutcome(page, role, fl, page', role', fl', d, a, e, ok, lost) && d in role && role[d].Directory?
    ensures d in role' && role'[d].Directory?
  {
    hide LostOnly, Slots, Need, LosesPage, DryAt;
  }
}

/** Making a new address space: the kernel half that every directory has, and the copy of another
    directory's user half. */
module VmCopy {
  import opened Common
  import opened Pages
  import opened AddressSpace
  import opened VmSteps
  import opened VmLoad

  const KERNEL_PAGE := 524288
  const EXTMEM_PAGE := 256
  const PHYSTOP_PAGE := 57344
  const DEVSPACE_PAGE := 1040384

  /** A row of kmap, in pages. */
  datatype Row = Row(virt: nat, phys: nat, count: nat, perm: nat)

  /** The rows of kmap for a kernel whose data begins at physical page `data`. */
  function Rows(data: nat): (r: seq<Row>)
    requires EXTMEM_PAGE < data < PHYSTOP_PAGE
    ensures |r| == 4
  {
    [ Row(KERNEL_PAGE, 0, EXTMEM_PAGE, PTE_W),
      Row(KERNEL_PAGE + EXTMEM_PAGE, EXTMEM_PAGE, data - EXTMEM_PAGE, 0),
      Row(KERNEL_PAGE + data, data, PHYSTOP_PAGE - data, PTE_W),
      Row(DEVSPACE_PAGE, DEVSPACE_PAGE, ALL_PAGES - DEVSPACE_PAGE, PTE_W) ]
  }

  /** The image that the rows give to virtual page x. */
  function RowsImage(rows: seq<Row>, x: nat): (w: nat)
    decreases |rows|
  {
    if rows == [] then 0
    else
      var k := rows[|rows| - 1];
      RowOver(k, x, RowsImage(rows[..|rows| - 1], x))
  }

  /** What row k makes of virtual page x, whose image was w. */
  function RowOver(k: Row, x: nat, w: nat): (r: nat) {
    if k.virt <= x < k.virt + k.count then Pte(k.phys + x - k.virt, WithPresent(k.perm)) else w
  }

  /** What virtual page x of the kernel half refers to: physical memory in order, read-only where the
      kernel's code is, and the devices at their own addresses. */
  function KernelImage(data: nat, x: nat): (w: nat) {
    if KERNEL_PAGE <= x < KERNEL_PAGE + PHYSTOP_PAGE then
      Pte(x - KERNEL_PAGE, if EXTMEM_PAGE <= x - KERNEL_PAGE < data then 1 else 3)
    else if DEVSPACE_PAGE <= x < ALL_PAGES then Pte(x, 3)
    else 0
  }

  lemma RowsAreKernel(data: nat, x: nat)
    requires EXTMEM_PAGE < data < PHYSTOP_PAGE && x < ALL_PAGES
    ensures RowsImage(Rows(data), x) == KernelImage(data, x)
  {
    hide Pte;
    var r := Rows(data);
    assert r[..4] == r && r[..0] == [];
    RowsNext(r, 0, x);
    RowsNext(r, 1, x);
    RowsNext(r, 2, x);
    RowsNext(r, 3, x);
  }

  /** The rows do not overlap. */
  lemma RowsApart(data: nat, k: nat, x: nat)
    requires EXTMEM_PAGE < data < PHYSTOP_PAGE && k < 4
    requires Rows(data)[k].virt <= x < Rows(data)[k].virt + Rows(data)[k].count
    ensures RowsImage(Rows(data)[..k], x) == 0
  {
    hide Pte;
    var r := Rows(data);
    if k > 0 { RowsNext(r, 0, x); }
    if k > 1 { RowsNext(r, 1, x); }
    if k > 2 { RowsNext(r, 2, x); }
  }

  lemma RowsNext(rows: seq<Row>, k: nat, x: nat)
    requires k < |rows|
    ensures RowsImage(rows[..k + 1], x) == RowOver(rows[k], x, RowsImage(rows[..k], x))
  {
    hide Pte;
    assert rows[..k + 1][..k] == rows[..k];
  }

  /** Every page in use is as it was. */
  ghost predicate AllKept(page: Memory, role: Roles, page': Memory, role': Roles) {
    && page.Keys == page'.Keys == role.Keys == role'.Keys
    && forall q :: q in role && !role[q].Free? ==> role'[q] == role[q] && page'[q] == page[q]
  }

  /** Pages that were free and now belong to nobody who could give them back. */
  function NewlyHeld(role: Roles, role': Roles): (r: set<nat>)
    ensures forall p :: p in r <==> p in role && p in role' && role[p].Free? && role'[p].Held?
  {
    set p | p in role && p in role' && role[p].Free? && role'[p].Held?
  }

  /** The pages in `lost` are held and nothing else has changed its role. */
  ghost predicate RolesBut(role: Roles, role': Roles, lost: set<nat>) {
    role.Keys == role'.Keys && forall q :: q in role ==> role'[q] == if q in lost then Held else role[q]
  }

  datatype CopyResult = Copied(dir: nat) | NoCopy | Missing(at: nat)

  datatype PageResult = Absent | Tried(load: LoadResult)

  /** The content and flags of user page u of directory src. */
  function CopyOf(page: Memory, src: nat, u: nat): (x: Load) {
    var w := Image(page, src, u);
    Load(if Ppn(w) in page then page[Ppn(w)] else [], Flags(w))
  }

  function Copies(page: Memory, src: nat, n: nat): (r: seq<Load>)
    ensures |r| == n && forall u :: 0 <= u < n ==> r[u] == CopyOf(page, src, u)
  {
    seq(n, u requires 0 <= u < n => CopyOf(page, src, u))
  }

  /** The first n user pages of d are copies, on frames that were free, of those of src; d has no other
      user page and the kernel half of every directory; and all that was in use is as it was. */
  ghost predicate CopyMade(page: Memory, role: Roles, page': Memory, role': Roles, src: nat, d: nat, n: nat,
                           data: nat)
  {
    && AllKept(page, role, page', role') && d in role && role[d].Free? && role'[d].Directory? && NewlyHeld(role, role') == {}
    && (forall u :: 0 <= u < n ==> Image(page, src, u) != 0 && LoadedAt(page, role, page', d, u, CopyOf(page, src, u)))
    && (forall u :: n <= u < USER_PAGES ==> Image(page', d, u) == 0)
    && (forall x :: USER_PAGES <= x < ALL_PAGES ==> Image(page', d, x) == KernelImage(data, x))
  }

  // ---- Setting up ----------------------------------------------------------------------------

  /** A directory that was a free page before, with the first k rows mapped. */
  ghost predicate SetUp(page: Memory, role: Roles, page': Memory, role': Roles, d: nat, rows: seq<Row>) {
    && AllKept(page, role, page', role') && d in role && role[d].Free? && role'[d].Directory?
    && NewlyHeld(role, role') == {} && (forall f :: f in role' && role'[f].Frame? ==> role'[f].dir != d)
    && (forall q :: q in role && role[q].Free? ==> role'[q].Free? || q == d || (role'[q].Table? && role'[q].dir == d))
    && (forall x :: 0 <= x < ALL_PAGES ==> Image(page', d, x) == RowsImage(rows, x))
  }

  lemma EmptyDirectory(page: Memory, role: Roles, freelist: nat, fl: seq<nat>, d: nat)
    requires MemOk(page, role, freelist, fl) && d in role && role[d].Free?
    ensures SetUp(page, role, page[d := ZeroPage()], role[d := Directory], d, [])
    ensures Slots(page[d := ZeroPage()], d) == RowsSlots([])
  {
    hide ListOk, Ppn;
    ZeroIsAbsent();
    assert NewlyHeld(role, role[d := Directory]) == {};
  }

  lemma RowMapped(page: Memory, role: Roles, freelist: nat, fl: seq<nat>, page1: Memory, role1: Roles, page2: Memory,
                  role2: Roles, d: nat, rows: seq<Row>, k: nat)
    requires MemOk(page, role, freelist, fl) && k < |rows| && rows[k].virt >= USER_PAGES
    requires SetUp(page, role, page1, role1, d, rows[..k])
    requires MappedRange(page1, role1, page2, role2, d, rows[k].virt, rows[k].count, rows[k].phys)
    requires forall x :: 0 <= x < ALL_PAGES ==> Image(page2, d, x) == RowOver(rows[k], x, Image(page1, d, x))
    requires forall f :: f in role2 && role2[f].Frame? ==> role2[f].dir != d
    ensures SetUp(page, role, page2, role2, d, rows[..k + 1])
  {
    hide Image, Pte, RowsImage, MemOk, RowOver;
    NotYetADirectory(page, role, freelist, fl, d);
    forall x | 0 <= x < ALL_PAGES ensures Image(page2, d, x) == RowsImage(rows[..k + 1], x) { RowsNext(rows, k, x); }
    assert NewlyHeld(role, role2) == {};
  }

  lemma NotYetADirectory(page: Memory, role: Roles, freelist: nat, fl: seq<nat>, d: nat)
    requires MemOk(page, role, freelist, fl) && d in role && !role[d].Directory?
    ensures forall q :: q in role && role[q].Table? ==> role[q].dir != d
    ensures forall q :: q in role && role[q].Frame? ==> role[q].dir != d
  {
    hide ListOk;
  }

  /** A directory without user pages has no frames. */
  lemma NoFrames(page: Memory, role: Roles, freelist: nat, fl: seq<nat>, d: nat)
    requires MemOk(page, role, freelist, fl) && d in role && role[d].Directory? && NonePresent(page, d, 0, USER_PAGES)
    ensures forall f :: f in role && role[f].Frame? ==> role[f].dir != d
  {
    hide MemOk, Image;
    forall f | f in role && role[f].Frame? && role[f].dir == d ensures false {
      DoomedPresent(page, role, freelist, fl, d, f);
    }
  }

  lemma NothingChanged(page: Memory, role: Roles, freelist: nat, fl: seq<nat>)
    requires MemOk(page, role, freelist, fl)
    ensures AllKept(page, role, page, role)
  {
  }

  lemma SetUpKeeps(page: Memory, role: Roles, page': Memory, role': Roles, d: nat, rows: seq<Row>)
    requires SetUp(page, role, page', role', d, rows)
    ensures AllKept(page, role, page', role') && d in role' && role'[d].Directory?
    ensures forall x :: 0 <= x < ALL_PAGES ==> Image(page', d, x) == RowsImage(rows, x)
  {
  }

  /** The next row lies in the kernel half and is not yet mapped. */
  lemma RowReady(page: Memory, role: Roles, page': Memory, role': Roles, d: nat, data: nat, k: nat)
    requires EXTMEM_PAGE < data < PHYSTOP_PAGE && k < 4 && SetUp(page, role, page', role', d, Rows(data)[..k])
    ensures var w := Rows(data)[k]; w.virt >= USER_PAGES && w.count >= 1 && w.virt + w.count <= ALL_PAGES && w.perm < PGSIZE
    ensures var w := Rows(data)[k]; forall x :: w.virt <= x < w.virt + w.count ==> Image(page', d, x) == 0
  {
    hide RowsImage, Image;
    var w := Rows(data)[k];
    forall x | w.virt <= x < w.virt + w.count ensures Image(page', d, x) == 0 { RowsApart(data, k, x); }
  }

  lemma {:induction false} RowsAbove(data: nat, k: nat, u: nat)
    requires EXTMEM_PAGE < data < PHYSTOP_PAGE && k <= 4 && u < USER_PAGES
    ensures RowsImage(Rows(data)[..k], u) == 0
  {
    if k > 0 {
      RowsAbove(data, k - 1, u);
      RowsNext(Rows(data), k - 1, u);
    }
  }

  lemma NoUserPages(page: Memory, role: Roles, page1: Memory, role1: Roles, page2: Memory, role2: Roles,
                    freelist2: nat, fl2: seq<nat>, d: nat, data: nat, k: nat, v: nat)
    requires EXTMEM_PAGE < data < PHYSTOP_PAGE && k <= 4
    requires SetUp(page, role, page1, role1, d, Rows(data)[..k]) && v >= USER_PAGES
    requires MemOk(page2, role2, freelist2, fl2) && d in role2 && role2[d].Directory?
    requires forall x :: 0 <= x < v && x < ALL_PAGES ==> Image(page2, d, x) == Image(page1, d, x)
    ensures NonePresent(page2, d, 0, USER_PAGES)
    ensures forall f :: f in role2 && role2[f].Frame? ==> role2[f].dir != d
  {
    hide MemOk, Image, RowsImage;
    forall u | 0 <= u < USER_PAGES ensures Image(page2, d, u) == 0 { RowsAbove(data, k, u); }
    NoFrames(page2, role2, freelist2, fl2, d);
  }

  lemma RangeKeepsDirectory(page: Memory, role: Roles, page': Memory, role': Roles, d: nat, v: nat, k: nat, p: nat)
    requires MappedRange(page, role, page', role', d, v, k, p) && d in role && role[d].Directory? && v >= USER_PAGES
    ensures d in role' && role'[d].Directory?
  {
  }

  /** When no page is left to complete the kernel half with, every page that was free has gone into it, and
      they are left to nobody. */
  lemma SetUpFails(page: Memory, role: Roles, freelist: nat, fl: seq<nat>, page1: Memory, role1: Roles, page2: Memory,
                   role2: Roles, freelist2: nat, d: nat, rows: seq<Row>, v: nat, k: nat, p: nat)
    requires MemOk(page, role, freelist, fl) && SetUp(page, role, page1, role1, d, rows) && v >= USER_PAGES
    requires MappedRange(page1, role1, page2, role2, d, v, k, p) && MemOk(page2, role2, freelist2, [])
    ensures AllKept(page, role, page2, Dissolved(role2, d))
    ensures RolesBut(role, Dissolved(role2, d), Elements(fl))
  {
    hide Image, Pte, RowsImage, MemOk;
    NotYetADirectory(page, role, freelist, fl, d);
    ListHasFree(page, role, freelist, fl);
    ListHasFree(page2, role2, freelist2, []);
    ElementsSize(fl);
  }

  // ---- How many pages it takes ---------------------------------------------------------------

  /** The directory slots of the kernel half: those of physical memory and those of the devices. */
  function KernelSlots(): (s: set<nat>)
    ensures forall i: nat :: i in s <==> 512 <= i < 568 || 1016 <= i < 1024
  {
    Interval(512, 568) + Interval(1016, 1024)
  }

  lemma KernelSlotsSize()
    ensures |KernelSlots()| == 64
  {
    hide Interval;
    IntervalSize(512, 568);
    IntervalSize(1016, 1024);
    assert Interval(512, 568) !! Interval(1016, 1024);
  }

  /** The slots after the first rows have been mapped. */
  function RowsSlots(rows: seq<Row>): (s: set<nat>) {
    if rows == [] then {}
    else
      var k := rows[|rows| - 1];
      AddSlots(RowsSlots(rows[..|rows| - 1]), k.virt, k.virt + k.count)
  }

  lemma RowsSlotsNext(rows: seq<Row>, k: nat)
    requires k < |rows|
    ensures RowsSlots(rows[..k + 1]) == AddSlots(RowsSlots(rows[..k]), rows[k].virt, rows[k].virt + rows[k].count)
  {
    assert rows[..k + 1][..k] == rows[..k];
  }

  /** Every slot that gets a table takes one page. */
  lemma {:induction false} TablesAreSlots(slots: set<nat>, v: nat, e: nat)
    ensures |AddSlots(slots, v, e)| == |slots| + TablesNeeded(slots, v, e)
    decreases e - v
  {
    if v < e {
      if v / ENTRIES in slots { assert slots + {v / ENTRIES} == slots; }
      TablesAreSlots(slots + {v / ENTRIES}, v + 1, e);
    }
  }

  lemma RangeSlots(slots: set<nat>, v: nat, e: nat, i: nat)
    requires v < e
    ensures i in AddSlots(slots, v, e) <==> i in slots || v / ENTRIES <= i <= (e - 1) / ENTRIES
  {
    AddSlotsMeans(slots, v, e, i);
    if v / ENTRIES <= i <= (e - 1) / ENTRIES {
      var u := if i == v / ENTRIES then v else i * ENTRIES;
      assert v <= u < e && u / ENTRIES == i;
    }
  }

  lemma RowsAreKernelSlots(data: nat)
    requires EXTMEM_PAGE < data < PHYSTOP_PAGE
    ensures RowsSlots(Rows(data)) == KernelSlots()
  {
    hide AddSlots, KernelSlots, RowsSlots;
    var r := Rows(data);
    assert r[..4] == r && r[..0] == [];
    NoRowsSlots(r[..0]);
    forall i: nat ensures i in RowsSlots(r) <==> i in KernelSlots() {
      RowSlots(r, 0, i);
      RowSlots(r, 1, i);
      RowSlots(r, 2, i);
      RowSlots(r, 3, i);
    }
  }

  lemma NoRowsSlots(rows: seq<Row>)
    requires rows == []
    ensures RowsSlots(rows) == {}
  {
  }

  lemma RowSlots(rows: seq<Row>, k: nat, i: nat)
    requires k < |rows| && rows[k].count > 0
    ensures i in RowsSlots(rows[..k + 1]) <==>
            i in RowsSlots(rows[..k]) || rows[k].virt / ENTRIES <= i <= (rows[k].virt + rows[k].count - 1) / ENTRIES
  {
    hide AddSlots;
    RowsSlotsNext(rows, k);
    RangeSlots(RowsSlots(rows[..k]), rows[k].virt, rows[k].virt + rows[k].count, i);
  }

  /** A directory and the tables of its kernel half. */
  const KERNEL_NEED := 65

  /** The next row: what it takes, and that all rows together take KERNEL_NEED. */
  lemma RowTakes(data: nat, k: nat)
    requires EXTMEM_PAGE < data < PHYSTOP_PAGE && k < 4
    ensures var r := Rows(data); var w := r[k];
            && RowsSlots(r[..k + 1]) == AddSlots(RowsSlots(r[..k]), w.virt, w.virt + w.count)
            && |RowsSlots(r[..k + 1])| == |RowsSlots(r[..k])| + TablesNeeded(RowsSlots(r[..k]), w.virt, w.virt + w.count)
            && 1 + |RowsSlots(r[..k + 1])| <= KERNEL_NEED == 1 + |RowsSlots(r)| && RowsSlots(r) == KernelSlots()
  {
    hide AddSlots, TablesNeeded, RowsSlots, KernelSlots;
    var r := Rows(data);
    RowsSlotsNext(r, k);
    TablesAreSlots(RowsSlots(r[..k]), r[k].virt, r[k].virt + r[k].count);
    RowsSlotsGrow(r, k + 1);
    RowsAreKernelSlots(data);
    KernelSlotsSize();
  }

  /** How many pages of src are present before the first that is not, up to n. */
  function Lead(page: Memory, src: nat, n: nat): (k: nat)
    ensures k <= n && (forall u :: 0 <= u < k ==> Image(page, src, u) != 0) && (k < n ==> Image(page, src, k) == 0)
  {
    if n == 0 then 0
    else
      var k := Lead(page, src, n - 1);
      if k == n - 1 && Image(page, src, n - 1) != 0 then n else k
  }

  lemma LeadIs(page: Memory, src: nat, n: nat, v: nat)
    requires v <= n && (forall u :: 0 <= u < v ==> Image(page, src, u) != 0)
    ensures v <= Lead(page, src, n) && (v < n && Image(page, src, v) == 0 ==> Lead(page, src, n) == v)
  {
    hide Image;
  }

  /** The free pages that copying v pages takes: the kernel half, the pages, and their tables. */
  function CopyNeed(v: nat): (n: nat) {
    KERNEL_NEED + v + (v + ENTRIES - 1) / ENTRIES
  }

  lemma CopyNeeds(v: nat)
    ensures CopyNeed(v) >= KERNEL_NEED && forall free: nat :: free < KERNEL_NEED ==> CopyLeak(free) == free
    ensures CopyNeed(0) == KERNEL_NEED
  {
  }

  lemma NothingLost(role: Roles, fl: seq<nat>)
    requires fl == []
    ensures RolesBut(role, role, Elements(fl)) && Elements(fl) == {}
  {
  }

  /** The pages that a failed copy loses: all of them if there are too few for the kernel half; else one if the
      last goes to a page whose table is missing, and that is so once in every ENTRIES + 1 pages. */
  function CopyLeak(free: nat): (n: nat) {
    if free < KERNEL_NEED then free else if (free - KERNEL_NEED) % (ENTRIES + 1) == 1 then 1 else 0
  }

  lemma {:induction false} UserNeed(v: nat)
    requires v <= USER_PAGES
    ensures KERNEL_NEED + Need(KernelSlots(), 0, v) == CopyNeed(v)
    ensures v < USER_PAGES ==> (v / ENTRIES in AddSlots(KernelSlots(), 0, v) <==> v % ENTRIES != 0)
  {
    hide AddSlots, KernelSlots, TablesNeeded;
    var ks := KernelSlots();
    if v > 0 {
      UserNeed(v - 1);
      NeedEnd(ks, 0, v - 1);
      RangeSlots(ks, 0, v, v / ENTRIES);
    } else {
      NoNeed(ks);
    }
    assert v < USER_PAGES ==> v / ENTRIES < 512;
  }

  /** What one more page takes. */
  lemma CopyTakes(v: nat)
    requires v < USER_PAGES
    ensures var slots, i := AddSlots(KernelSlots(), 0, v), v / ENTRIES;
            && CopyNeed(v + 1) == CopyNeed(v) + 1 + (if i in slots then 0 else 1)
            && AddSlots(KernelSlots(), 0, v + 1) == slots + {i} && (i in slots <==> v % ENTRIES != 0)
  {
    hide AddSlots, KernelSlots, TablesNeeded, CopyNeed;
    UserNeed(v);
    UserNeed(v + 1);
    NeedEnd(KernelSlots(), 0, v);
  }

  lemma NoNeed(slots: set<nat>)
    ensures Need(slots, 0, 0) == 0 && AddSlots(slots, 0, 0) == slots
  {
  }

  /** Where a copy stops for want of a page, and what it loses there. */
  lemma StopsAt(free: nat, v: nat, k: nat, lastForPage: bool)
    requires v < k
    requires free == CopyNeed(v) + (if lastForPage then 1 else 0) && (lastForPage ==> v % ENTRIES == 0)
    ensures KERNEL_NEED <= free < CopyNeed(k) && CopyLeak(free) == if lastForPage then 1 else 0
  {
    var q, r := v / ENTRIES, v % ENTRIES;
    assert v == ENTRIES * q + r;
    var rem := free - KERNEL_NEED;
    if lastForPage {
      assert rem == (ENTRIES + 1) * q + 1;
      Remainder(q, 1);
    } else if r == 0 {
      assert rem == (ENTRIES + 1) * q;
      Remainder(q, 0);
    } else {
      assert rem == (ENTRIES + 1) * q + (r + 1);
      Remainder(q, r + 1);
    }
  }

  lemma Remainder(q: nat, r: nat)
    requires r < ENTRIES + 1
    ensures ((ENTRIES + 1) * q + r) % (ENTRIES + 1) == r
  {
  }

  /** The slots grow, and with them the pages taken. */
  lemma {:induction false} RowsSlotsGrow(rows: seq<Row>, k: nat)
    requires k <= |rows|
    ensures RowsSlots(rows[..k]) <= RowsSlots(rows) && |RowsSlots(rows[..k])| <= |RowsSlots(rows)|
    decreases |rows| - k
  {
    if k == |rows| {
      assert rows[..k] == rows;
    } else {
      RowsSlotsNext(rows, k);
      RowsSlotsGrow(rows, k + 1);
      TablesAreSlots(RowsSlots(rows[..k]), rows[k].virt, rows[k].virt + rows[k].count);
      forall i | i in RowsSlots(rows[..k]) ensures i in RowsSlots(rows[..k + 1]) {
        AddSlotsMeans(RowsSlots(rows[..k]), rows[k].virt, rows[k].virt + rows[k].count, i);
      }
    }
  }

  // ---- Copying -------------------------------------------------------------------------------

  /** While d is filled, src and everything else in use before stays as it was. */
  lemma CopyKeeps(page: Memory, role: Roles, freelist: nat, fl: seq<nat>, page1: Memory, role1: Roles, page2: Memory,
                  role2: Roles, d: nat, rows: seq<Row>, want: seq<Load>)
    requires MemOk(page, role, freelist, fl) && SetUp(page, role, page1, role1, d, rows)
    requires Loaded(page1, role1, page2, role2, d, 0, want)
    ensures AllKept(page, role, page2, role2)
  {
    hide Image, RowsImage, MemOk;
    NotYetADirectory(page, role, freelist, fl, d);
  }

  /** The user half of a directory is as it was when all pages in use are. */
  lemma SourceStays(page: Memory, role: Roles, freelist: nat, fl: seq<nat>, page2: Memory, role2: Roles, src: nat,
                    u: nat)
    requires MemOk(page, role, freelist, fl) && src in role && role[src].Directory?
    requires AllKept(page, role, page2, role2) && u < USER_PAGES
    ensures Image(page2, src, u) == Image(page, src, u)
    ensures TableAt(page2, src, u / ENTRIES) == TableAt(page, src, u / ENTRIES)
    ensures Image(page, src, u) != 0 ==> CopyOf(page2, src, u) == CopyOf(page, src, u)
    ensures Image(page, src, u) != 0 ==> |CopyOf(page, src, u).content| == ENTRIES && CopyOf(page, src, u).flags < PGSIZE && CopyOf(page, src, u).flags % 2 == 1
  {
    hide MemOk, Ppn;
    KeysAgree(page, role, freelist, fl);
    ImageStays(page, role, freelist, fl, page2, src);
    ImageIsFrame(page, role, freelist, fl, src, u);
    PresentFlags(Image(page, src, u));
  }

  lemma PresentFlags(w: nat)
    ensures Flags(w) < PGSIZE && (Present(w) ==> Flags(w) % 2 == 1)
  {
  }

  lemma CopyEnds(page: Memory, role: Roles, freelist: nat, fl: seq<nat>, page1: Memory, role1: Roles, page2: Memory,
                 role2: Roles, src: nat, d: nat, n: nat, data: nat)
    requires MemOk(page, role, freelist, fl) && EXTMEM_PAGE < data < PHYSTOP_PAGE && n <= USER_PAGES
    requires SetUp(page, role, page1, role1, d, Rows(data))
    requires Loaded(page1, role1, page2, role2, d, 0, Copies(page, src, n)) && LostOnly(role1, role2, d, {})
    requires forall u :: 0 <= u < n ==> Image(page, src, u) != 0
    ensures CopyMade(page, role, page2, role2, src, d, n, data)
  {
    hide MemOk, Image, RowsImage, Ppn, Pte, Rows;
    CopyKeeps(page, role, freelist, fl, page1, role1, page2, role2, d, Rows(data), Copies(page, src, n));
    forall u | 0 <= u < n ensures LoadedAt(page, role, page2, d, u, CopyOf(page, src, u)) {
      assert LoadedAt(page1, role1, page2, d, 0 + u, Copies(page, src, n)[u]);
    }
    forall x | 0 <= x < ALL_PAGES ensures RowsImage(Rows(data), x) == KernelImage(data, x) { RowsAreKernel(data, x); }
    assert NewlyHeld(role, role2) == {};
  }

  lemma UndoneKeeps(page: Memory, role: Roles, freelist: nat, fl: seq<nat>, page2: Memory, role2: Roles,
                    page3: Memory, role3: Roles, d: nat)
    requires MemOk(page, role, freelist, fl) && AllKept(page, role, page2, role2) && d in role && role[d].Free?
    requires Dismantled(page2, role2, page3, role3, d)
    ensures AllKept(page, role, page3, role3)
  {
    hide MemOk;
    NotYetADirectory(page, role, freelist, fl, d);
    forall q | q in role && !role[q].Free? ensures Foreign(role2, d, q) {}
  }

  /** What was taken for the copy is free again, but for the pages lost. */
  lemma UndoneLoses(page: Memory, role: Roles, freelist: nat, fl: seq<nat>, page1: Memory, role1: Roles, page2: Memory,
                    role2: Roles, page3: Memory, role3: Roles, d: nat, rows: seq<Row>, want: seq<Load>, lost: set<nat>)
    requires MemOk(page, role, freelist, fl) && SetUp(page, role, page1, role1, d, rows)
    requires Loaded(page1, role1, page2, role2, d, 0, want)
    requires LostOnly(role1, role2, d, lost) && Dismantled(page2, role2, page3, role3, d)
    ensures RolesBut(role, role3, lost)
  {
    hide MemOk, SetUp, Dismantled, LostOnly, Loaded;
    SetUpRoles(page, role, page1, role1, d, rows);
    NotYetADirectory(page, role, freelist, fl, d);
    LoadKeepsRoles(page1, role1, page2, role2, d, 0, want);
    assert role.Keys == role3.Keys by { DismantledRole(page2, role2, page3, role3, d, d); }
    forall q | q in role ensures role3[q] == if q in lost then Held else role[q] {
      DismantledRole(page2, role2, page3, role3, d, q);
      LostRole(role1, role2, d, lost, q);
    }
  }

  lemma SetUpRoles(page: Memory, role: Roles, page1: Memory, role1: Roles, d: nat, rows: seq<Row>)
    requires SetUp(page, role, page1, role1, d, rows)
    ensures role.Keys == role1.Keys && d in role && role[d].Free? && role1[d].Directory?
    ensures forall q :: q in role && !role[q].Free? ==> role1[q] == role[q]
    ensures forall q :: q in role && role[q].Free? ==> role1[q].Free? || q == d || (role1[q].Table? && role1[q].dir == d)
  {
  }

  lemma DismantledRole(page: Memory, role: Roles, page': Memory, role': Roles, d: nat, q: nat)
    requires Dismantled(page, role, page', role', d)
    ensures role.Keys == role'.Keys && (q in role ==> role'[q] == if Foreign(role, d, q) || role[q].Free? then role[q] else Free)
  {
  }

  lemma LostRole(role: Roles, role': Roles, d: nat, lost: set<nat>, q: nat)
    requires LostOnly(role, role', d, lost) && q in role
    ensures role.Keys == role'.Keys && (q in lost ==> role[q].Free? && role'[q].Held?)
    ensures role[q].Free? && q !in lost ==>
              role'[q].Free? || (role'[q].Table? && role'[q].dir == d) || (role'[q].Frame? && role'[q].dir == d)
  {
  }

  /** Throwing the unfinished copy away. */
  lemma CopyUndone(page: Memory, role: Roles, freelist: nat, fl: seq<nat>, page1: Memory, role1: Roles, page2: Memory,
                   role2: Roles, page3: Memory, role3: Roles,
                   d: nat, rows: seq<Row>, want: seq<Load>, lost: set<nat>)
    requires MemOk(page, role, freelist, fl) && SetUp(page, role, page1, role1, d, rows)
    requires Loaded(page1, role1, page2, role2, d, 0, want)
    requires LostOnly(role1, role2, d, lost) && Dismantled(page2, role2, page3, role3, d)
    ensures AllKept(page, role, page3, role3) && RolesBut(role, role3, lost)
  {
    hide Image, RowsImage, MemOk, Loaded, LostOnly, Dismantled, AllKept, RolesBut;
    CopyKeeps(page, role, freelist, fl, page1, role1, page2, role2, d, rows, want);
    SetUpKeeps(page, role, page1, role1, d, rows);
    UndoneKeeps(page, role, freelist, fl, page2, role2, page3, role3, d);
    UndoneLoses(page, role, freelist, fl, page1, role1, page2, role2, page3, role3, d, rows, want, lost);
  }

  /** How far a copy of src into d has come at page v. */
  ghost predicate CopySoFar(page: Memory, role: Roles, page1: Memory, role1: Roles, page2: Memory, role2: Roles,
                            src: nat, d: nat, v: nat, data: nat)
  {
    && EXTMEM_PAGE < data < PHYSTOP_PAGE
    && SetUp(page, role, page1, role1, d, Rows(data)) && Loaded(page1, role1, page2, role2, d, 0, Copies(page, src, v)) && LostOnly(role1, role2, d, {})
    && AllKept(page, role, page2, role2)
    && (forall u :: 0 <= u < v ==> Image(page, src, u) != 0)
  }

  lemma CopyBegins(page: Memory, role: Roles, page1: Memory, role1: Roles, freelist1: nat, fl1: seq<nat>, src: nat,
                   d: nat, data: nat)
    requires EXTMEM_PAGE < data < PHYSTOP_PAGE && SetUp(page, role, page1, role1, d, Rows(data))
    requires MemOk(page1, role1, freelist1, fl1)
    ensures CopySoFar(page, role, page1, role1, page1, role1, src, d, 0, data)
  {
    hide MemOk, Image, Loaded, LostOnly;
    LoadedNone(page1, role1, freelist1, fl1, d, 0);
    assert Copies(page, src, 0) == [];
  }

  /** The next page of the copy is still empty, and both directories are in place. */
  lemma CopyGoesOn(page: Memory, role: Roles, freelist: nat, fl: seq<nat>, page1: Memory, role1: Roles, page2: Memory,
                   role2: Roles, src: nat, d: nat, v: nat, data: nat)
    requires MemOk(page, role, freelist, fl) && src in role && role[src].Directory? && v < USER_PAGES
    requires CopySoFar(page, role, page1, role1, page2, role2, src, d, v, data)
    ensures Image(page2, d, v) == 0 && d in role2 && role2[d].Directory? && src in role2 && role2[src].Directory?
    ensures Image(page2, src, v) == Image(page, src, v)
    ensures Image(page, src, v) != 0 ==> CopyOf(page2, src, v) == CopyOf(page, src, v)
    ensures Image(page, src, v) != 0 ==> |CopyOf(page, src, v).content| == ENTRIES && CopyOf(page, src, v).flags < PGSIZE && CopyOf(page, src, v).flags % 2 == 1
  {
    hide MemOk, Image, RowsImage, CopyOf, LostOnly;
    SourceStays(page, role, freelist, fl, page2, role2, src, v);
    RowsAbove(data, 4, v);
    assert Rows(data)[..4] == Rows(data);
    LoadKeepsRoles(page1, role1, page2, role2, d, 0, Copies(page, src, v));
  }

  lemma CopyStep(page: Memory, role: Roles, freelist: nat, fl: seq<nat>, page1: Memory, role1: Roles, page2: Memory,
                 role2: Roles, freelist2: nat, fl2: seq<nat>,
                 page3: Memory, role3: Roles, src: nat, d: nat, v: nat, data: nat)
    requires MemOk(page, role, freelist, fl) && MemOk(page2, role2, freelist2, fl2) && d in role2
    requires role2[d].Directory? && v < USER_PAGES
    requires CopySoFar(page, role, page1, role1, page2, role2, src, d, v, data) && Image(page, src, v) != 0
    requires Loaded(page2, role2, page3, role3, d, v, [CopyOf(page, src, v)]) && LostOnly(role2, role3, d, {})
    ensures CopySoFar(page, role, page1, role1, page3, role3, src, d, v + 1, data)
  {
    hide MemOk, Image, Loaded, LostOnly, SetUp, AllKept, CopyOf, Rows;
    LoadedMore(page1, role1, page2, role2, freelist2, fl2, page3, role3, d, 0, Copies(page, src, v), CopyOf(page, src, v));
    assert Copies(page, src, v) + [CopyOf(page, src, v)] == Copies(page, src, v + 1);
    LoadKeepsRoles(page2, role2, page3, role3, d, v, [CopyOf(page, src, v)]);
    LostChain(role1, role2, role3, d, {});
    CopyKeeps(page, role, freelist, fl, page1, role1, page3, role3, d, Rows(data), Copies(page, src, v + 1));
  }

  /** After losing page mem, the copy so far stands with one page gone. */
  lemma CopyLoses(page: Memory, role: Roles, page1: Memory, role1: Roles, page2: Memory, role2: Roles, freelist2: nat,
                  fl2: seq<nat>,
                  src: nat, d: nat, v: nat, data: nat, mem: nat, content: Page)
    requires MemOk(page2, role2, freelist2, fl2) && d in role2 && role2[d].Directory? && v <= USER_PAGES
    requires CopySoFar(page, role, page1, role1, page2, role2, src, d, v, data) && mem in role2 && role2[mem].Free?
    ensures Loaded(page1, role1, page2[mem := content], role2[mem := Held], d, 0, Copies(page, src, v))
    ensures LostOnly(role1, role2[mem := Held], d, {mem})
  {
    hide MemOk, Image, Loaded, LostOnly, SetUp, AllKept, CopyOf, Rows;
    KeysAgree(page2, role2, freelist2, fl2);
    FilledApart(page2, role2, freelist2, fl2, d, mem, content);
    LoadKeepsRoles(page1, role1, page2, role2, d, 0, Copies(page, src, v));
    LostOne(page2, role2, d, v, mem, content, role1, {});
    LoadedThrough(page1, role1, page2, role2, freelist2, fl2, page2[mem := content], role2[mem := Held], d, 0, Copies(page, src, v));
    assert {} + {mem} == {mem};
  }

  lemma CopyMeans(page: Memory, role: Roles, page1: Memory, role1: Roles, page2: Memory, role2: Roles, src: nat,
                  d: nat, v: nat, data: nat)
    requires CopySoFar(page, role, page1, role1, page2, role2, src, d, v, data)
    ensures SetUp(page, role, page1, role1, d, Rows(data))
    ensures Loaded(page1, role1, page2, role2, d, 0, Copies(page, src, v)) && LostOnly(role1, role2, d, {})
    ensures AllKept(page, role, page2, role2)
    ensures forall u :: 0 <= u < v ==> Image(page, src, u) != 0
  {
  }

  lemma PageImage(page: Memory, d: nat, u: nat)
    requires u < ALL_PAGES
    ensures TableAt(page, d, u / ENTRIES) == 0 && 0 !in page ==> Image(page, d, u) == 0
    ensures var t := TableAt(page, d, u / ENTRIES);
            t in page && |page[t]| == ENTRIES && !Present(page[t][u % ENTRIES]) ==> Image(page, d, u) == 0
  {
  }

  /** The present entry that copyuvm finds is the page's image, and its frame and flags are the copy. */
  lemma SourceFrame(page: Memory, role: Roles, freelist: nat, fl: seq<nat>, src: nat, u: nat, t: nat)
    requires MemOk(page, role, freelist, fl) && src in role && role[src].Directory? && u < USER_PAGES
    requires t != 0 && t == TableAt(page, src, u / ENTRIES) && t in page && |page[t]| == ENTRIES
    requires Present(page[t][u % ENTRIES])
    ensures var w := page[t][u % ENTRIES]; Image(page, src, u) == w && w != 0 && Ppn(w) in page && CopyOf(page, src, u) == Load(page[Ppn(w)], Flags(w))
  {
    hide MemOk, Ppn;
    KeysAgree(page, role, freelist, fl);
    ImageIsFrame(page, role, freelist, fl, src, u);
  }
}

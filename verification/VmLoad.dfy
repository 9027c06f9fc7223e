/** Filling an address space page by page: every page of a range gets a frame of its own that was
    free before, with given contents and flags, and nothing else in use changes. */
module VmLoad {
  import opened Common
  import opened Pages
  import opened AddressSpace
  import opened VmSteps

  /** What a virtual page is to hold. */
  datatype Load = Load(content: Page, flags: nat)

  datatype LoadResult = Loading | NoPage | Lost(mem: nat)

  /** In use before and still the same: the role of every page, and the content of every page but the
      directory and its tables. */
  ghost predicate Kept(page: Memory, role: Roles, page': Memory, role': Roles, d: nat) {
    && page.Keys == page'.Keys == role.Keys == role'.Keys
    && forall q :: q in role && !role[q].Free? ==>
         && role'[q] == role[q]
         && (q != d && !(role[q].Table? && role[q].dir == d) ==> page'[q] == page[q])
  }

  ghost predicate LoadedAt(page: Memory, role: Roles, page': Memory, d: nat, u: nat, x: Load) {
    var w := Image(page', d, u);
    && w != 0 && Flags(w) == x.flags
    && Ppn(w) in role && role[Ppn(w)].Free? && Ppn(w) in page' && page'[Ppn(w)] == x.content
  }

  ghost predicate Loaded(page: Memory, role: Roles, page': Memory, role': Roles, d: nat, a: nat, want: seq<Load>) {
    && Kept(page, role, page', role', d)
    && (forall u :: 0 <= u < ALL_PAGES && !(a <= u < a + |want|) ==> Image(page', d, u) == Image(page, d, u))
    && (forall k :: 0 <= k < |want| ==> LoadedAt(page, role, page', d, a + k, want[k]))
  }

  /** Pages taken have become part of d, or are lost to their taker. */
  ghost predicate LostOnly(role: Roles, role': Roles, d: nat, lost: set<nat>) {
    && role.Keys == role'.Keys
    && (forall q :: q in role && role[q].Free? ==>
          role'[q].Free? || q in lost || (role'[q].Table? && role'[q].dir == d) || (role'[q].Frame? && role'[q].dir == d))
    && (forall p :: p in role && role'[p].Held? ==> role[p].Held? || p in lost)
    && (forall p :: p in lost ==> p in role && role[p].Free? && role'[p].Held?)
  }

  /** What comes of taking a page, filling it and mapping it as page u of d: there is none; or it is lost,
      because there is none for its table; or all is done. */
  ghost predicate LoadOutcome(page: Memory, role: Roles, fl: seq<nat>, page': Memory, role': Roles, fl': seq<nat>,
                              d: nat, u: nat, x: Load, r: LoadResult)
  {
    && (r.NoPage? ==> fl == [] == fl' && page' == page && role' == role)
    && (r.Lost? ==>
          && r.mem in role && role[r.mem].Free? && |fl| == 1 && fl' == [] && u / ENTRIES !in Slots(page, d)
          && Slots(page', d) == Slots(page, d) && role' == role[r.mem := Held] && page' == page[r.mem := x.content])
    && (r.Loading? ==>
          && |fl| == |fl'| + 1 + (if u / ENTRIES in Slots(page, d) then 0 else 1)
          && Slots(page', d) == Slots(page, d) + {u / ENTRIES}
          && Loaded(page, role, page', role', d, u, [x]) && LostOnly(role, role', d, {}))
  }

  lemma KeptTwice(page: Memory, role: Roles, page1: Memory, role1: Roles, page2: Memory, role2: Roles, d: nat)
    requires Kept(page, role, page1, role1, d) && Kept(page1, role1, page2, role2, d)
    ensures Kept(page, role, page2, role2, d)
  {
  }

  lemma LoadedNone(page: Memory, role: Roles, freelist: nat, fl: seq<nat>, d: nat, a: nat)
    requires MemOk(page, role, freelist, fl)
    ensures Loaded(page, role, page, role, d, a, []) && LostOnly(role, role, d, {})
  {
  }

  /** A page loaded stays loaded while pages in use are kept. */
  lemma LoadedStays(page: Memory, role: Roles, page1: Memory, role1: Roles, freelist1: nat, fl1: seq<nat>,
                    page2: Memory, role2: Roles, d: nat, u: nat, x: Load)
    requires MemOk(page1, role1, freelist1, fl1) && d in role1 && role1[d].Directory? && u < USER_PAGES
    requires LoadedAt(page, role, page1, d, u, x) && Kept(page1, role1, page2, role2, d)
    requires Image(page2, d, u) == Image(page1, d, u)
    ensures LoadedAt(page, role, page2, d, u, x)
  {
    hide MemOk, Ppn, Image;
    ImageIsFrame(page1, role1, freelist1, fl1, d, u);
  }

  lemma LoadedMore(page: Memory, role: Roles, page1: Memory, role1: Roles, freelist1: nat, fl1: seq<nat>,
                   page2: Memory, role2: Roles, d: nat, a: nat, want: seq<Load>, x: Load)
    requires MemOk(page1, role1, freelist1, fl1) && d in role1 && role1[d].Directory? && a + |want| < USER_PAGES
    requires Loaded(page, role, page1, role1, d, a, want) && Loaded(page1, role1, page2, role2, d, a + |want|, [x])
    ensures Loaded(page, role, page2, role2, d, a, want + [x])
  {
    hide MemOk, Ppn, Image;
    KeptTwice(page, role, page1, role1, page2, role2, d);
    var more := want + [x];
    forall k | 0 <= k < |more| ensures LoadedAt(page, role, page2, d, a + k, more[k]) {
      if k < |want| {
        LoadedStays(page, role, page1, role1, freelist1, fl1, page2, role2, d, a + k, want[k]);
      } else {
        assert LoadedAt(page1, role1, page2, d, a + |want| + 0, [x][0]);
      }
    }
  }

  /** Mapping one page just taken from the list and filled. */
  lemma LoadedOne(page: Memory, role: Roles, page1: Memory, role1: Roles, page2: Memory, role2: Roles, d: nat, u: nat,
                  mem: nat, content: Page, flags: nat)
    requires page.Keys == role.Keys && mem in role && role[mem].Free? && page1 == page[mem := content]
    requires role1 == role[mem := Held]
    requires d in role && role[d].Directory? && u < USER_PAGES && flags % 2 == 1 && flags < PGSIZE
    requires forall x :: 0 <= x < ALL_PAGES ==> Image(page1, d, x) == Image(page, d, x)
    requires forall x :: 0 <= x < ALL_PAGES ==> Image(page2, d, x) == if x == u then Pte(mem, flags) else Image(page1, d, x)
    requires MappedRange(page1, role1, page2, role2, d, u, 1, mem)
    ensures Loaded(page, role, page2, role2, d, u, [Load(content, flags)])
    ensures LostOnly(role, role2, d, {})
  {
    hide Image, Ppn, Flags, Pte, Present;
    PteParts(mem, flags);
    PteNonzero(mem, flags);
    assert role2[mem].Frame?;
    assert LoadedAt(page, role, page2, d, u + 0, [Load(content, flags)][0]);
  }

  lemma PteNonzero(p: nat, flags: nat)
    requires flags % 2 == 1
    ensures Pte(p, flags) != 0
  {
  }

  /** Writing to a page that no directory refers to changes no image. */
  lemma FilledApart(page: Memory, role: Roles, freelist: nat, fl: seq<nat>, d: nat, mem: nat, content: Page)
    requires MemOk(page, role, freelist, fl) && d in role && role[d].Directory? && mem in role
    requires (role[mem].Held? || role[mem].Free?)
    ensures forall x :: 0 <= x < ALL_PAGES ==> Image(page[mem := content], d, x) == Image(page, d, x)
    ensures Slots(page[mem := content], d) == Slots(page, d)
  {
    ImageStays(page, role, freelist, fl, page[mem := content], d);
  }

  lemma LostOne(page: Memory, role: Roles, d: nat, u: nat, mem: nat, content: Page, role0: Roles, lost: set<nat>)
    requires page.Keys == role.Keys && mem in role && role[mem].Free? && d in role && role[d].Directory?
    requires LostOnly(role0, role, d, lost)
    requires role0.Keys == role.Keys && forall q :: q in role0 && !role0[q].Free? ==> role[q] == role0[q]
    requires forall x :: 0 <= x < ALL_PAGES ==> Image(page[mem := content], d, x) == Image(page, d, x)
    ensures Loaded(page, role, page[mem := content], role[mem := Held], d, u, [])
    ensures LostOnly(role0, role[mem := Held], d, lost + {mem})
  {
  }

  lemma LostChain(role: Roles, role1: Roles, role2: Roles, d: nat, lost: set<nat>)
    requires LostOnly(role, role1, d, lost) && LostOnly(role1, role2, d, {})
    requires forall q :: q in role1 && !role1[q].Free? ==> role2[q] == role1[q]
    ensures LostOnly(role, role2, d, lost)
  {
  }

  lemma LoadedThrough(page: Memory, role: Roles, page1: Memory, role1: Roles, freelist1: nat, fl1: seq<nat>,
                      page2: Memory, role2: Roles, d: nat, a: nat, want: seq<Load>)
    requires MemOk(page1, role1, freelist1, fl1) && d in role1 && role1[d].Directory? && a + |want| <= USER_PAGES
    requires Loaded(page, role, page1, role1, d, a, want) && Loaded(page1, role1, page2, role2, d, a + |want|, [])
    ensures Loaded(page, role, page2, role2, d, a, want)
  {
    hide MemOk, Ppn, Image;
    KeptTwice(page, role, page1, role1, page2, role2, d);
    forall k | 0 <= k < |want| ensures LoadedAt(page, role, page2, d, a + k, want[k]) {
      LoadedStays(page, role, page1, role1, freelist1, fl1, page2, role2, d, a + k, want[k]);
    }
  }

  // ---- Undoing -------------------------------------------------------------------------------

  /** Taking away everything that was loaded restores the address space. */
  lemma LoadUndone(page: Memory, role: Roles, freelist: nat, fl: seq<nat>, page1: Memory, role1: Roles, page2: Memory,
                   role2: Roles,
                   d: nat, a: nat, want: seq<Load>, e: nat)
    requires MemOk(page, role, freelist, fl) && d in role && role[d].Directory? && a + |want| <= e <= USER_PAGES
    requires NonePresent(page, d, a, e)
    requires Loaded(page, role, page1, role1, d, a, want)
    requires Removed(page1, role1, page2, role2, d, ScanStart(page1, d, a), e)
    ensures Loaded(page, role, page2, role2, d, a, [])
  {
    hide MemOk, Ppn;
    KeysAgree(page, role, freelist, fl);
    var s := ScanStart(page1, d, a);
    assert a <= s;
    assert want != [] ==> s == a by {
      if want != [] { assert LoadedAt(page, role, page1, d, a + 0, want[0]); assert Image(page1, d, a) != 0; TablePresent(page1, d, a); }
    }
    forall u | 0 <= u < ALL_PAGES ensures Image(page2, d, u) == Image(page, d, u) {
      if a <= u < a + |want| { assert LoadedAt(page, role, page1, d, a + (u - a), want[u - a]); }
    }
    forall q | q in role && !role[q].Free? ensures !Doomed(role1[q], d, s, e) {
      if Doomed(role1[q], d, s, e) { DoomedPresent(page, role, freelist, fl, d, q); }
    }
  }

  lemma TablePresent(page: Memory, d: nat, a: nat)
    requires Image(page, d, a) != 0 && a < USER_PAGES && 0 !in page
    ensures ScanStart(page, d, a) == a
  {
  }

  lemma LostUndone(page1: Memory, role: Roles, role1: Roles, page2: Memory, role2: Roles, d: nat, s: nat, e: nat,
                   lost: set<nat>)
    requires LostOnly(role, role1, d, lost) && Removed(page1, role1, page2, role2, d, s, e)
    ensures LostOnly(role, role2, d, lost)
  {
  }

  // ---- How much memory is enough -------------------------------------------------------------

  /** Free pages that loading pages a to e takes, tables included. */
  function Need(slots: set<nat>, a: nat, e: nat): (n: nat) {
    (if a < e then e - a else 0) + TablesNeeded(slots, a, e)
  }

  /** The last page of the range is the one that first needs its table. */
  predicate LastNeedsTable(slots: set<nat>, a: nat, e: nat) {
    a < e && (e - 1) / ENTRIES !in slots && (e - 1 == a || (e - 1) % ENTRIES == 0)
  }

  /** That is: its slot is still empty when all pages before it are mapped. */
  lemma LastNeeds(slots: set<nat>, a: nat, e: nat)
    requires a < e
    ensures LastNeedsTable(slots, a, e) <==> (e - 1) / ENTRIES !in AddSlots(slots, a, e - 1)
  {
    AddSlotsMeans(slots, a, e - 1, (e - 1) / ENTRIES);
    if e - 1 > a && (e - 1) % ENTRIES != 0 { assert (e - 2) / ENTRIES == (e - 1) / ENTRIES; }
  }

  lemma NeedEnd(slots: set<nat>, a: nat, v: nat)
    requires a <= v
    ensures Need(slots, a, v + 1) == Need(slots, a, v) + 1 + if v / ENTRIES in AddSlots(slots, a, v) then 0 else 1
    ensures AddSlots(slots, a, v + 1) == AddSlots(slots, a, v) + {v / ENTRIES}
  {
    AddSlotsEnd(slots, a, v);
  }

  lemma {:induction false} NeedGrows(slots: set<nat>, a: nat, v: nat, e: nat)
    requires a <= v <= e
    ensures Need(slots, a, e) >= Need(slots, a, v) + (e - v)
    decreases e - v
  {
    if v < e {
      NeedGrows(slots, a, v, e - 1);
      NeedEnd(slots, a, e - 1);
    }
  }

  /** With that many pages free, page v is taken, and then there is none for its table. */
  predicate LastForPage(slots: set<nat>, a: nat, v: nat, free: nat) {
    free == Need(slots, a, v) + 1 && v / ENTRIES !in AddSlots(slots, a, v)
  }

  predicate LosesPage(slots: set<nat>, a: nat, e: nat, free: nat) {
    exists v :: a <= v < e && LastForPage(slots, a, v, free)
  }

  /** With that many pages free, pages a to v get theirs and page v does not. */
  predicate DryAt(slots: set<nat>, a: nat, v: nat, free: nat) {
    free == Need(slots, a, v) || LastForPage(slots, a, v, free)
  }

  /** The free pages decide where they run out. */
  lemma DryOnce(slots: set<nat>, a: nat, v: nat, w: nat, free: nat)
    requires a <= v && a <= w && LastForPage(slots, a, v, free)
    ensures free != Need(slots, a, w) && (free >= Need(slots, a, w) ==> w <= v)
  {
    hide AddSlots, TablesNeeded;
    NeedEnd(slots, a, v);
    if w <= v { NeedGrows(slots, a, w, v); } else { NeedGrows(slots, a, v + 1, w); }
  }

  function Zeros(n: nat): (r: seq<Load>)
    ensures |r| == n
  {
    seq(n, _ => Load(ZeroPage(), 7))
  }

  lemma ZerosMore(n: nat)
    ensures Zeros(n) + [Load(ZeroPage(), 7)] == Zeros(n + 1)
  {
  }

  /** What comes of asking for pages a to e, given how many pages are free: all of them, zeroed; or none, with
      the space as it was and all pages given back but the tables made; or, when the page that runs out is
      the table for the last page, all but the last, reported as success. One page is lost exactly when a
      page was taken and none was left for its table. */
  ghost predicate AllocOutcome(page: Memory, role: Roles, fl: seq<nat>, page': Memory, role': Roles, fl': seq<nat>,
                               d: nat, a: nat, e: nat, ok: bool, lost: set<nat>)
  {
    var need := Need(Slots(page, d), a, e);
    var short := |fl| + 1 == need && LastNeedsTable(Slots(page, d), a, e);
    && LostOnly(role, role', d, lost) && |lost| <= 1 && (lost != {} <==> LosesPage(Slots(page, d), a, e, |fl|))
    && (|fl| >= need ==>
          && ok && lost == {} && |fl| == |fl'| + need && Slots(page', d) == AddSlots(Slots(page, d), a, e)
          && Loaded(page, role, page', role', d, a, Zeros(if a < e then e - a else 0)))
    && (|fl| < need && !short ==>
          && !ok && Loaded(page, role, page', role', d, a, [])
          && exists v :: a <= v < e && DryAt(Slots(page, d), a, v, |fl|) && |fl'| == v - a)
    && (short ==> ok && |lost| == 1 && fl' == [] && Loaded(page, role, page', role', d, a, Zeros(e - a - 1)))
  }

  /** How far a run of allocuvm has come at page v. */
  ghost predicate AllocSoFar(page: Memory, role: Roles, fl: seq<nat>, page': Memory, role': Roles, fl': seq<nat>,
                             d: nat, a: nat, v: nat, lost: set<nat>)
  {
    var slots := Slots(page, d);
    && LostOnly(role, role', d, lost) && |lost| <= 1 && a <= v
    && (lost == {} ==> Loaded(page, role, page', role', d, a, Zeros(v - a)) && Slots(page', d) == AddSlots(slots, a, v) && |fl| == |fl'| + Need(slots, a, v))
    && (lost != {} ==>
         && a < v && fl' == [] && Loaded(page, role, page', role', d, a, Zeros(v - 1 - a))
         && |fl| == Need(slots, a, v - 1) + 1 && (v - 1) / ENTRIES !in AddSlots(slots, a, v - 1))
  }

  lemma AllocEnds(page: Memory, role: Roles, fl: seq<nat>, page': Memory, role': Roles, fl': seq<nat>, d: nat, a: nat,
                  e: nat, lost: set<nat>)
    requires AllocSoFar(page, role, fl, page', role', fl', d, a, e, lost)
    ensures AllocOutcome(page, role, fl, page', role', fl', d, a, e, true, lost)
  {
    hide Loaded, LostOnly, Slots, AddSlots, TablesNeeded, LastNeedsTable;
    var slots := Slots(page, d);
    if lost != {} {
      NeedEnd(slots, a, e - 1);
      LastNeeds(slots, a, e);
      assert LastForPage(slots, a, e - 1, |fl|);
    } else {
      forall v | a <= v < e ensures !LastForPage(slots, a, v, |fl|) {
        if LastForPage(slots, a, v, |fl|) { DryOnce(slots, a, v, e, |fl|); }
      }
    }
  }

  lemma AllocFails(page: Memory, role: Roles, fl: seq<nat>, page': Memory, role': Roles, page2: Memory, role2: Roles,
                   fl2: seq<nat>,
                   d: nat, a: nat, v: nat, e: nat, lost: set<nat>)
    requires AllocSoFar(page, role, fl, page', role', [], d, a, v, lost) && v < e
    requires Loaded(page, role, page2, role2, d, a, []) && LostOnly(role, role2, d, lost)
    requires |fl2| == if lost == {} then v - a else v - 1 - a
    ensures AllocOutcome(page, role, fl, page2, role2, fl2, d, a, e, false, lost)
  {
    hide Loaded, LostOnly, Slots, AddSlots, TablesNeeded, LastNeedsTable;
    var slots := Slots(page, d);
    NeedGrows(slots, a, v, e);
    NeedGrows(slots, a, v + 1, e);
    NeedEnd(slots, a, v);
    LastNeeds(slots, a, e);
    if lost != {} {
      NeedEnd(slots, a, v - 1);
      assert LastForPage(slots, a, v - 1, |fl|);
      assert DryAt(slots, a, v - 1, |fl|);
    } else {
      assert DryAt(slots, a, v, |fl|);
      forall w | a <= w < e ensures !LastForPage(slots, a, w, |fl|) {
        if LastForPage(slots, a, w, |fl|) { DryOnce(slots, a, w, v, |fl|); }
      }
    }
  }

  // ---- Counting the pages given back ---------------------------------------------------------

  lemma HasSome(t: seq<nat>)
    requires t != []
    ensures exists x :: x in t
  {
    assert t[0] in t;
  }

  lemma {:induction false} SameElements(s: seq<nat>, t: seq<nat>)
    requires Distinct(s) && Distinct(t) && forall x :: x in s <==> x in t
    ensures |s| == |t|
  {
    if s == [] {
      if t != [] { HasSome(t); assert false; }
    } else {
      var n := |s| - 1;
      assert s[n] in s && s[n] in t;
      var k :| 0 <= k < |t| && t[k] == s[n];
      var u := t[..k] + t[k + 1..];
      assert s == s[..n] + [s[n]] && t == t[..k] + [t[k]] + t[k + 1..];
      forall x ensures x in s[..n] <==> x in u {
        assert x in s <==> x in s[..n] || x == s[n];
        assert x in t <==> x in u || x == t[k];
        if x in s[..n] { assert x != s[n]; }
        if x in u { assert x != t[k]; }
      }
      SameElements(s[..n], u);
    }
  }

  /** The frames of pages a to v. */
  function FramesOf(page: Memory, d: nat, a: nat, v: nat): (r: seq<nat>)
    requires a <= v
    ensures |r| == v - a && forall k :: 0 <= k < |r| ==> r[k] == Ppn(Image(page, d, a + k))
  {
    seq<nat>(v - a, k requires 0 <= k < v - a => Ppn(Image(page, d, a + k)))
  }

  lemma FramesDistinct(page: Memory, role: Roles, freelist: nat, fl: seq<nat>, d: nat, a: nat, v: nat)
    requires MemOk(page, role, freelist, fl) && d in role && role[d].Directory? && a <= v <= USER_PAGES
    requires forall u :: a <= u < v ==> Image(page, d, u) != 0
    ensures Distinct(FramesOf(page, d, a, v))
    ensures forall p :: p in FramesOf(page, d, a, v) <==>
              p in role && role[p].Frame? && role[p].dir == d && a <= Vpn(role[p]) < v
  {
    hide MemOk, Image, Ppn;
    var fr := FramesOf(page, d, a, v);
    forall k | 0 <= k < |fr| ensures fr[k] in role && role[fr[k]] == Frame(d, (a + k) / ENTRIES, (a + k) % ENTRIES) {
      ImageIsFrame(page, role, freelist, fl, d, a + k);
    }
    forall j, k | 0 <= j < k < |fr| ensures fr[j] != fr[k] {
      assert (a + j) / ENTRIES * ENTRIES + (a + j) % ENTRIES == a + j;
      assert (a + k) / ENTRIES * ENTRIES + (a + k) % ENTRIES == a + k;
    }
    forall p | p in role && role[p].Frame? && role[p].dir == d && a <= Vpn(role[p]) < v ensures p in fr {
      DoomedPresent(page, role, freelist, fl, d, p);
      assert fr[Vpn(role[p]) - a] == p;
    }
  }

  lemma ListHasFree(page: Memory, role: Roles, freelist: nat, fl: seq<nat>)
    requires MemOk(page, role, freelist, fl)
    ensures Distinct(fl) && forall p :: p in fl <==> p in role && role[p].Free?
  {
    hide DirsOk, TablesOk, EntriesOk, FramesOk;
  }

  /** With no page free before, the pages free after pages a to e have been taken away are the frames that
      were loaded. */
  lemma FreedCount(page: Memory, role: Roles, page1: Memory, role1: Roles, freelist1: nat, page2: Memory,
                   role2: Roles, freelist2: nat, fl2: seq<nat>, d: nat, a: nat, want: seq<Load>, e: nat)
    requires MemOk(page1, role1, freelist1, []) && d in role1 && role1[d].Directory?
    requires MemOk(page2, role2, freelist2, fl2) && a + |want| <= e <= USER_PAGES
    requires Loaded(page, role, page1, role1, d, a, want) && NonePresent(page, d, a, e)
    requires Removed(page1, role1, page2, role2, d, ScanStart(page1, d, a), e)
    ensures |fl2| == |want|
  {
    hide MemOk, Image, Ppn, FreedPages, Unmapped, ScanStart;
    var v := a + |want|;
    forall u | a <= u < v ensures Image(page1, d, u) != 0 {
      assert LoadedAt(page, role, page1, d, a + (u - a), want[u - a]);
    }
    FramesDistinct(page1, role1, freelist1, [], d, a, v);
    ListHasFree(page1, role1, freelist1, []);
    ListHasFree(page2, role2, freelist2, fl2);
    KeysAgree(page1, role1, freelist1, []);
    var s := ScanStart(page1, d, a);
    if want != [] { TablePresent(page1, d, a); }
    StartAfter(page1, d, a);
    forall p ensures p in fl2 <==> p in FramesOf(page1, d, a, v) {
      if p in role1 && role1[p].Frame? && role1[p].dir == d { DoomedPresent(page1, role1, freelist1, [], d, p); }
    }
    SameElements(fl2, FramesOf(page1, d, a, v));
  }

  lemma StartAfter(page: Memory, d: nat, a: nat)
    requires a <= USER_PAGES
    ensures a <= ScanStart(page, d, a)
  {
  }

  lemma AllocBegins(page: Memory, role: Roles, freelist: nat, fl: seq<nat>, d: nat, a: nat)
    requires MemOk(page, role, freelist, fl)
    ensures AllocSoFar(page, role, fl, page, role, fl, d, a, a, {})
  {
    hide MemOk, Loaded, LostOnly;
    LoadedNone(page, role, freelist, fl, d, a);
    assert Zeros(0) == [];
  }

  lemma AllocGoesOn(page: Memory, role: Roles, fl: seq<nat>, page': Memory, role': Roles, fl': seq<nat>, d: nat,
                    a: nat, v: nat, e: nat, lost: set<nat>)
    requires AllocSoFar(page, role, fl, page', role', fl', d, a, v, lost) && NonePresent(page, d, a, e)
    requires v < e <= USER_PAGES
    ensures Image(page', d, v) == 0 && (lost != {} ==> fl' == [])
  {
    hide AddSlots, TablesNeeded, LostOnly;
  }

  lemma AllocStep(page: Memory, role: Roles, fl: seq<nat>, page1: Memory, role1: Roles, freelist1: nat, fl1: seq<nat>,
                  page2: Memory, role2: Roles, fl2: seq<nat>, d: nat, a: nat, v: nat, lost: set<nat>, r: LoadResult)
    requires MemOk(page1, role1, freelist1, fl1) && d in role1 && role1[d].Directory? && v < USER_PAGES
    requires AllocSoFar(page, role, fl, page1, role1, fl1, d, a, v, lost) && lost == {} && !r.NoPage?
    requires LoadOutcome(page1, role1, fl1, page2, role2, fl2, d, v, Load(ZeroPage(), 7), r)
    ensures AllocSoFar(page, role, fl, page2, role2, fl2, d, a, v + 1, if r.Lost? then {r.mem} else {})
  {
    hide MemOk, Loaded, LostOnly, Slots, AddSlots, TablesNeeded, Need, ZeroPage, Zeros;
    NeedEnd(Slots(page, d), a, v);
    LoadKeepsRoles(page, role, page1, role1, d, a, Zeros(v - a));
    if r.Loading? {
      ZerosMore(v - a);
      LoadedMore(page, role, page1, role1, freelist1, fl1, page2, role2, d, a, Zeros(v - a), Load(ZeroPage(), 7));
      LoadKeepsRoles(page1, role1, page2, role2, d, v, [Load(ZeroPage(), 7)]);
      LostChain(role, role1, role2, d, {});
    } else {
      KeysAgree(page1, role1, freelist1, fl1);
      FilledApart(page1, role1, freelist1, fl1, d, r.mem, ZeroPage());
      LostOne(page1, role1, d, v, r.mem, ZeroPage(), role, {});
      LoadedThrough(page, role, page1, role1, freelist1, fl1, page2, role2, d, a, Zeros(v - a));
      assert {} + {r.mem} == {r.mem};
    }
  }

  lemma LoadKeepsRoles(page: Memory, role: Roles, page1: Memory, role1: Roles, d: nat, a: nat, want: seq<Load>)
    requires Loaded(page, role, page1, role1, d, a, want)
    ensures role.Keys == role1.Keys && forall q :: q in role && !role[q].Free? ==> role1[q] == role[q]
  {
  }

  lemma AllocUndone(page: Memory, role: Roles, freelist: nat, fl: seq<nat>, page1: Memory, role1: Roles,
                    freelist1: nat, page2: Memory, role2: Roles, freelist2: nat, fl2: seq<nat>,
                    d: nat, a: nat, v: nat, e: nat, lost: set<nat>)
    requires MemOk(page, role, freelist, fl) && d in role && role[d].Directory? && v < e <= USER_PAGES
    requires MemOk(page1, role1, freelist1, []) && d in role1 && role1[d].Directory? && MemOk(page2, role2, freelist2, fl2)
    requires AllocSoFar(page, role, fl, page1, role1, [], d, a, v, lost) && NonePresent(page, d, a, e)
    requires Removed(page1, role1, page2, role2, d, ScanStart(page1, d, a), e)
    ensures AllocOutcome(page, role, fl, page2, role2, fl2, d, a, e, false, lost)
  {
    hide MemOk, Loaded, LostOnly, Removed, AllocOutcome, Slots, AddSlots, NonePresent, Need, ScanStart;
    LoadUndone(page, role, freelist, fl, page1, role1, page2, role2, d, a, Zeros(if lost == {} then v - a else v - 1 - a), e);
    LostUndone(page1, role, role1, page2, role2, d, ScanStart(page1, d, a), e, lost);
    FreedCount(page, role, page1, role1, freelist1, page2, role2, freelist2, fl2, d, a, Zeros(if lost == {} then v - a else v - 1 - a), e);
    AllocFails(page, role, fl, page1, role1, page2, role2, fl2, d, a, v, e, lost);
  }
}

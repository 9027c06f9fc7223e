/** malloc and free of the user-level allocator (umalloc.c:24-90), on a heap whose addresses are
    counted in units of one header (8 bytes). */
module Heap {
  import opened Common
  import opened HeapList
  import opened HeapSteps

  const TWO31 := 0x8000_0000
  const HEADER := 8
  const CHUNK := 4096

  // ---- Request sizes -------------------------------------------------------------------------

  /** The units malloc looks for, in 32-bit unsigned arithmetic: the bytes rounded up and a header. */
  function Units(nbytes: nat): (n: nat)
    ensures n >= 1
  {
    (nbytes + HEADER - 1) % TWO32 / HEADER + 1
  }

  /** What sbrk is asked for: a byte count taken as a signed 32-bit number. */
  function Request(nu: nat): (r: int) {
    var u := nu * HEADER % TWO32;
    if u < TWO31 then u else u - TWO32
  }

  /** morecore's amount: the least that is enough and not below CHUNK. */
  function AtLeast(nu: nat): (r: nat)
    ensures r >= nu && r >= CHUNK && (r == nu || r == CHUNK)
  {
    if nu < CHUNK then CHUNK else nu
  }

  /** A block of Units(nbytes) units holds nbytes bytes behind its header, and at most one unit less
      would not do, for every request except the seven largest. */
  lemma UnitsCover(nbytes: nat)
    requires nbytes < TWO32
    ensures (Units(nbytes) - 1) * HEADER >= nbytes <==> nbytes <= TWO32 - HEADER
    ensures nbytes <= TWO32 - HEADER && nbytes > 0 ==> (Units(nbytes) - 2) * HEADER < nbytes
  {
    if nbytes <= TWO32 - HEADER {
      assert (nbytes + HEADER - 1) % TWO32 == nbytes + HEADER - 1;
    } else {
      assert (nbytes + HEADER - 1) % TWO32 == nbytes + HEADER - 1 - TWO32;
    }
  }

  /** sbrk is asked for exactly the bytes wanted when the request is below 2 GB less two headers, and
      for nothing or for a shrink when it is not, up to the point where Units wraps. */
  lemma RequestFits(nbytes: nat)
    requires nbytes <= TWO32 - HEADER
    ensures Request(AtLeast(Units(nbytes))) > 0 <==> nbytes <= TWO31 - 2 * HEADER
    ensures nbytes <= TWO31 - 2 * HEADER ==> Request(AtLeast(Units(nbytes))) == AtLeast(Units(nbytes)) * HEADER
  {
    assert (nbytes + HEADER - 1) % TWO32 == nbytes + HEADER - 1;
  }

  // ---- Searching around the circle -----------------------------------------------------------

  /** The index d places behind f on a circle of n. */
  function Around(f: nat, d: nat, n: nat): (i: nat)
    requires f < n && d <= n
    ensures i < n
  {
    if f + d < n then f + d else f + d - n
  }

  ghost predicate TooSmall(size: Links, fl: seq<int>, f: nat, d: nat, n: nat)
    requires f < |fl| && d <= |fl|
  {
    forall e :: 1 <= e < d ==> fl[Around(f, e, |fl|)] in size && size[fl[Around(f, e, |fl|)]] < n
  }

  /** Block a of n units is the end of the first free block of at least n units after the roving
      pointer. */
  ghost predicate FirstFitAt(size: Links, fl: seq<int>, freep: int, n: nat, a: int, f: nat, d: nat) {
    && f < |fl| && fl[f] == freep && 1 <= d <= |fl| && TooSmall(size, fl, f, d, n)
    && var p := fl[Around(f, d, |fl|)]; p in size && size[p] >= n && a + n == p + size[p]
  }

  ghost predicate FirstFit(size: Links, fl: seq<int>, freep: int, n: nat, a: int) {
    exists f, d :: FirstFitAt(size, fl, freep, n, a, f, d)
  }

  /** Some free block has at least n units. */
  ghost predicate Roomy(live: set<int>, blocks: map<int, int>, n: nat) {
    exists a :: a in blocks && a !in live && blocks[a] >= n
  }

  lemma RoomyMeans(base: int, brk: int, ptr: Links, size: Links, fl: seq<int>, live: set<int>, blocks: map<int, int>,
                   own: Owners, f: nat, n: nat)
    requires HeapOk(base, brk, ptr, size, fl, live, blocks, own) && f < |fl| && n >= 1
    requires TooSmall(size, fl, f, |fl|, n) && fl[f] in size && size[fl[f]] < n
    ensures !Roomy(live, blocks, n)
  {
    forall a | a in blocks && a !in live ensures blocks[a] < n {
      var i :| 0 <= i < |fl| && fl[i] == a;
      if i != f {
        var e := if i > f then i - f else i - f + |fl|;
        assert Around(f, e, |fl|) == i;
      }
    }
  }

  /** The blocks in use keep their places and sizes. */
  ghost predicate Undisturbed(live: set<int>, blocks: map<int, int>, blocks': map<int, int>) {
    forall x :: x in live ==> x in blocks && x in blocks' && blocks'[x] == blocks[x]
  }

  datatype Outcome = Block(addr: int) | Null | Misrequested

  class Heap {
    const base: int
    var freep: int
    var ptr: Links
    var size: Links
    var brk: int
    ghost var fl: seq<int>
    ghost var live: set<int>
    ghost var blocks: map<int, int>
    ghost var own: Owners

    /** Before the first malloc there is no list; from then on the heap is in order. */
    ghost predicate Valid()
      reads this
    {
      && 0 < base < brk
      && (freep == 0 ==> live == {} && blocks == map[] && own == map[])
      && (freep != 0 ==> freep in fl && HeapOk(base, brk, ptr, size, fl, live, blocks, own))
    }

    constructor (at: int, end: int)
      requires 0 < at < end
      ensures Valid() && live == {} && own == map[]
    {
      base, freep, brk := at, 0, end;
      ptr, size := map[], map[];
      fl, live, blocks, own := [], {}, map[], map[];
    }

    /** The scan of free: from the roving pointer around the circle to the block's place. */
    method FindPlace(bp: int, ghost k: nat) returns (p: int)
      requires Valid() && freep != 0 && bp in live && Before(fl, k, bp)
      ensures p == fl[k]
    {
      hide Partition, Consistent;
      p := freep;
      ghost var i :| 0 <= i < |fl| && fl[i] == p;
      BeforeOrder(size, fl, k, bp);
      NextInList(ptr, fl, i);
      while !(bp > p && bp < ptr[p])
        invariant 0 <= i < |fl| && p == fl[i]
        invariant p in ptr && ptr[p] == if i + 1 < |fl| then fl[i + 1] else fl[0]
        decreases if i <= k then k - i else k + |fl| - i
      {
        if i + 1 < |fl| { ApartOrder(size, fl, i, i + 1); }
        if p >= ptr[p] && (bp > p || bp < ptr[p]) {
          AtPlace(size, fl, k, bp, i);
          return;
        }
        NotAtPlace(size, fl, k, bp, i);
        p := ptr[p];
        i := if i + 1 < |fl| then i + 1 else 0;
        NextInList(ptr, fl, i);
      }
      AtPlace(size, fl, k, bp, i);
    }

    /** Links block bp in behind p, joining it to the block above and to p where they touch. */
    method Coalesce(bp: int, p: int)
      requires bp in size && p in size && p in ptr && p < bp
      requires bp + size[bp] == ptr[p] ==> ptr[p] in size && ptr[p] in ptr && ptr[p] != bp && p != ptr[p]
      modifies `ptr, `size
      ensures var high, low := old(bp + size[bp] == ptr[p]), old(p + size[p] == bp);
        var after := if high then old(ptr[ptr[p]]) else old(ptr[p]);
        var size1 := if high then old(size[bp := size[bp] + size[ptr[p]]]) else old(size);
        && ptr == old(ptr)[bp := after][p := if low then after else bp]
        && size == if low then size1[p := size1[p] + size1[bp]] else size1
    {
      if bp + size[bp] == ptr[p] {
        size := size[bp := size[bp] + size[ptr[p]]];
        ptr := ptr[bp := ptr[ptr[p]]];
      } else {
        ptr := ptr[bp := ptr[p]];
      }
      if p + size[p] == bp {
        size := size[p := size[p] + size[bp]];
        ptr := ptr[p := ptr[bp]];
      } else {
        ptr := ptr[p := bp];
      }
    }

    method Free(bp: int)
      requires Valid() && bp in live
      modifies this
      ensures Valid() && freep != 0 && brk == old(brk)
      ensures live == old(live) - {bp} && Undisturbed(live, old(blocks), blocks)
      ensures own.Keys == old(own.Keys)
      ensures freep in ptr && freep in size && old(bp in blocks)
      ensures
        || (freep in blocks && freep < bp && bp + old(blocks[bp]) <= freep + blocks[freep])
        || (ptr[freep] == bp && bp in blocks && old(blocks[bp]) <= blocks[bp])
    {
      hide HeapOk, Spaced, Consistent, Inserted, JoinedBoth, OwnersBoth, Undisturbed;
      ghost var k, low, high, after := FreeSetup(base, brk, ptr, size, fl, live, blocks, own, bp);
      var p := FindPlace(bp, k);
      ghost var ptr0, size0 := ptr, size;
      Coalesce(bp, p);
      freep := p;
      FreeKeeps(base, brk, ptr0, size0, fl, live, blocks, own, k, bp, low, high, after, ptr, size);
      FreeEffect(size0, fl, live, blocks, k, bp, low, high);
      fl, live, blocks, own := Inserted(fl, k, bp, low, high), live - {bp},
        JoinedBoth(blocks, fl, k, bp, low, high), OwnersBoth(own, fl, k, bp, low, high);
    }

    /** What the system may answer when it is asked for memory: -1 for none, or the start of a region above all
        memory handed out before. */
    ghost predicate MayAnswer(answer: int)
      reads this
    {
      answer == -1 || answer >= brk
    }

    /** The system's answer to a request for nu units. */
    method Sbrk(nu: nat, answer: int) returns (p: int)
      requires Valid() && nu >= 1 && MayAnswer(answer)
      modifies `brk
      ensures p == answer && brk == if answer == -1 then old(brk) else answer + nu
    {
      p := answer;
      if p != -1 { brk := p + nu; }
    }

    /** Obtains at least nu units, if the system has them, and frees them into the list. */
    method Morecore(nu: nat, answer: int) returns (r: Outcome)
      requires Valid() && freep != 0 && nu >= 1 && MayAnswer(answer)
      modifies this
      ensures Valid() && freep != 0 && live == old(live) && Undisturbed(live, old(blocks), blocks)
      ensures r.Misrequested? <==> Request(AtLeast(nu)) <= 0
      ensures r.Null? <==> Request(AtLeast(nu)) > 0 && answer == -1
      ensures !r.Block? ==> unchanged(this)
      ensures r.Block? ==> r.addr == freep && Grown(old(own), own, answer, brk, AtLeast(nu))
      ensures r.Block? ==> freep in ptr && freep in size && (size[freep] >= nu || (ptr[freep] in size && size[ptr[freep]] >= nu))
    {
      hide HeapOk, Undisturbed, AddedOwners, Region;
      SelfUndisturbed(base, brk, ptr, size, fl, live, blocks, own);
      var n := if nu < CHUNK then CHUNK else nu;
      if Request(n) <= 0 { return Misrequested; }
      ghost var blocks0, live0, brk0 := blocks, live, brk;
      var p := Sbrk(n, answer);
      if p == -1 { return Null; }
      GrowKeeps(base, brk0, ptr, size, fl, live, blocks, own, p, n);
      GrowUndisturbed(base, brk0, ptr, size, fl, live, blocks, own, p, n);
      size := size[p := n];
      live, blocks, own := live + {p}, blocks[p := n], AddedOwners(own, p, n);
      ghost var blocks1 := blocks;
      Free(p);
      assert live == live0;
      UndisturbedTwice(live, blocks0, blocks1, blocks);
      BlockSizes(base, brk, ptr, size, fl, live, blocks, own);
      r := Block(freep);
    }

    /** Takes n units from free block p, whose list predecessor is prevp, and leaves the roving
        pointer there. */
    method Carve(prevp: int, p: int, n: nat, ghost j: nat) returns (r: Outcome)
      requires Valid() && freep != 0 && n >= 1 && 1 <= j < |fl| && prevp == fl[j - 1] && p == fl[j]
      requires p in size && size[p] >= n
      modifies this
      ensures Valid() && brk == old(brk) && own.Keys == old(own.Keys)
      ensures r.Block? && var a := r.addr - 1;
        && a + n == p + old(size[p]) && a !in old(live) && live == old(live) + {a}
        && a in blocks && blocks[a] == n && Undisturbed(old(live), old(blocks), blocks)
    {
      hide Linked, Spaced, Partition;
      FreeBlock(base, brk, ptr, size, fl, live, blocks, own, j);
      if size[p] == n {
        TakeKeeps(base, brk, ptr, size, fl, live, blocks, own, j);
        ptr := ptr[prevp := ptr[p]];
        fl, live := fl[..j] + fl[j + 1..], live + {p};
        assert fl[j - 1] == prevp;
        r := Block(p + 1);
      } else {
        ghost var c := p + size[p] - n;
        SplitKeeps(base, brk, ptr, size, fl, live, blocks, own, j, n, c);
        size := size[p := size[p] - n];
        var q := p + size[p];
        size := size[q := n];
        live, blocks, own := live + {c}, Divided(blocks, p, n), DividedOwners(own, p, c);
        r := Block(q + 1);
      }
      freep := prevp;
      Above(base, brk, ptr, size, fl, live, blocks, own);
    }

    /** The loop of malloc, from the block after the roving pointer. */
    method Search(n: nat, answer: int) returns (r: Outcome)
      requires Valid() && freep != 0 && n >= 1 && MayAnswer(answer)
      modifies this
      ensures Valid() && Undisturbed(old(live), old(blocks), blocks)
      ensures r.Block? ==> var a := r.addr - 1; a !in old(live) && live == old(live) + {a} && a in blocks && blocks[a] == n
      ensures !r.Block? ==> unchanged(this)
      ensures old(Roomy(live, blocks, n)) ==>
        && r.Block? && own.Keys == old(own.Keys) && brk == old(brk)
        && FirstFit(old(size), old(fl), old(freep), n, r.addr - 1)
      ensures !old(Roomy(live, blocks, n)) ==>
        && (r.Misrequested? <==> Request(AtLeast(n)) <= 0)
        && (r.Null? <==> Request(AtLeast(n)) > 0 && answer == -1)
        && (r.Block? ==> Grown(old(own), own, answer, brk, AtLeast(n)))
    {
      hide HeapOk, Undisturbed, TooSmall, FirstFit, Roomy, Grown, Around;
      var prevp := freep;
      SelfUndisturbed(base, brk, ptr, size, fl, live, blocks, own);
      ghost var f :| 0 <= f < |fl| && fl[f] == freep;
      ghost var d, grown := 1, false;
      ghost var live0, blocks0, own0 := live, blocks, own;
      Step(base, brk, ptr, size, fl, live, blocks, own, f, d, n);
      var p := ptr[prevp];
      while true
        invariant Valid() && freep != 0 && live == live0 && Undisturbed(live0, blocks0, blocks)
        invariant 0 <= f < |fl| && fl[f] == freep && 1 <= d <= |fl| && TooSmall(size, fl, f, d, n)
        invariant prevp == fl[Around(f, d - 1, |fl|)] && p == fl[Around(f, d, |fl|)]
        invariant prevp in ptr && p in ptr && p in size && freep in size && p == ptr[prevp]
        invariant d == |fl| <==> p == freep
        invariant !grown ==> unchanged(this)
        invariant grown ==> size[freep] >= n || (d == 1 && size[p] >= n)
        invariant grown ==> !Roomy(live0, blocks0, n) && Grown(own0, own, answer, brk, AtLeast(n)) && Request(AtLeast(n)) > 0 && answer != -1
        decreases if grown then 0 else 1, |fl| - d
      {
        if size[p] >= n {
          Found(base, brk, ptr, size, fl, live, blocks, own, f, d, n);
          ghost var blocks1, own1 := blocks, own;
          r := Carve(prevp, p, n, Around(f, d, |fl|));
          UndisturbedTwice(live0, blocks0, blocks1, blocks);
          if grown { GrownSame(own0, own1, own, answer, brk, AtLeast(n)); }
          return;
        }
        if p == freep {
          RoomyMeans(base, brk, ptr, size, fl, live, blocks, own, f, n);
          r := Morecore(n, answer);
          if !r.Block? { return; }
          p := r.addr;
          grown := true;
          f :| 0 <= f < |fl| && fl[f] == freep;
          d := 0;
        }
        d := d + 1;
        Step(base, brk, ptr, size, fl, live, blocks, own, f, d, n);
        prevp := p;
        p := ptr[p];
      }
    }

    method Malloc(nbytes: nat, answer: int) returns (r: Outcome)
      requires Valid() && nbytes < TWO32 && MayAnswer(answer)
      modifies this
      ensures Valid()
      ensures Undisturbed(old(live), old(blocks), blocks)
      // A block of the right size, until now not in use, is handed out.
      ensures r.Block? ==> var a := r.addr - 1;
        a !in old(live) && live == old(live) + {a} && a in blocks && blocks[a] == Units(nbytes)
      // Or nothing changes.
      ensures !r.Block? ==> live == old(live) && blocks == old(blocks) && own == old(own) && brk == old(brk)
      // A free block that is large enough is used, and the first such after the roving pointer.
      ensures old(Roomy(live, blocks, Units(nbytes))) ==>
        && r.Block? && own.Keys == old(own.Keys) && brk == old(brk)
        && FirstFit(old(size), old(fl), old(freep), Units(nbytes), r.addr - 1)
      // Otherwise the system is asked once, and its answer decides.
      ensures !old(Roomy(live, blocks, Units(nbytes))) ==>
        && (r.Misrequested? <==> Request(AtLeast(Units(nbytes))) <= 0)
        && (r.Null? <==> Request(AtLeast(Units(nbytes))) > 0 && answer == -1)
        && (r.Block? ==> Grown(old(own), own, answer, brk, AtLeast(Units(nbytes))))
    {
      hide HeapOk, Undisturbed, FirstFit, Roomy, Grown, Request, AtLeast;
      var n := Units(nbytes);
      if freep == 0 {
        freep := base;
        ptr, size := ptr[base := base], size[base := 0];
        fl := [base];
        FirstList(base, brk, ptr, size);
        NoBlocks(n);
      }
      r := Search(n, answer);
    }
  }

  // ---- Live blocks and conservation ----------------------------------------------------------

  /** Blocks in use never overlap each other or a free block, and lie in memory obtained. */
  lemma LiveBlocksApart(base: int, brk: int, ptr: Links, size: Links, fl: seq<int>, live: set<int>,
                        blocks: map<int, int>, own: Owners, a: int, c: int)
    requires HeapOk(base, brk, ptr, size, fl, live, blocks, own) && a in live && c in blocks && a != c
    ensures a in blocks && (a + blocks[a] <= c || c + blocks[c] <= a)
    ensures forall u :: Within(u, a, blocks[a]) ==> u in own && base < u < brk
  {
    hide Linked, Spaced;
    if a < c { BlocksDisjoint(blocks, own, a, c); } else { BlocksDisjoint(blocks, own, c, a); }
    forall u | Within(u, a, blocks[a]) ensures u in own && base < u < brk { assert own[u] == a; }
  }

  ghost function Total(blocks: map<int, int>, which: set<int>): (n: int)
    requires which <= blocks.Keys
    decreases which
  {
    if which == {} then 0 else
      var a := Pick(which);
      blocks[a] + Total(blocks, which - {a})
  }

  ghost function Pick<T(!new)>(s: set<T>): (a: T)
    requires s != {}
    ensures a in s
  {
    var a :| a in s;
    a
  }

  lemma {:induction false} RegionSize(a: int, n: nat)
    ensures |Region(a, n)| == n
  {
    if n > 0 {
      RegionSize(a, n - 1);
      assert Region(a, n) == Region(a, n - 1) + {a + n - 1};
    }
  }

  /** The units of some of the blocks. */
  function Covered(own: Owners, which: set<int>): (r: set<int>)
    ensures forall u :: u in r <==> u in own && own[u] in which
  {
    set u | u in own && own[u] in which
  }

  lemma CoveredOne(blocks: map<int, int>, own: Owners, a: int)
    requires Partition(blocks, own) && a in blocks && blocks[a] >= 0
    ensures Covered(own, {a}) == Region(a, blocks[a])
  {
    forall u ensures u in Covered(own, {a}) <==> u in Region(a, blocks[a]) {
      if u in Region(a, blocks[a]) { assert Within(u, a, blocks[a]); }
    }
  }

  lemma CoveredBoth(own: Owners, s: set<int>, t: set<int>)
    requires s !! t
    ensures |Covered(own, s + t)| == |Covered(own, s)| + |Covered(own, t)|
  {
    assert Covered(own, s + t) == Covered(own, s) + Covered(own, t);
    assert Covered(own, s) !! Covered(own, t);
  }

  lemma {:induction false} TotalCovered(blocks: map<int, int>, own: Owners, which: set<int>)
    requires Partition(blocks, own) && which <= blocks.Keys && (forall a :: a in blocks ==> blocks[a] >= 1)
    ensures Total(blocks, which) == |Covered(own, which)|
    decreases which
  {
    hide Partition, Covered, Region;
    if which == {} {
      assert Covered(own, which) == {};
    } else {
      var a := Pick(which);
      TotalCovered(blocks, own, which - {a});
      RegionSize(a, blocks[a]);
      CoveredOne(blocks, own, a);
      CoveredBoth(own, which - {a}, {a});
      assert which - {a} + {a} == which;
    }
  }

  lemma Accounts(base: int, brk: int, ptr: Links, size: Links, fl: seq<int>, live: set<int>, blocks: map<int, int>,
                 own: Owners)
    requires HeapOk(base, brk, ptr, size, fl, live, blocks, own)
    ensures Partition(blocks, own) && (forall a :: a in blocks ==> blocks[a] >= 1) && live <= blocks.Keys
    ensures Covered(own, blocks.Keys) == own.Keys
  {
    hide Linked, Spaced;
    forall a | a in live ensures a in blocks.Keys {}
    forall u ensures u in Covered(own, blocks.Keys) <==> u in own.Keys {}
  }

  /** Free units and live units add up to the units obtained from sbrk. */
  lemma UnitsConserved(base: int, brk: int, ptr: Links, size: Links, fl: seq<int>, live: set<int>,
                       blocks: map<int, int>, own: Owners)
    requires HeapOk(base, brk, ptr, size, fl, live, blocks, own)
    ensures live <= blocks.Keys && Total(blocks, live) + Total(blocks, blocks.Keys - live) == |own.Keys|
  {
    hide HeapOk, Partition, Covered, Total;
    var free := blocks.Keys - live;
    Accounts(base, brk, ptr, size, fl, live, blocks, own);
    TotalCovered(blocks, own, live);
    TotalCovered(blocks, own, free);
    CoveredBoth(own, live, free);
    assert live + free == blocks.Keys;
  }

  /** The units owned are those of before and one new region of n units above them all. */
  ghost predicate Grown(own: Owners, own': Owners, start: int, brk: int, n: nat) {
    brk == start + n && own'.Keys == own.Keys + Region(start, n)
  }

  lemma GrownSame(own: Owners, own1: Owners, own2: Owners, start: int, brk: int, n: nat)
    requires Grown(own, own1, start, brk, n) && own2.Keys == own1.Keys
    ensures Grown(own, own2, start, brk, n)
  {
  }

  lemma NoBlocks(n: nat)
    ensures !Roomy({}, map[], n)
  {
  }

  lemma FirstList(base: int, brk: int, ptr: Links, size: Links)
    requires 0 < base < brk && base in ptr && ptr[base] == base && base in size && size[base] == 0
    ensures HeapOk(base, brk, ptr, size, [base], {}, map[], map[])
  {
  }

  lemma FreeBlock(base: int, brk: int, ptr: Links, size: Links, fl: seq<int>, live: set<int>, blocks: map<int, int>,
                  own: Owners, j: nat)
    requires HeapOk(base, brk, ptr, size, fl, live, blocks, own) && 1 <= j < |fl|
    ensures fl[j] in blocks && fl[j] in ptr && fl[j] in size && size[fl[j]] == blocks[fl[j]] && fl[j] !in live
    ensures fl[j - 1] != fl[j] && Undisturbed(live, blocks, blocks)
  {
    ApartOrder(size, fl, j - 1, j);
    NextInList(ptr, fl, j);
  }

  lemma Above(base: int, brk: int, ptr: Links, size: Links, fl: seq<int>, live: set<int>, blocks: map<int, int>,
              own: Owners)
    requires HeapOk(base, brk, ptr, size, fl, live, blocks, own)
    ensures forall i :: 0 <= i < |fl| ==> fl[i] >= base
  {
    forall i | 1 <= i < |fl| ensures fl[i] >= base { ApartOrder(size, fl, 0, i); }
  }

  /** One step along the circle from the roving pointer. */
  lemma Step(base: int, brk: int, ptr: Links, size: Links, fl: seq<int>, live: set<int>, blocks: map<int, int>,
             own: Owners,
             f: nat, d: nat, n: nat)
    requires HeapOk(base, brk, ptr, size, fl, live, blocks, own) && f < |fl| && 1 <= d <= |fl|
    requires d > 1 ==> var q := fl[Around(f, d - 1, |fl|)]; TooSmall(size, fl, f, d - 1, n) && q in size && size[q] < n
    ensures TooSmall(size, fl, f, d, n) && fl[f] in size
    ensures var p, q := fl[Around(f, d, |fl|)], fl[Around(f, d - 1, |fl|)];
      && q in ptr && ptr[q] == p && p in ptr && p in size && (d == |fl| <==> p == fl[f]) && (d == 1 ==> q == fl[f])
  {
    hide Linked, Partition, Consistent;
    var i, j := Around(f, d - 1, |fl|), Around(f, d, |fl|);
    NextInList(ptr, fl, i);
    NextInList(ptr, fl, j);
    if j < f { ApartOrder(size, fl, j, f); } else if f < j { ApartOrder(size, fl, f, j); }
  }

  /** The block found is a free one, and the first that fits. */
  lemma Found(base: int, brk: int, ptr: Links, size: Links, fl: seq<int>, live: set<int>, blocks: map<int, int>,
              own: Owners,
              f: nat, d: nat, n: nat)
    requires HeapOk(base, brk, ptr, size, fl, live, blocks, own) && f < |fl| && 1 <= d <= |fl| && n >= 1
    requires TooSmall(size, fl, f, d, n)
    requires var p := fl[Around(f, d, |fl|)]; p in size && size[p] >= n
    ensures var j := Around(f, d, |fl|); j >= 1 && Around(f, d - 1, |fl|) == j - 1
    ensures var p := fl[Around(f, d, |fl|)]; Roomy(live, blocks, n) && FirstFit(size, fl, fl[f], n, p + size[p] - n)
  {
    var p := fl[Around(f, d, |fl|)];
    assert FirstFitAt(size, fl, fl[f], n, p + size[p] - n, f, d);
    assert p in blocks && p !in live && blocks[p] >= n;
  }

  lemma GrowUndisturbed(base: int, brk: int, ptr: Links, size: Links, fl: seq<int>, live: set<int>,
                        blocks: map<int, int>, own: Owners,
                        a: int, n: int)
    requires HeapOk(base, brk, ptr, size, fl, live, blocks, own) && a !in blocks
    ensures a !in live && Undisturbed(live, blocks, blocks[a := n])
  {
  }

  lemma SelfUndisturbed(base: int, brk: int, ptr: Links, size: Links, fl: seq<int>, live: set<int>,
                        blocks: map<int, int>, own: Owners)
    requires HeapOk(base, brk, ptr, size, fl, live, blocks, own)
    ensures Undisturbed(live, blocks, blocks)
  {
  }

  lemma UndisturbedTwice(live: set<int>, b0: map<int, int>, b1: map<int, int>, b2: map<int, int>)
    requires Undisturbed(live, b0, b1) && Undisturbed(live, b1, b2)
    ensures Undisturbed(live, b0, b2)
  {
  }

  lemma BlockSizes(base: int, brk: int, ptr: Links, size: Links, fl: seq<int>, live: set<int>, blocks: map<int, int>,
                   own: Owners)
    requires HeapOk(base, brk, ptr, size, fl, live, blocks, own)
    ensures forall a :: a in blocks ==> a in size && size[a] == blocks[a]
  {
  }

  lemma AtPlace(size: Links, fl: seq<int>, k: nat, bp: int, i: nat)
    requires Spaced(size, fl) && Before(fl, k, bp) && i < |fl|
    requires fl[i] < bp && (i + 1 < |fl| ==> bp < fl[i + 1])
    ensures i == k
  {
    if i < k { ApartOrder(size, fl, i, k); if i + 1 < k { ApartOrder(size, fl, i + 1, k); } }
    if k < i { if k + 1 < i { ApartOrder(size, fl, k + 1, i); } }
  }

  lemma NotAtPlace(size: Links, fl: seq<int>, k: nat, bp: int, i: nat)
    requires Spaced(size, fl) && Before(fl, k, bp) && i < |fl|
    requires var next := if i + 1 < |fl| then fl[i + 1] else fl[0];
      !(bp > fl[i] && bp < next) && !(fl[i] >= next && (bp > fl[i] || bp < next))
    ensures i != k
  {
    if i > 0 { ApartOrder(size, fl, 0, i); }
  }

  /** Where a live block goes back, and which of its neighbours it will be joined to. */
  lemma FreeSetup(base: int, brk: int, ptr: Links, size: Links, fl: seq<int>, live: set<int>, blocks: map<int, int>,
                  own: Owners, b: int)
    returns (k: nat, low: bool, high: bool, after: int)
    requires HeapOk(base, brk, ptr, size, fl, live, blocks, own) && b in live
    ensures b in blocks && b in size && size[b] == blocks[b]
    ensures Before(fl, k, b) && fl[k] in ptr && fl[k] in size && fl[k] >= base
    ensures fl[k] + size[fl[k]] <= b && (k + 1 < |fl| ==> b + blocks[b] <= fl[k + 1])
    ensures low <==> fl[k] + size[fl[k]] == b
    ensures low ==> fl[k] in blocks && fl[k] != b && fl[k] + blocks[fl[k]] == b
    ensures high <==> k + 1 < |fl| && b + blocks[b] == fl[k + 1]
    ensures high <==> b + size[b] == ptr[fl[k]]
    ensures high ==> fl[k + 1] == ptr[fl[k]] && fl[k + 1] in blocks && fl[k + 1] in size && fl[k + 1] in ptr && fl[k + 1] != b && fl[k] != fl[k + 1]
    ensures after == if high then ptr[ptr[fl[k]]] else ptr[fl[k]]
    ensures Spaced(size, fl) && Consistent(size, fl, live, blocks)
  {
    hide Linked, Spaced, Partition, Consistent;
    LiveFacts(base, brk, ptr, size, fl, live, blocks, own, b);
    k := FitsBetween(size, fl, live, blocks, own, b);
    NextInList(ptr, fl, k);
    low, high := fl[k] + size[fl[k]] == b, k + 1 < |fl| && b + blocks[b] == fl[k + 1];
    FreeSides(size, fl, live, blocks, k, b, low, high);
    if high { NextInList(ptr, fl, k + 1); }
    after := if high then ptr[ptr[fl[k]]] else ptr[fl[k]];
  }

  /** A freed block ends up inside a free block: the one below it or its own. */
  lemma FreeEffect(size: Links, fl: seq<int>, live: set<int>, blocks: map<int, int>, k: nat, b: int, low: bool,
                   high: bool)
    requires Spaced(size, fl) && Consistent(size, fl, live, blocks) && b in live && b in blocks && Before(fl, k, b)
    requires low ==> fl[k] in blocks && fl[k] != b && fl[k] + blocks[fl[k]] == b
    requires high ==> k + 1 < |fl| && fl[k + 1] in blocks && fl[k + 1] != b && fl[k] != fl[k + 1]
    ensures Undisturbed(live - {b}, blocks, JoinedBoth(blocks, fl, k, b, low, high))
    ensures fl[k] in Inserted(fl, k, b, low, high)
    ensures low ==> fl[k] in JoinedBoth(blocks, fl, k, b, low, high) && b + blocks[b] <= fl[k] + JoinedBoth(blocks, fl, k, b, low, high)[fl[k]]
    ensures !low ==> b in JoinedBoth(blocks, fl, k, b, low, high) && blocks[b] <= JoinedBoth(blocks, fl, k, b, low, high)[b]
  {
    assert Inserted(fl, k, b, low, high)[k] == fl[k];
  }

  lemma LiveFacts(base: int, brk: int, ptr: Links, size: Links, fl: seq<int>, live: set<int>, blocks: map<int, int>,
                  own: Owners, b: int)
    requires HeapOk(base, brk, ptr, size, fl, live, blocks, own) && b in live
    ensures b in blocks && b in size && size[b] == blocks[b] >= 1 && b > base && b !in fl
  {
  }
}

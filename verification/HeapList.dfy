/** The free list of the user-level allocator (umalloc.c; section 8.7 of The C Programming
    Language, 2nd edition): headers at addresses counted in header-sized units, linked in a circle
    through `ptr` in address order, starting from the static header `base` of size 0. */
module HeapList {

  type Links = map<int, int>

  /** Who owns each unit obtained from sbrk: the header of the block it lies in. */
  type Owners = map<int, int>

  // ---- Chains --------------------------------------------------------------------------------

  /** Following `ptr` from the first element of s visits all of s. */
  predicate Chain(ptr: Links, s: seq<int>) {
    forall i :: 0 <= i < |s| - 1 ==> s[i] in ptr && ptr[s[i]] == s[i + 1]
  }

  lemma ChainJoin(ptr: Links, a: seq<int>, b: seq<int>)
    requires Chain(ptr, a) && Chain(ptr, b) && a != [] && b != []
    requires a[|a| - 1] in ptr && ptr[a[|a| - 1]] == b[0]
    ensures Chain(ptr, a + b)
  {
    var s := a + b;
    forall i | 0 <= i < |s| - 1 ensures s[i] in ptr && ptr[s[i]] == s[i + 1] {
      if i >= |a| { assert s[i] == b[i - |a|] && s[i + 1] == b[i - |a| + 1]; }
    }
  }

  lemma ChainSplit(ptr: Links, s: seq<int>, k: nat)
    requires Chain(ptr, s) && k <= |s|
    ensures Chain(ptr, s[..k]) && Chain(ptr, s[k..])
    ensures 0 < k < |s| ==> s[k - 1] in ptr && ptr[s[k - 1]] == s[k]
  {
    var b := s[k..];
    forall i | 0 <= i < |b| - 1 ensures b[i] in ptr && ptr[b[i]] == b[i + 1] {
      assert b[i] == s[k + i] && b[i + 1] == s[k + i + 1];
    }
  }

  lemma ChainFrame(ptr: Links, ptr': Links, s: seq<int>)
    requires Chain(ptr, s)
    requires forall i :: 0 <= i < |s| - 1 ==> s[i] in ptr' && (s[i] in ptr ==> ptr'[s[i]] == ptr[s[i]])
    ensures Chain(ptr', s)
  {
  }

  /** `ptr` leads around the list and back to its first header. */
  predicate Linked(ptr: Links, fl: seq<int>) {
    fl != [] && Chain(ptr, fl + [fl[0]])
  }

  // ---- Spacing -------------------------------------------------------------------------------

  /** Each block ends before the next one begins, and does not even touch it. */
  predicate Apart(size: Links, s: seq<int>) {
    && (forall i :: 0 <= i < |s| ==> s[i] in size && size[s[i]] >= 0)
    && (forall i :: 0 <= i < |s| - 1 ==> s[i] + size[s[i]] < s[i + 1])
  }

  lemma ApartJoin(size: Links, a: seq<int>, b: seq<int>)
    requires Apart(size, a) && Apart(size, b)
    requires a != [] && b != [] ==> a[|a| - 1] + size[a[|a| - 1]] < b[0]
    ensures Apart(size, a + b)
  {
    var s := a + b;
    forall i | 0 <= i < |s| - 1 ensures s[i] + size[s[i]] < s[i + 1] {
      if i >= |a| { assert s[i] == b[i - |a|] && s[i + 1] == b[i - |a| + 1]; }
    }
  }

  lemma ApartSplit(size: Links, s: seq<int>, k: nat)
    requires Apart(size, s) && k <= |s|
    ensures Apart(size, s[..k]) && Apart(size, s[k..])
    ensures 0 < k < |s| ==> s[k - 1] + size[s[k - 1]] < s[k]
  {
    var b := s[k..];
    forall i | 0 <= i < |b| - 1 ensures b[i] + size[b[i]] < b[i + 1] {
      assert b[i] == s[k + i] && b[i + 1] == s[k + i + 1];
    }
  }

  lemma ApartFrame(size: Links, size': Links, s: seq<int>)
    requires Apart(size, s)
    requires forall i :: 0 <= i < |s| ==> s[i] in size' && (s[i] in size ==> size'[s[i]] == size[s[i]])
    ensures Apart(size', s)
  {
  }

  lemma {:induction false} ApartOrder(size: Links, s: seq<int>, i: nat, j: nat)
    requires Apart(size, s) && i < j < |s|
    ensures s[i] + size[s[i]] < s[j]
  {
    if i + 1 < j {
      ApartOrder(size, s, i, j - 1);
      assert s[j - 1] + size[s[j - 1]] < s[j];
    }
  }

  /** The free list: the base, of size 0, and then the free blocks in address order. */
  predicate Spaced(size: Links, fl: seq<int>) {
    && fl != [] && Apart(size, fl) && size[fl[0]] == 0
    && (forall i :: 1 <= i < |fl| ==> size[fl[i]] >= 1)
  }

  // ---- Where a block belongs -----------------------------------------------------------------

  /** The free block k is the last one below address b. */
  predicate Before(fl: seq<int>, k: nat, b: int) {
    k < |fl| && fl[k] < b && (k + 1 < |fl| ==> b < fl[k + 1])
  }

  lemma FindBefore(fl: seq<int>, b: int) returns (k: nat)
    requires fl != [] && fl[0] < b && b !in fl
    ensures Before(fl, k, b)
  {
    k := 0;
    while k + 1 < |fl| && fl[k + 1] < b
      invariant k < |fl| && fl[k] < b
    {
      k := k + 1;
    }
  }

  /** Entries below k lie below b and entries above k above it. */
  lemma BeforeOrder(size: Links, fl: seq<int>, k: nat, b: int)
    requires Spaced(size, fl) && Before(fl, k, b)
    ensures forall i :: 0 <= i < k ==> fl[i] < fl[k]
    ensures forall i :: k < i < |fl| ==> b < fl[i]
    ensures b !in fl
  {
    forall i: nat | i < k ensures fl[i] < fl[k] { ApartOrder(size, fl, i, k); }
    forall i | k < i < |fl| ensures b < fl[i] {
      if k + 1 < i { ApartOrder(size, fl, k + 1, i); }
    }
  }

  // ---- Putting a block back ------------------------------------------------------------------

  /** The list after block b has been put behind entry k; `low` and `high` say that it is joined to
      the free block below and above it. */
  function Inserted(fl: seq<int>, k: nat, b: int, low: bool, high: bool): (r: seq<int>)
    requires k < |fl| && (high ==> k + 1 < |fl|)
    ensures |r| > 0 && r[0] == fl[0]
  {
    fl[..k + 1] + (if low then [] else [b]) + (if high then fl[k + 2..] else fl[k + 1..])
  }

  /** The links on either side of the place where b goes in are untouched. */
  lemma LinksAround(ptr: Links, size: Links, fl: seq<int>, k: nat, b: int, m: nat, ptr': Links)
    requires Linked(ptr, fl) && Spaced(size, fl) && Before(fl, k, b) && k < m <= |fl|
    requires forall x :: x in ptr ==> x in ptr'
    requires forall x :: x in ptr && x != b && x != fl[k] ==> ptr'[x] == ptr[x]
    ensures Chain(ptr', fl[..k + 1]) && Chain(ptr', fl[m..] + [fl[0]])
  {
    var whole := fl + [fl[0]];
    BeforeOrder(size, fl, k, b);
    ChainSplit(ptr, whole, k + 1);
    ChainSplit(ptr, whole, m);
    assert whole[..k + 1] == fl[..k + 1] && whole[m..] == fl[m..] + [fl[0]];
    ChainFrame(ptr, ptr', fl[..k + 1]);
    forall i | 0 <= i < |fl[m..]| ensures fl[m..][i] > b { assert fl[m..][i] == fl[m + i]; }
    ChainFrame(ptr, ptr', fl[m..] + [fl[0]]);
  }

  lemma NextInList(ptr: Links, fl: seq<int>, i: nat)
    requires Linked(ptr, fl) && i < |fl|
    ensures fl[i] in ptr && ptr[fl[i]] == if i + 1 < |fl| then fl[i + 1] else fl[0]
  {
    var whole := fl + [fl[0]];
    assert whole[i] in ptr && ptr[whole[i]] == whole[i + 1];
  }

  lemma LinkedInserted(ptr: Links, size: Links, fl: seq<int>, k: nat, b: int, low: bool, high: bool, after: int,
                       ptr': Links)
    requires Linked(ptr, fl) && Spaced(size, fl) && Before(fl, k, b) && (high ==> k + 1 < |fl|)
    requires fl[k] in ptr && (high ==> ptr[fl[k]] in ptr) && after == if high then ptr[ptr[fl[k]]] else ptr[fl[k]]
    requires ptr' == ptr[b := after][fl[k] := if low then after else b]
    ensures Linked(ptr', Inserted(fl, k, b, low, high))
  {
    hide Chain, Apart;
    var m := if high then k + 2 else k + 1;
    var front, back := fl[..k + 1], fl[m..] + [fl[0]];
    LinksAround(ptr, size, fl, k, b, m, ptr');
    NextInList(ptr, fl, k);
    if high { NextInList(ptr, fl, k + 1); }
    assert after == back[0];
    var r := Inserted(fl, k, b, low, high);
    if low {
      ChainJoin(ptr', front, back);
      assert r + [r[0]] == front + back;
    } else {
      assert Chain(ptr', [b]) by { ChainOne(ptr', b); }
      ChainJoin(ptr', [b], back);
      ChainJoin(ptr', front, [b] + back);
      assert r + [r[0]] == front + ([b] + back);
    }
  }

  lemma ChainOne(ptr: Links, b: int)
    ensures Chain(ptr, [b])
  {
  }

  /** The spacing on either side of the place where b goes in is untouched. */
  lemma SpacingAround(size: Links, fl: seq<int>, k: nat, b: int, m: nat, size': Links)
    requires Spaced(size, fl) && Before(fl, k, b) && k < m <= |fl|
    requires forall x :: x in size ==> x in size'
    requires forall x :: x in size && x != b && x != fl[k] ==> size'[x] == size[x]
    ensures Apart(size', fl[..k]) && Apart(size', fl[m..])
    ensures m < |fl| ==> fl[m - 1] in size && fl[m - 1] + size[fl[m - 1]] < fl[m]
    ensures k > 0 ==> fl[k - 1] in size' && fl[k - 1] + size'[fl[k - 1]] < fl[k]
    ensures forall i :: 1 <= i < k ==> size'[fl[i]] >= 1
    ensures forall i :: m <= i < |fl| ==> size'[fl[i]] >= 1 && fl[i] > b
  {
    BeforeOrder(size, fl, k, b);
    ApartSplit(size, fl, k);
    ApartSplit(size, fl, m);
    ApartFrame(size, size', fl[..k]);
    forall i | 0 <= i < |fl[m..]| ensures fl[m..][i] > b { assert fl[m..][i] == fl[m + i]; }
    ApartFrame(size, size', fl[m..]);
  }

  lemma ApartOne(size: Links, b: int)
    requires b in size && size[b] >= 0
    ensures Apart(size, [b])
  {
  }

  predicate Positive(size: Links, s: seq<int>) {
    forall i :: 0 <= i < |s| ==> s[i] in size && size[s[i]] >= 1
  }

  /** A list put together from what lies before entry x, x itself, maybe b, and the rest. */
  lemma SpacedParts(size: Links, front: seq<int>, x: int, mid: seq<int>, back: seq<int>)
    requires Apart(size, front) && Apart(size, back) && x in size && Apart(size, mid) && |mid| <= 1
    requires front == [] ==> size[x] == 0
    requires front != [] ==> size[x] >= 1 && size[front[0]] == 0 && Positive(size, front[1..]) && front[|front| - 1] + size[front[|front| - 1]] < x
    requires Positive(size, mid) && Positive(size, back)
    requires mid != [] ==> x + size[x] < mid[0]
    requires back != [] ==> (if mid == [] then x + size[x] else mid[0] + size[mid[0]]) < back[0]
    ensures Spaced(size, front + [x] + mid + back)
  {
    ApartOne(size, x);
    ApartJoin(size, front, [x]);
    ApartJoin(size, front + [x], mid);
    ApartJoin(size, front + [x] + mid, back);
    var r := front + [x] + mid + back;
    forall i | 1 <= i < |r| ensures size[r[i]] >= 1 {
      if i < |front| {
        assert r[i] == front[1..][i - 1];
      } else if i > |front| {
        assert r[i] == (mid + back)[i - |front| - 1];
      }
    }
  }

  /** The neighbours of the place where b goes in, after the change of sizes. */
  lemma FrontParts(size: Links, fl: seq<int>, k: nat, b: int, size': Links)
    requires Spaced(size, fl) && Before(fl, k, b)
    requires forall x :: x in size ==> x in size'
    requires forall x :: x in size && x != b && x != fl[k] ==> size'[x] == size[x]
    ensures Apart(size', fl[..k]) && fl[k] in size'
    ensures k > 0 ==> size'[fl[0]] == 0 && Positive(size', fl[..k][1..]) && fl[k - 1] in size' && fl[k - 1] + size'[fl[k - 1]] < fl[k]
  {
    SpacingAround(size, fl, k, b, k + 1, size');
    BeforeOrder(size, fl, k, b);
    if k > 0 {
      forall i | 0 <= i < |fl[..k][1..]| ensures size'[fl[..k][1..][i]] >= 1 { assert fl[..k][1..][i] == fl[i + 1]; }
    }
  }

  lemma BackParts(size: Links, fl: seq<int>, k: nat, b: int, m: nat, size': Links)
    requires Spaced(size, fl) && Before(fl, k, b) && k < m <= |fl|
    requires forall x :: x in size ==> x in size'
    requires forall x :: x in size && x != b && x != fl[k] ==> size'[x] == size[x]
    ensures Apart(size', fl[m..]) && Positive(size', fl[m..])
    ensures m < |fl| ==> fl[m - 1] in size && fl[m - 1] + size[fl[m - 1]] < fl[m] && b < fl[m]
  {
    SpacingAround(size, fl, k, b, m, size');
    forall i | 0 <= i < |fl[m..]| ensures fl[m..][i] in size' && size'[fl[m..][i]] >= 1 { assert fl[m..][i] == fl[m + i]; }
  }

  lemma SpacedInserted(size: Links, fl: seq<int>, k: nat, b: int, n: int, low: bool, high: bool, joined: int,
                       size': Links)
    requires Spaced(size, fl) && Before(fl, k, b) && n >= 1
    requires fl[k] + size[fl[k]] <= b && (k + 1 < |fl| ==> b + n < fl[k + 1] || high)
    requires low <==> fl[k] + size[fl[k]] == b
    requires high ==> k + 1 < |fl| && b + n == fl[k + 1]
    requires joined == if high then n + size[fl[k + 1]] else n
    requires size' == if low then size[b := joined][fl[k] := size[fl[k]] + joined] else size[b := joined]
    ensures Spaced(size', Inserted(fl, k, b, low, high))
  {
    hide Apart, Spaced, Positive, Inserted;
    var m := if high then k + 2 else k + 1;
    SpacedAt(size, fl, k);
    if high { SpacedAt(size, fl, k + 1); }
    FrontParts(size, fl, k, b, size');
    BackParts(size, fl, k, b, m, size');
    SpacedSplice(size', fl, k, b, m, low, joined, size[fl[k]]);
    InsertedParts(fl, k, b, low, high);
  }

  lemma SpacedAt(size: Links, fl: seq<int>, k: nat)
    requires Spaced(size, fl) && k < |fl|
    ensures fl[k] in size && size[fl[k]] >= 0 && (k == 0 <==> size[fl[k]] == 0)
  {
  }

  lemma InsertedParts(fl: seq<int>, k: nat, b: int, low: bool, high: bool)
    requires k < |fl| && (high ==> k + 1 < |fl|)
    ensures Inserted(fl, k, b, low, high) == fl[..k] + [fl[k]] + (if low then [] else [b]) + fl[if high then k + 2 else k + 1..]
  {
    assert fl[..k + 1] == fl[..k] + [fl[k]];
  }

  lemma SpacedSplice(s: Links, fl: seq<int>, k: nat, b: int, m: nat, low: bool, joined: int, xs: int)
    requires k < m <= |fl| && Apart(s, fl[..k]) && Apart(s, fl[m..]) && Positive(s, fl[m..])
    requires fl[k] in s && b in s && s[b] == joined >= 1 && xs >= 0 && (k == 0 <==> xs == 0)
    requires s[fl[k]] == xs + (if low then joined else 0) && fl[k] + xs <= b && (low <==> fl[k] + xs == b) && fl[k] < b
    requires k > 0 ==> s[fl[0]] == 0 && Positive(s, fl[..k][1..]) && fl[k - 1] in s && fl[k - 1] + s[fl[k - 1]] < fl[k]
    requires m < |fl| ==> b + joined < fl[m]
    ensures Spaced(s, fl[..k] + [fl[k]] + (if low then [] else [b]) + fl[m..])
  {
    hide Apart, Spaced, Positive;
    if low {
      NoneApart(s);
      SpacedParts(s, fl[..k], fl[k], [], fl[m..]);
    } else {
      ApartOne(s, b);
      PositiveOne(s, b);
      SpacedParts(s, fl[..k], fl[k], [b], fl[m..]);
    }
  }

  lemma PositiveOne(size: Links, b: int)
    requires b in size && size[b] >= 1
    ensures Positive(size, [b])
  {
  }

  lemma NoneApart(size: Links)
    ensures Apart(size, []) && Positive(size, [])
  {
  }

  // ---- Taking a block off the list -----------------------------------------------------------

  lemma LinkedWithout(ptr: Links, size: Links, fl: seq<int>, j: nat)
    requires Linked(ptr, fl) && Spaced(size, fl) && 1 <= j < |fl|
    ensures fl[j] in ptr && Linked(ptr[fl[j - 1] := ptr[fl[j]]], fl[..j] + fl[j + 1..])
  {
    var whole := fl + [fl[0]];
    NextInList(ptr, fl, j);
    var ptr' := ptr[fl[j - 1] := ptr[fl[j]]];
    var front, back := whole[..j], whole[j + 1..];
    ChainSplit(ptr, whole, j);
    ChainSplit(ptr, whole, j + 1);
    forall i | 0 <= i < j - 1 ensures fl[i] < fl[j - 1] { ApartOrder(size, fl, i, j - 1); }
    ChainFrame(ptr, ptr', front);
    forall i | 0 <= i < |back| - 1 ensures back[i] != fl[j - 1] {
      assert back[i] == fl[j + 1 + i];
      ApartOrder(size, fl, j - 1, j + 1 + i);
    }
    ChainFrame(ptr, ptr', back);
    ChainJoin(ptr', front, back);
    var r := fl[..j] + fl[j + 1..];
    assert r + [r[0]] == front + back;
  }

  lemma SpacedWithout(size: Links, fl: seq<int>, j: nat)
    requires Spaced(size, fl) && 1 <= j < |fl|
    ensures Spaced(size, fl[..j] + fl[j + 1..])
  {
    ApartSplit(size, fl, j);
    ApartSplit(size, fl, j + 1);
    if j + 1 < |fl| { ApartOrder(size, fl, j - 1, j + 1); }
    ApartJoin(size, fl[..j], fl[j + 1..]);
  }

  /** A block that gives up units at its end stays in its place. */
  lemma SpacedShrunk(size: Links, fl: seq<int>, j: nat, n: int, c: int)
    requires Spaced(size, fl) && 1 <= j < |fl| && 1 <= n < size[fl[j]] && c == fl[j] + size[fl[j]] - n
    ensures c !in fl && Spaced(size[fl[j] := size[fl[j]] - n][c := n], fl)
  {
    if c in fl {
      var i :| 0 <= i < |fl| && fl[i] == c;
      if i < j { ApartOrder(size, fl, i, j); } else if i > j { ApartOrder(size, fl, j, i); }
    }
    var size' := size[fl[j] := size[fl[j]] - n][c := n];
    forall i | 0 <= i < |fl| && i != j ensures fl[i] != fl[j] {
      if i < j { ApartOrder(size, fl, i, j); } else { ApartOrder(size, fl, j, i); }
    }
  }

  // ---- Units ---------------------------------------------------------------------------------

  /** Unit u belongs to the block with header a of n units. */
  predicate Within(u: int, a: int, n: int) {
    a <= u < a + n
  }

  /** Every unit obtained is in exactly one block, and every block consists of units obtained. */
  ghost predicate Partition(blocks: map<int, int>, own: Owners) {
    && (forall a, u :: a in blocks && Within(u, a, blocks[a]) ==> u in own && own[u] == a)
    && (forall u :: u in own ==> own[u] in blocks && Within(u, own[u], blocks[own[u]]))
  }

  lemma BlocksDisjoint(blocks: map<int, int>, own: Owners, a: int, c: int)
    requires Partition(blocks, own) && a in blocks && c in blocks && a < c && blocks[c] >= 1
    ensures a + blocks[a] <= c
  {
    var n := blocks[a];
    assert own[c] == c by { assert Within(c, c, blocks[c]); }
    if c < a + n { assert Within(c, a, n); }
  }

  /** Two blocks that touch become one. */
  function Joined(blocks: map<int, int>, a: int, c: int): (r: map<int, int>)
    requires a in blocks && c in blocks
  {
    (blocks - {c})[a := blocks[a] + blocks[c]]
  }

  function Relabelled(own: Owners, from: int, to: int): (r: Owners)
    ensures r.Keys == own.Keys
    ensures forall u :: u in own ==> r[u] == if own[u] == from then to else own[u]
  {
    map u | u in own :: if own[u] == from then to else own[u]
  }

  lemma JoinBlocks(blocks: map<int, int>, own: Owners, a: int, c: int)
    requires Partition(blocks, own) && a in blocks && c in blocks && a != c && a + blocks[a] == c
    requires blocks[a] >= 1 && blocks[c] >= 1
    ensures Partition(Joined(blocks, a, c), Relabelled(own, c, a))
  {
    var bs, o := Joined(blocks, a, c), Relabelled(own, c, a);
    forall x, u | x in bs && Within(u, x, bs[x]) ensures u in o && o[u] == x {
      if x == a {
        assert Within(u, a, blocks[a]) || Within(u, c, blocks[c]);
      } else {
        assert Within(u, x, blocks[x]);
      }
    }
  }

  /** A block gives up its last n units to a new block. */
  function Divided(blocks: map<int, int>, a: int, n: int): (r: map<int, int>)
    requires a in blocks
  {
    blocks[a := blocks[a] - n][a + blocks[a] - n := n]
  }

  function DividedOwners(own: Owners, a: int, c: int): (r: Owners)
    ensures r.Keys == own.Keys
    ensures forall u :: u in own ==> r[u] == if own[u] == a && u >= c then c else own[u]
  {
    map u | u in own :: if own[u] == a && u >= c then c else own[u]
  }

  lemma DivideBlock(blocks: map<int, int>, own: Owners, a: int, n: int)
    requires Partition(blocks, own) && a in blocks && 1 <= n < blocks[a]
    requires forall x :: x in blocks ==> blocks[x] >= 1
    ensures a + blocks[a] - n !in blocks
    ensures Partition(Divided(blocks, a, n), DividedOwners(own, a, a + blocks[a] - n))
  {
    var c := a + blocks[a] - n;
    if c in blocks { BlocksDisjoint(blocks, own, a, c); }
    var bs, o := Divided(blocks, a, n), DividedOwners(own, a, c);
    forall x, u | x in bs && Within(u, x, bs[x]) ensures u in o && o[u] == x {
      if x == a || x == c { assert Within(u, a, blocks[a]); } else { assert Within(u, x, blocks[x]); }
    }
    forall u | u in o ensures o[u] in bs && Within(u, o[u], bs[o[u]]) {
      assert Within(u, own[u], blocks[own[u]]);
    }
  }

  function Region(a: int, n: nat): (r: set<int>)
    ensures forall u :: u in r <==> Within(u, a, n)
  {
    set u | a <= u < a + n && Within(u, a, n)
  }

  function AddedOwners(own: Owners, a: int, n: int): (r: Owners)
    requires n >= 0
    ensures r.Keys == own.Keys + Region(a, n)
    ensures forall u :: u in r ==> r[u] == if Within(u, a, n) then a else own[u]
  {
    own + (map u | u in Region(a, n) :: a)
  }

  lemma AddBlock(blocks: map<int, int>, own: Owners, a: int, n: int)
    requires Partition(blocks, own) && n >= 1 && (forall u :: u in own ==> u < a)
    requires (forall x :: x in blocks ==> blocks[x] >= 1)
    ensures a !in blocks && Partition(blocks[a := n], AddedOwners(own, a, n))
  {
    if a in blocks {
      assert own[a] == a by { assert Within(a, a, blocks[a]); }
    }
    var bs, o := blocks[a := n], AddedOwners(own, a, n);
    forall x, u | x in bs && Within(u, x, bs[x]) ensures u in o && o[u] == x {
      if x != a { assert Within(u, x, blocks[x]); } else { assert u in Region(a, n); }
    }
    forall u | u in o ensures o[u] in bs && Within(u, o[u], bs[o[u]]) {
      if !Within(u, a, n) { assert Within(u, own[u], blocks[own[u]]); }
    }
  }

  /** The blocks are the free ones on the list and the live ones, and headers hold their sizes. */
  ghost predicate Consistent(size: Links, fl: seq<int>, live: set<int>, blocks: map<int, int>) {
    && fl != []
    && (forall a :: a in blocks ==> a in size && size[a] == blocks[a] >= 1 && a > fl[0])
    && (forall a :: a in live ==> a in blocks && a !in fl)
    && (forall a :: a in blocks && a !in live ==> a in fl)
    && (forall i :: 1 <= i < |fl| ==> fl[i] in blocks)
  }
}

/** What free and malloc do to the whole heap: the list, the live blocks, and who owns each unit. */
module HeapSteps {
  import opened HeapList

  /** The heap is in order: the free list is one circle through the base in address order with no two
      blocks touching, the live blocks are off the list, and free and live blocks together are
      exactly the units obtained from sbrk. */
  ghost predicate HeapOk(base: int, brk: int, ptr: Links, size: Links, fl: seq<int>, live: set<int>,
                         blocks: map<int, int>, own: Owners)
  {
    && Linked(ptr, fl) && Spaced(size, fl) && fl[0] == base
    && Consistent(size, fl, live, blocks) && Partition(blocks, own)
    && (forall u :: u in own ==> base < u < brk)
  }

  // ---- Free ----------------------------------------------------------------------------------

  lemma FitsBetween(size: Links, fl: seq<int>, live: set<int>, blocks: map<int, int>, own: Owners,
                    b: int) returns (k: nat)
    requires Spaced(size, fl) && Consistent(size, fl, live, blocks) && Partition(blocks, own) && b in live
    ensures b in blocks && Before(fl, k, b) && fl[k] in size && fl[k] + size[fl[k]] <= b
    ensures (k + 1 < |fl| ==> b + blocks[b] <= fl[k + 1])
    ensures fl[k] + size[fl[k]] == b ==> k >= 1
  {
    k := FindBefore(fl, b);
    if k >= 1 { BlocksDisjoint(blocks, own, fl[k], b); }
    if k + 1 < |fl| { BlocksDisjoint(blocks, own, b, fl[k + 1]); }
  }

  /** Which blocks there are after block b has been joined to its free neighbours. */
  function JoinedHigh(blocks: map<int, int>, fl: seq<int>, k: nat, b: int, high: bool): (r: map<int, int>)
    requires k < |fl| && b in blocks && (high ==> k + 1 < |fl| && fl[k + 1] in blocks && b != fl[k + 1])
    ensures b in r
  {
    if high then Joined(blocks, b, fl[k + 1]) else blocks
  }

  function JoinedBoth(blocks: map<int, int>, fl: seq<int>, k: nat, b: int, low: bool, high: bool): (r: map<int, int>)
    requires k < |fl| && b in blocks && (high ==> k + 1 < |fl| && fl[k + 1] in blocks && b != fl[k + 1])
    requires low ==> fl[k] in blocks && fl[k] != b && (high ==> fl[k] != fl[k + 1])
  {
    var bs := JoinedHigh(blocks, fl, k, b, high);
    if low then Joined(bs, fl[k], b) else bs
  }

  function OwnersBoth(own: Owners, fl: seq<int>, k: nat, b: int, low: bool, high: bool): (r: Owners)
    requires k < |fl| && (high ==> k + 1 < |fl|)
    ensures r.Keys == own.Keys
  {
    var o := if high then Relabelled(own, fl[k + 1], b) else own;
    if low then Relabelled(o, b, fl[k]) else o
  }

  lemma InsertedElements(size: Links, fl: seq<int>, k: nat, b: int, low: bool, high: bool, x: int)
    requires Spaced(size, fl) && Before(fl, k, b) && (high ==> k + 1 < |fl|)
    ensures x in Inserted(fl, k, b, low, high) <==> (x in fl && !(high && x == fl[k + 1])) || (x == b && !low)
  {
    var m := if high then k + 2 else k + 1;
    var front, mid, back := fl[..k + 1], fl[k + 1..m], fl[m..];
    assert fl == front + mid + back;
    assert Inserted(fl, k, b, low, high) == front + (if low then [] else [b]) + back;
    if high {
      assert mid == [fl[k + 1]];
      OnlyOnce(size, fl, k + 1);
    }
  }

  /** An entry of the list is not found before or behind its place. */
  lemma OnlyOnce(size: Links, fl: seq<int>, j: nat)
    requires Spaced(size, fl) && j < |fl|
    ensures fl[j] !in fl[..j] && fl[j] !in fl[j + 1..]
  {
    hide Spaced;
    forall i | 0 <= i < j ensures fl[i] < fl[j] { EntryOrder(size, fl, i, j); }
    forall i | j < i < |fl| ensures fl[j] < fl[i] { EntryOrder(size, fl, j, i); }
  }

  lemma EntryOrder(size: Links, fl: seq<int>, i: nat, j: nat)
    requires Spaced(size, fl) && i < j < |fl|
    ensures fl[i] < fl[j]
  {
    ApartOrder(size, fl, i, j);
  }

  lemma ConsistentFreed(size: Links, fl: seq<int>, live: set<int>, blocks: map<int, int>, k: nat, b: int, low: bool,
                        high: bool, size': Links)
    requires Spaced(size, fl) && Consistent(size, fl, live, blocks) && Before(fl, k, b) && b in live && b in blocks
    requires low ==> k >= 1 && fl[k] in blocks && fl[k] != b
    requires high ==> k + 1 < |fl| && fl[k + 1] in blocks && fl[k + 1] != b && fl[k] != fl[k + 1]
    requires size' == var s := if high then size[b := blocks[b] + blocks[fl[k + 1]]] else size;
                      if low then s[fl[k] := size[fl[k]] + JoinedHigh(blocks, fl, k, b, high)[b]] else s
    ensures Consistent(size', Inserted(fl, k, b, low, high), live - {b}, JoinedBoth(blocks, fl, k, b, low, high))
  {
    var r, bs := Inserted(fl, k, b, low, high), JoinedBoth(blocks, fl, k, b, low, high);
    forall x ensures x in r <==> (x in fl && !(high && x == fl[k + 1])) || (x == b && !low) {
      InsertedElements(size, fl, k, b, low, high, x);
    }
    forall i | 1 <= i < |r| ensures r[i] in bs {
      assert r[i] in r;
      InsertedTail(size, fl, k, b, low, high, i);
    }
  }

  lemma InsertedTail(size: Links, fl: seq<int>, k: nat, b: int, low: bool, high: bool, i: nat)
    requires Spaced(size, fl) && Before(fl, k, b) && (high ==> k + 1 < |fl|) && 1 <= i < |Inserted(fl, k, b, low, high)|
    ensures Inserted(fl, k, b, low, high)[i] == b || exists j :: 1 <= j < |fl| && fl[j] == Inserted(fl, k, b, low, high)[i]
  {
    var r := Inserted(fl, k, b, low, high);
    if i <= k {
      assert r[i] == fl[i];
    } else if low || i > k + 1 {
      var j := i + (if low then 0 else -1) + (if high then 1 else 0);
      assert r[i] == fl[j];
    }
  }

  lemma PartitionFreed(blocks: map<int, int>, own: Owners, fl: seq<int>, k: nat, b: int, low: bool, high: bool)
    requires Partition(blocks, own) && k < |fl| && b in blocks && blocks[b] >= 1
    requires high ==> k + 1 < |fl| && fl[k + 1] in blocks && b + blocks[b] == fl[k + 1] && blocks[fl[k + 1]] >= 1
    requires low ==> fl[k] in blocks && fl[k] + blocks[fl[k]] == b && blocks[fl[k]] >= 1
    ensures Partition(JoinedBoth(blocks, fl, k, b, low, high), OwnersBoth(own, fl, k, b, low, high))
  {
    hide Partition;
    if high { JoinBlocks(blocks, own, b, fl[k + 1]); }
    var o := if high then Relabelled(own, fl[k + 1], b) else own;
    if low { JoinBlocks(JoinedHigh(blocks, fl, k, b, high), o, fl[k], b); }
  }

  /** Putting back a live block keeps the heap in order. */
  lemma FreeKeeps(base: int, brk: int, ptr: Links, size: Links, fl: seq<int>, live: set<int>, blocks: map<int, int>,
                  own: Owners,
                  k: nat, b: int, low: bool, high: bool, after: int, ptr': Links, size': Links)
    requires HeapOk(base, brk, ptr, size, fl, live, blocks, own) && b in live && b in blocks
    requires Before(fl, k, b) && fl[k] + size[fl[k]] <= b && (k + 1 < |fl| ==> b + blocks[b] <= fl[k + 1])
    requires low <==> fl[k] + size[fl[k]] == b
    requires high <==> k + 1 < |fl| && b + blocks[b] == fl[k + 1]
    requires fl[k] in ptr && (high ==> ptr[fl[k]] in ptr) && after == if high then ptr[ptr[fl[k]]] else ptr[fl[k]]
    requires ptr' == ptr[b := after][fl[k] := if low then after else b]
    requires size' == var s := if high then size[b := size[b] + size[fl[k + 1]]] else size;
                      if low then s[fl[k] := s[fl[k]] + s[b]] else s
    ensures low ==> k >= 1 && fl[k] in blocks && fl[k] != b
    ensures high ==> fl[k + 1] in blocks && fl[k + 1] != b && fl[k] != fl[k + 1]
    ensures HeapOk(base, brk, ptr', size', Inserted(fl, k, b, low, high), live - {b},
                   JoinedBoth(blocks, fl, k, b, low, high), OwnersBoth(own, fl, k, b, low, high))
  {
    hide Linked, Spaced, Partition;
    FreeSides(size, fl, live, blocks, k, b, low, high);
    LinkedInserted(ptr, size, fl, k, b, low, high, after, ptr');
    var joined := if high then blocks[b] + size[fl[k + 1]] else blocks[b];
    assert size[b := joined] == if high then size[b := size[b] + size[fl[k + 1]]] else size;
    SpacedInserted(size, fl, k, b, blocks[b], low, high, joined, size');
    ConsistentFreed(size, fl, live, blocks, k, b, low, high, size');
    PartitionFreed(blocks, own, fl, k, b, low, high);
  }

  lemma FreeSides(size: Links, fl: seq<int>, live: set<int>, blocks: map<int, int>, k: nat, b: int, low: bool,
                  high: bool)
    requires Spaced(size, fl) && Consistent(size, fl, live, blocks) && b in live && Before(fl, k, b)
    requires low <==> fl[k] + size[fl[k]] == b
    requires high ==> k + 1 < |fl|
    ensures low ==> k >= 1 && fl[k] in blocks && fl[k] != b && size[fl[k]] == blocks[fl[k]] >= 1
    ensures high ==> fl[k + 1] in blocks && fl[k + 1] in size && fl[k + 1] != b && fl[k] != fl[k + 1] && size[fl[k + 1]] == blocks[fl[k + 1]] >= 1
    ensures b in size && size[b] == blocks[b] >= 1 && fl[k] in size && size[fl[k]] >= 0 && fl[k] >= fl[0]
  {
    if k > 0 { ApartOrder(size, fl, 0, k); }
    if high { assert fl[k] + size[fl[k]] < fl[k + 1]; }
  }

  // ---- Taking a block ------------------------------------------------------------------------

  lemma WithoutElements(size: Links, fl: seq<int>, j: nat, x: int)
    requires Spaced(size, fl) && 1 <= j < |fl|
    ensures x in fl[..j] + fl[j + 1..] <==> x in fl && x != fl[j]
  {
    assert fl == fl[..j] + [fl[j]] + fl[j + 1..];
    OnlyOnce(size, fl, j);
  }

  /** Unlinking a free block whole keeps the heap in order. */
  lemma TakeKeeps(base: int, brk: int, ptr: Links, size: Links, fl: seq<int>, live: set<int>, blocks: map<int, int>,
                  own: Owners, j: nat)
    requires HeapOk(base, brk, ptr, size, fl, live, blocks, own) && 1 <= j < |fl|
    ensures fl[j] in ptr
    ensures HeapOk(base, brk, ptr[fl[j - 1] := ptr[fl[j]]], size, fl[..j] + fl[j + 1..], live + {fl[j]}, blocks, own)
  {
    hide Linked, Spaced, Partition;
    LinkedWithout(ptr, size, fl, j);
    SpacedWithout(size, fl, j);
    var r := fl[..j] + fl[j + 1..];
    forall x ensures x in r <==> x in fl && x != fl[j] { WithoutElements(size, fl, j, x); }
    forall i | 1 <= i < |r| ensures r[i] in blocks {
      assert r[i] == if i < j then fl[i] else fl[i + 1];
    }
  }

  /** Cutting the last n units off a larger free block keeps the heap in order. */
  lemma SplitKeeps(base: int, brk: int, ptr: Links, size: Links, fl: seq<int>, live: set<int>, blocks: map<int, int>,
                   own: Owners,
                   j: nat, n: int, c: int)
    requires HeapOk(base, brk, ptr, size, fl, live, blocks, own) && 1 <= j < |fl|
    requires fl[j] in size && 1 <= n < size[fl[j]] && c == fl[j] + size[fl[j]] - n
    ensures fl[j] in blocks && c !in blocks
    ensures HeapOk(base, brk, ptr, size[fl[j] := size[fl[j]] - n][c := n], fl, live + {c},
                   Divided(blocks, fl[j], n), DividedOwners(own, fl[j], c))
  {
    hide Linked, Spaced, Partition;
    SpacedShrunk(size, fl, j, n, c);
    DivideBlock(blocks, own, fl[j], n);
  }

  // ---- More memory ---------------------------------------------------------------------------

  /** A new region from sbrk joins the heap as a live block of its own. */
  lemma GrowKeeps(base: int, brk: int, ptr: Links, size: Links, fl: seq<int>, live: set<int>, blocks: map<int, int>,
                  own: Owners,
                  a: int, n: int)
    requires HeapOk(base, brk, ptr, size, fl, live, blocks, own) && base < a && brk <= a && n >= 1
    ensures a !in blocks
    ensures HeapOk(base, a + n, ptr, size[a := n], fl, live + {a}, blocks[a := n], AddedOwners(own, a, n))
  {
    AddBlock(blocks, own, a, n);
    ApartFrame(size, size[a := n], fl);
  }
}

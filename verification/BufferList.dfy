/** The buffer cache's list (bio.c:38-95, 121-140): a circle through `head` linked both ways, most
    recently released buffer first. */
module BufferList {
  import opened Common

  /** The index of bcache.head among the links. */
  const HEAD := NBUF

  /** The device of a buffer that holds no sector. */
  const NODEV := -1

  type Links = seq<int>

  // ---- Chains --------------------------------------------------------------------------------

  /** Neighbours in s are linked to each other in both directions. */
  predicate Joined(next: Links, prev: Links, s: seq<int>) {
    && |next| == |prev| == NBUF + 1
    && (forall k :: 0 <= k < |s| ==> 0 <= s[k] <= HEAD)
    && (forall k :: 0 <= k < |s| - 1 ==> next[s[k]] == s[k + 1] && prev[s[k + 1]] == s[k])
  }

  lemma JoinedSplit(next: Links, prev: Links, s: seq<int>, k: nat)
    requires Joined(next, prev, s) && k <= |s|
    ensures Joined(next, prev, s[..k]) && Joined(next, prev, s[k..])
  {
    var b := s[k..];
    forall i | 0 <= i < |b| - 1 ensures next[b[i]] == b[i + 1] && prev[b[i + 1]] == b[i] {
      assert b[i] == s[k + i] && b[i + 1] == s[k + i + 1];
    }
  }

  lemma JoinedAppend(next: Links, prev: Links, a: seq<int>, b: seq<int>)
    requires Joined(next, prev, a) && Joined(next, prev, b) && a != [] && b != []
    requires next[a[|a| - 1]] == b[0] && prev[b[0]] == a[|a| - 1]
    ensures Joined(next, prev, a + b)
  {
    var s := a + b;
    forall i | 0 <= i < |s| - 1 ensures next[s[i]] == s[i + 1] && prev[s[i + 1]] == s[i] {
      if i >= |a| { assert s[i] == b[i - |a|] && s[i + 1] == b[i - |a| + 1]; }
    }
  }

  /** Links inside s that are not written stay. */
  lemma JoinedStays(next: Links, prev: Links, s: seq<int>, next': Links, prev': Links)
    requires Joined(next, prev, s) && s != [] && |next'| == |prev'| == NBUF + 1
    requires forall k :: 0 <= k < |s| - 1 ==> next'[s[k]] == next[s[k]]
    requires forall k :: 1 <= k < |s| ==> prev'[s[k]] == prev[s[k]]
    ensures Joined(next', prev', s)
  {
  }

  lemma JoinedAt(next: Links, prev: Links, s: seq<int>, k: nat)
    requires Joined(next, prev, s) && k + 1 < |s|
    ensures 0 <= s[k] <= HEAD && 0 <= s[k + 1] <= HEAD && |next| == |prev| == NBUF + 1
    ensures next[s[k]] == s[k + 1] && prev[s[k + 1]] == s[k]
  {
  }

  lemma JoinedOne(next: Links, prev: Links, x: int)
    requires |next| == |prev| == NBUF + 1 && 0 <= x <= HEAD
    ensures Joined(next, prev, [x])
  {
  }

  /** The list: `order` holds every buffer once, and the links lead around it from the head. */
  predicate ListOk(next: Links, prev: Links, order: seq<int>) {
    && Joined(next, prev, [HEAD] + order + [HEAD]) && Distinct(order)
    && (forall b :: 0 <= b < NBUF ==> b in order) && Buffers(order)
  }

  // ---- Moving a buffer to the front ----------------------------------------------------------

  function MovedFirst(order: seq<int>, k: nat): (r: seq<int>)
    requires k < |order|
    ensures |r| == |order|
  {
    [order[k]] + order[..k] + order[k + 1..]
  }

  /** brelse's six assignments, in their order. */
  function Unlinked(next: Links, prev: Links, b: int): (r: (Links, Links))
    requires |next| == |prev| == NBUF + 1 && 0 <= b <= HEAD && 0 <= next[b] <= HEAD && 0 <= prev[b] <= HEAD
    ensures |r.0| == |r.1| == NBUF + 1
  {
    var prev1 := prev[next[b] := prev[b]];
    (next[prev1[b] := next[b]], prev1)
  }

  function PutFirst(next: Links, prev: Links, b: int): (r: (Links, Links))
    requires |next| == |prev| == NBUF + 1 && 0 <= b <= HEAD && 0 <= next[HEAD] <= HEAD && b != HEAD
    ensures |r.0| == |r.1| == NBUF + 1
  {
    var next1 := next[b := next[HEAD]];
    var prev1 := prev[b := HEAD];
    (next1[HEAD := b], prev1[next1[HEAD] := b])
  }

  predicate Buffers(s: seq<int>) {
    forall i :: 0 <= i < |s| ==> 0 <= s[i] < NBUF
  }

  lemma InBounds(next: Links, prev: Links, s: seq<int>)
    requires Joined(next, prev, s)
    ensures forall k :: 0 <= k < |s| ==> 0 <= s[k] <= HEAD
  {
  }

  /** On the circle only the two ends are equal. */
  lemma RingIndex(order: seq<int>, i: nat, j: nat)
    requires Distinct(order) && Buffers(order) && i < j <= |order| + 1 && (i > 0 || j <= |order|)
    ensures ([HEAD] + order + [HEAD])[i] != ([HEAD] + order + [HEAD])[j]
  {
    if i > 0 && j <= |order| { assert order[i - 1] != order[j - 1]; }
  }

  /** Taking entry k out of a circle. */
  lemma UnlinkKeeps(next: Links, prev: Links, order: seq<int>, k: nat)
    requires Joined(next, prev, [HEAD] + order + [HEAD]) && Distinct(order) && k < |order| && Buffers(order)
    ensures |next| == |prev| == NBUF + 1 && 0 <= order[k] < NBUF && 0 <= next[order[k]] <= HEAD
    ensures 0 <= prev[order[k]] <= HEAD
    ensures var r := Unlinked(next, prev, order[k]); Joined(r.0, r.1, [HEAD] + (order[..k] + order[k + 1..]) + [HEAD])
  {
    hide Joined, Distinct;
    var ring, b := [HEAD] + order + [HEAD], order[k];
    var before, after := ring[..k + 1], ring[k + 2..];
    assert ring[k + 1] == b;
    JoinedAt(next, prev, ring, k);
    JoinedAt(next, prev, ring, k + 1);
    RingIndex(order, k + 1, k + 2);
    var r := Unlinked(next, prev, b);
    assert r == (next[ring[k] := ring[k + 2]], prev[ring[k + 2] := ring[k]]);
    BeforeStays(next, prev, order, k);
    AfterStays(next, prev, order, k);
    JoinedAppend(r.0, r.1, before, after);
    assert [HEAD] + (order[..k] + order[k + 1..]) + [HEAD] == before + after;
  }

  /** The links on either side of an entry taken out do not change. */
  lemma BeforeStays(next: Links, prev: Links, order: seq<int>, k: nat)
    requires Joined(next, prev, [HEAD] + order + [HEAD]) && Distinct(order) && k < |order| && Buffers(order)
    requires |next| == |prev| == NBUF + 1
    ensures var ring := [HEAD] + order + [HEAD]; 0 <= ring[k] <= HEAD && 0 <= ring[k + 2] <= HEAD && Joined(next[ring[k] := ring[k + 2]], prev[ring[k + 2] := ring[k]], ring[..k + 1])
  {
    hide Joined, Distinct;
    var ring := [HEAD] + order + [HEAD];
    var s := ring[..k + 1];
    InBounds(next, prev, ring);
    JoinedSplit(next, prev, ring, k + 1);
    var x, y := ring[k], ring[k + 2];
    var n, p := next[x := y], prev[y := x];
    forall i | 0 <= i < |s| - 1 ensures n[s[i]] == next[s[i]] { RingIndex(order, i, k); }
    forall i | 1 <= i < |s| ensures p[s[i]] == prev[s[i]] { RingIndex(order, i, k + 2); }
    JoinedStays(next, prev, s, n, p);
  }

  lemma AfterStays(next: Links, prev: Links, order: seq<int>, k: nat)
    requires Joined(next, prev, [HEAD] + order + [HEAD]) && Distinct(order) && k < |order| && Buffers(order)
    requires |next| == |prev| == NBUF + 1
    ensures var ring := [HEAD] + order + [HEAD]; 0 <= ring[k] <= HEAD && 0 <= ring[k + 2] <= HEAD && Joined(next[ring[k] := ring[k + 2]], prev[ring[k + 2] := ring[k]], ring[k + 2..])
  {
    hide Joined, Distinct;
    var ring := [HEAD] + order + [HEAD];
    var s := ring[k + 2..];
    InBounds(next, prev, ring);
    JoinedSplit(next, prev, ring, k + 2);
    var x, y := ring[k], ring[k + 2];
    var n, p := next[x := y], prev[y := x];
    forall i | 0 <= i < |s| - 1 ensures n[s[i]] == next[s[i]] { assert s[i] == ring[k + 2 + i]; RingIndex(order, k, k + 2 + i); }
    forall i | 1 <= i < |s| ensures p[s[i]] == prev[s[i]] { assert s[i] == ring[k + 2 + i]; RingIndex(order, k + 2, k + 2 + i); }
    JoinedStays(next, prev, s, n, p);
  }

  lemma PutKeeps(next: Links, prev: Links, order: seq<int>, b: int)
    requires Joined(next, prev, [HEAD] + order + [HEAD]) && Distinct(order) && b !in order && 0 <= b < NBUF
    requires Buffers(order)
    ensures |next| == |prev| == NBUF + 1 && 0 <= next[HEAD] <= HEAD
    ensures var r := PutFirst(next, prev, b); Joined(r.0, r.1, [HEAD] + ([b] + order) + [HEAD])
  {
    hide Joined;
    var ring, tail := [HEAD] + order + [HEAD], order + [HEAD];
    assert ring[1..] == tail;
    JoinedSplit(next, prev, ring, 1);
    JoinedAt(next, prev, ring, 0);
    var y := next[HEAD];
    assert y == tail[0];
    var r := PutFirst(next, prev, b);
    assert y != b by { if order != [] { assert tail[0] == order[0] && order[0] in order; } }
    assert r.0[HEAD] == b && r.0[b] == y && r.1[b] == HEAD && r.1[y] == b;
    InBounds(next, prev, tail);
    forall i | 0 <= i < |tail| - 1 ensures r.0[tail[i]] == next[tail[i]] { assert tail[i] == order[i] && order[i] in order; }
    forall i | 1 <= i < |tail| ensures r.1[tail[i]] == prev[tail[i]] {
      assert tail[i] != y by { RingIndex(order, 1, i + 1); }
      assert tail[i] != b by { if i < |order| { assert tail[i] == order[i] && order[i] in order; } }
    }
    JoinedStays(next, prev, tail, r.0, r.1);
    JoinedOne(r.0, r.1, HEAD);
    JoinedOne(r.0, r.1, b);
    JoinedAppend(r.0, r.1, [HEAD], [b]);
    JoinedAppend(r.0, r.1, [HEAD] + [b], tail);
    assert [HEAD] + ([b] + order) + [HEAD] == [HEAD] + [b] + tail;
  }

  /** Moving a buffer to the front keeps the list in order. */
  lemma MoveKeeps(next: Links, prev: Links, order: seq<int>, k: nat)
    requires ListOk(next, prev, order) && k < |order|
    ensures |next| == |prev| == NBUF + 1 && 0 <= order[k] < NBUF && 0 <= next[order[k]] <= HEAD
    ensures 0 <= prev[order[k]] <= HEAD
    ensures 0 <= Unlinked(next, prev, order[k]).0[HEAD] <= HEAD
    ensures var u := Unlinked(next, prev, order[k]); var r := PutFirst(u.0, u.1, order[k]); ListOk(r.0, r.1, MovedFirst(order, k))
  {
    hide Joined;
    UnlinkKeeps(next, prev, order, k);
    var u := Unlinked(next, prev, order[k]);
    var rest := order[..k] + order[k + 1..];
    MovedElements(order, k);
    PutKeeps(u.0, u.1, rest, order[k]);
    assert [order[k]] + rest == MovedFirst(order, k);
  }

  lemma MovedElements(order: seq<int>, k: nat)
    requires Distinct(order) && k < |order|
    ensures var m := MovedFirst(order, k); Distinct(m) && (forall x :: x in m <==> x in order)
    ensures Distinct(order[..k] + order[k + 1..]) && order[k] !in order[..k] + order[k + 1..]
  {
    var m := MovedFirst(order, k);
    forall x ensures x in m <==> x in order {
      if x in order {
        var i :| 0 <= i < |order| && order[i] == x;
        assert m[if i == k then 0 else if i < k then i + 1 else i] == x;
      }
    }
  }
}

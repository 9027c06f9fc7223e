/** The buffer cache's bookkeeping (bio.c:38-95, 121-140): which buffer stands for which sector, which
    one is recycled, and the order in which they were released. */
module Bcache {
  import opened Common
  import opened BufferList

  datatype Flags = Flags(busy: bool, valid: bool, dirty: bool)

  datatype GetResult = Got(buf: int) | Wait(buf: int) | NoBuffers

  predicate Clean(f: Flags) {
    !f.busy && !f.dirty
  }

  class Cache {
    var next: Links
    var prev: Links
    var dev: seq<int>
    var sector: seq<int>
    var flags: seq<Flags>
    ghost var order: seq<int>
    ghost var stamp: seq<int>
    ghost var clock: int

    /** The list is in order of last release, and no sector has two buffers. */
    ghost predicate Valid()
      reads this
    {
      && |dev| == |sector| == |flags| == |stamp| == NBUF
      && ListOk(next, prev, order) && Newest(stamp, order, clock) && Single(dev, sector)
    }

    constructor ()
      ensures Valid() && forall b :: 0 <= b < NBUF ==> dev[b] == NODEV && !flags[b].busy
    {
      new;
      next, prev := seq(NBUF + 1, _ => HEAD), seq(NBUF + 1, _ => HEAD);
      dev, sector, flags := seq(NBUF, _ => NODEV), seq(NBUF, _ => 0), seq(NBUF, _ => Flags(false, false, false));
      order, clock := [], 0;
      stamp := seq(NBUF, _ => 0);
      var b: nat := 0;
      hide Joined, Filled, Newest;
      EmptyCircle(next, prev, stamp);
      while b < NBUF
        invariant 0 <= b <= NBUF && |next| == |prev| == NBUF + 1 && |dev| == |sector| == |flags| == |stamp| == NBUF
        invariant Joined(next, prev, [HEAD] + order + [HEAD]) && Filled(order, b)
        invariant Newest(stamp, order, clock)
        invariant forall x :: 0 <= x < NBUF ==> dev[x] == NODEV && !flags[x].busy
      {
        Insert(b);
        b := b + 1;
      }
      FilledAll(order);
    }

    /** binit's loop body: buffer b, holding nothing, goes to the front. */
    method Insert(b: nat)
      requires |next| == |prev| == NBUF + 1 && |dev| == |sector| == |flags| == |stamp| == NBUF && b < NBUF
      requires Joined(next, prev, [HEAD] + order + [HEAD]) && Filled(order, b) && Newest(stamp, order, clock)
      modifies `next, `prev, `dev, `order, `clock, `stamp
      ensures |next| == |prev| == NBUF + 1 && |stamp| == NBUF && dev == old(dev)[b := NODEV]
      ensures Joined(next, prev, [HEAD] + order + [HEAD]) && Filled(order, b + 1) && Newest(stamp, order, clock)
    {
      hide Joined, Filled, Newest;
      FilledMore(order, b);
      PutKeeps(next, prev, order, b);
      next := next[b := next[HEAD]];
      prev := prev[b := HEAD];
      dev := dev[b := NODEV];
      prev := prev[next[HEAD] := b];
      next := next[HEAD := b];
      NewestFirst(stamp, order, clock, b);
      order, clock, stamp := [b] + order, clock + 1, stamp[b := clock + 1];
    }

    /** bget's first loop, from the most recently released buffer on. */
    method Lookup(d: int, s: int) returns (b: int)
      requires Valid()
      ensures b == HEAD ==> Nowhere(dev, sector, d, s)
      ensures b != HEAD ==> 0 <= b < NBUF && dev[b] == d && sector[b] == s
    {
      hide Joined, Newest, Single;
      ghost var ring := [HEAD] + order + [HEAD];
      JoinedAt(next, prev, ring, 0);
      b := next[HEAD];
      ghost var k := 0;
      while b != HEAD
        invariant 0 <= k <= |order| && b == ring[k + 1]
        invariant forall i :: 0 <= i < k ==> !(dev[order[i]] == d && sector[order[i]] == s)
        decreases |order| - k
      {
        assert k < |order| && b == order[k];
        if dev[b] == d && sector[b] == s { return; }
        JoinedAt(next, prev, ring, k + 1);
        b := next[b];
        k := k + 1;
      }
      assert k == |order|;
      EveryBuffer(next, prev, order, dev, sector, d, s);
    }

    /** bget's second loop, from the buffer released longest ago on. */
    method Victim() returns (b: int)
      requires Valid()
      ensures b == HEAD ==> forall x :: 0 <= x < NBUF ==> !Clean(flags[x])
      ensures b != HEAD ==> 0 <= b < NBUF && Clean(flags[b]) && forall x :: 0 <= x < NBUF && Clean(flags[x]) ==> stamp[b] <= stamp[x]
    {
      hide Joined, Single;
      ghost var ring := [HEAD] + order + [HEAD];
      JoinedAt(next, prev, ring, |order|);
      b := prev[HEAD];
      ghost var k := |order|;
      while b != HEAD
        invariant 0 <= k <= |order| && b == ring[k]
        invariant forall i :: k <= i < |order| ==> !Clean(flags[order[i]])
        decreases k
      {
        assert k > 0 && b == order[k - 1];
        if Clean(flags[b]) {
          OldestClean(next, prev, stamp, order, clock, flags, k - 1);
          return;
        }
        JoinedAt(next, prev, ring, k - 1);
        b := prev[b];
        k := k - 1;
      }
      NoneClean(next, prev, order, flags);
    }

    /** bget up to the point where it would sleep: the sector's buffer if it is there, otherwise the
        clean buffer released longest ago. */
    method Bget(d: int, s: int) returns (r: GetResult)
      requires Valid() && d != NODEV
      modifies this
      ensures Valid() && next == old(next) && prev == old(prev) && order == old(order) && stamp == old(stamp)
      ensures r.Wait? ==> unchanged(this) && 0 <= r.buf < NBUF && dev[r.buf] == d && sector[r.buf] == s && flags[r.buf].busy
      ensures r.Got? ==> 0 <= r.buf < NBUF && !old(flags)[r.buf].busy && dev[r.buf] == d && sector[r.buf] == s && flags[r.buf].busy
      ensures r.Got? ==> forall x :: 0 <= x < NBUF && x != r.buf ==> dev[x] == old(dev[x]) && sector[x] == old(sector[x]) && flags[x] == old(flags[x])
      ensures r.Got? && old(dev[r.buf] == d && sector[r.buf] == s) ==> flags[r.buf] == old(flags[r.buf]).(busy := true)
      // Recycling: the sector was nowhere, and no clean buffer was released before this one.
      ensures r.Got? && !old(dev[r.buf] == d && sector[r.buf] == s) ==>
        && Nowhere(old(dev), old(sector), d, s) && flags[r.buf] == Flags(true, false, false) && Clean(old(flags)[r.buf])
        && forall x :: 0 <= x < NBUF && Clean(old(flags)[x]) ==> stamp[r.buf] <= stamp[x]
      ensures r.NoBuffers? ==> unchanged(this) && Nowhere(dev, sector, d, s) && forall x :: 0 <= x < NBUF ==> !Clean(flags[x])
    {
      hide ListOk, Newest, Nowhere;
      var b := Lookup(d, s);
      if b != HEAD {
        if !flags[b].busy {
          flags := flags[b := flags[b].(busy := true)];
          return Got(b);
        }
        return Wait(b);
      }
      b := Victim();
      if b == HEAD { return NoBuffers; }
      StillSingle(dev, sector, b, d, s);
      NotThere(dev, sector, b, d, s);
      dev := dev[b := d];
      sector := sector[b := s];
      flags := flags[b := Flags(true, false, false)];
      return Got(b);
    }

    /** What the holder of a buffer does to its flags: reading it in, log_write, writing it out. It stays held,
        and which buffers may be recycled does not change, whatever the holder does. */
    method Update(b: int, valid: bool, dirty: bool)
      requires Valid() && 0 <= b < NBUF && flags[b].busy
      modifies `flags
      ensures Valid() && flags[b].busy && flags[b].valid == valid && flags[b].dirty == dirty
      ensures forall x :: 0 <= x < NBUF ==> (Clean(flags[x]) <==> Clean(old(flags[x]))) && (x != b ==> flags[x] == old(flags[x]))
    {
      flags := flags[b := Flags(true, valid, dirty)];
    }

    /** brelse: the buffer becomes the most recently released one. The result says whether it was held;
        releasing a buffer nobody holds panics. */
    method Brelse(b: int) returns (ok: bool)
      requires Valid() && 0 <= b < NBUF
      modifies this
      ensures Valid() && dev == old(dev) && sector == old(sector) && (ok <==> old(flags)[b].busy)
      ensures !ok ==> unchanged(this)
      ensures ok ==> flags == old(flags)[b := old(flags)[b].(busy := false)]
      ensures ok ==> order != [] && order[0] == b && (forall x :: 0 <= x < NBUF && x != b ==> stamp[x] == old(stamp[x]) && stamp[x] < stamp[b])
    {
      hide ListOk, Newest, Single;
      if !flags[b].busy { return false; }
      ghost var k := PlaceOf(next, prev, order, b);
      MoveKeeps(next, prev, order, k);
      prev := prev[next[b] := prev[b]];
      next := next[prev[b] := next[b]];
      next := next[b := next[HEAD]];
      prev := prev[b := HEAD];
      prev := prev[next[HEAD] := b];
      next := next[HEAD := b];
      flags := flags[b := flags[b].(busy := false)];
      NewestMoved(stamp, order, clock, k);
      order, clock, stamp := MovedFirst(order, k), clock + 1, stamp[b := clock + 1];
      return true;
    }
  }

  /** The list holds the buffers below b, once each. */
  ghost predicate Filled(order: seq<int>, b: nat) {
    Distinct(order) && Buffers(order) && forall x :: 0 <= x < NBUF ==> (x in order <==> x < b)
  }

  lemma EmptyCircle(next: Links, prev: Links, stamp: seq<int>)
    requires |next| == |prev| == NBUF + 1 && next[HEAD] == HEAD && prev[HEAD] == HEAD && |stamp| == NBUF && forall x :: 0 <= x < NBUF ==> stamp[x] == 0
    ensures Joined(next, prev, [HEAD] + [] + [HEAD]) && Filled([], 0) && Newest(stamp, [], 0)
  {
  }

  lemma FilledMore(order: seq<int>, b: nat)
    requires Filled(order, b) && b < NBUF
    ensures Filled([b] + order, b + 1) && b !in order && Distinct(order) && Buffers(order)
  {
    var o := [b] + order;
    forall i, j | 0 <= i < j < |o| ensures o[i] != o[j] {
      if i == 0 { assert order[j - 1] in order; }
    }
  }

  lemma FilledAll(order: seq<int>)
    requires Filled(order, NBUF)
    ensures Distinct(order) && Buffers(order) && forall b :: 0 <= b < NBUF ==> b in order
  {
  }

  /** Earlier in the list means released later. */
  ghost predicate Newest(stamp: seq<int>, order: seq<int>, clock: int) {
    && |stamp| == NBUF && Buffers(order)
    && (forall b :: 0 <= b < NBUF ==> stamp[b] <= clock)
    && (forall i, j :: 0 <= i < j < |order| ==> stamp[order[i]] > stamp[order[j]])
  }

  /** No sector is in two buffers. */
  ghost predicate Single(dev: seq<int>, sector: seq<int>) {
    && |dev| == |sector| == NBUF
    && forall x, y :: 0 <= x < y < NBUF && dev[x] == dev[y] && sector[x] == sector[y] ==> dev[x] == NODEV
  }

  ghost predicate Nowhere(dev: seq<int>, sector: seq<int>, d: int, s: int)
    requires |dev| == |sector| == NBUF
  {
    forall x :: 0 <= x < NBUF ==> !(dev[x] == d && sector[x] == s)
  }

  lemma EveryBuffer(next: Links, prev: Links, order: seq<int>, dev: seq<int>, sector: seq<int>, d: int, s: int)
    requires ListOk(next, prev, order) && |dev| == |sector| == NBUF
    requires forall i :: 0 <= i < |order| ==> !(dev[order[i]] == d && sector[order[i]] == s)
    ensures Nowhere(dev, sector, d, s)
  {
    forall x | 0 <= x < NBUF ensures !(dev[x] == d && sector[x] == s) {
      assert x in order;
      var i :| 0 <= i < |order| && order[i] == x;
    }
  }

  lemma NoneClean(next: Links, prev: Links, order: seq<int>, flags: seq<Flags>)
    requires ListOk(next, prev, order) && |flags| == NBUF
    requires forall i :: 0 <= i < |order| ==> !Clean(flags[order[i]])
    ensures forall x :: 0 <= x < NBUF ==> !Clean(flags[x])
  {
    forall x | 0 <= x < NBUF ensures !Clean(flags[x]) {
      assert x in order;
      var i :| 0 <= i < |order| && order[i] == x;
    }
  }

  lemma OldestClean(next: Links, prev: Links, stamp: seq<int>, order: seq<int>, clock: int, flags: seq<Flags>, k: nat)
    requires ListOk(next, prev, order) && Newest(stamp, order, clock) && |flags| == NBUF && k < |order|
    requires forall i :: k < i < |order| ==> !Clean(flags[order[i]])
    ensures forall x :: 0 <= x < NBUF && Clean(flags[x]) ==> stamp[order[k]] <= stamp[x]
  {
    forall x | 0 <= x < NBUF && Clean(flags[x]) ensures stamp[order[k]] <= stamp[x] {
      assert x in order;
      var i :| 0 <= i < |order| && order[i] == x;
    }
  }

  lemma PlaceOf(next: Links, prev: Links, order: seq<int>, b: int) returns (k: nat)
    requires ListOk(next, prev, order) && 0 <= b < NBUF
    ensures k < |order| && order[k] == b && |next| == |prev| == NBUF + 1 && Distinct(order)
  {
    hide Joined;
    JoinedAt(next, prev, [HEAD] + order + [HEAD], 0);
    assert b in order;
    k :| 0 <= k < |order| && order[k] == b;
  }

  lemma NotThere(dev: seq<int>, sector: seq<int>, b: int, d: int, s: int)
    requires |dev| == |sector| == NBUF && Nowhere(dev, sector, d, s) && 0 <= b < NBUF
    ensures !(dev[b] == d && sector[b] == s)
  {
  }

  lemma StillSingle(dev: seq<int>, sector: seq<int>, b: int, d: int, s: int)
    requires Single(dev, sector) && 0 <= b < NBUF && Nowhere(dev, sector, d, s)
    ensures Single(dev[b := d], sector[b := s])
  {
  }

  lemma NewestFirst(stamp: seq<int>, order: seq<int>, clock: int, b: int)
    requires Newest(stamp, order, clock) && 0 <= b < NBUF && b !in order
    ensures Newest(stamp[b := clock + 1], [b] + order, clock + 1)
  {
    var o, t := [b] + order, stamp[b := clock + 1];
    forall i, j | 0 <= i < j < |o| ensures t[o[i]] > t[o[j]] {
      assert o[j] == order[j - 1] && order[j - 1] in order;
      if i > 0 { assert o[i] == order[i - 1] && order[i - 1] in order; }
    }
  }

  lemma NewestMoved(stamp: seq<int>, order: seq<int>, clock: int, k: nat)
    requires Newest(stamp, order, clock) && Distinct(order) && k < |order|
    ensures Newest(stamp[order[k] := clock + 1], MovedFirst(order, k), clock + 1)
    ensures forall x :: 0 <= x < NBUF ==> stamp[x] <= clock
  {
    var rest := order[..k] + order[k + 1..];
    MovedElements(order, k);
    NewestFirst(stamp, rest, clock, order[k]);
    assert [order[k]] + rest == MovedFirst(order, k);
  }
}

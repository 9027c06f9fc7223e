/** What several components share: the sizes of param.h, 32-bit numbers, and C strings. */
module Common {

  /** The most blocks that one file system operation writes, as begin_op reserves them. */
  const MAXOPBLOCKS := 10

  /** The most sectors in the log header. */
  const LOGSIZE := 30

  /** The buffers of the cache. */
  const NBUF := 30

  const TWO32 := 0x1_0000_0000

  /** An int or unsigned int, taken modulo 2^32. */
  function Wrap(n: int): (w: nat)
    ensures w < TWO32
  {
    n % TWO32
  }

  const NUL := '\0'

  predicate NoNul(s: string) {
    forall k :: 0 <= k < |s| ==> s[k] != NUL
  }

  /** Reading a string at or after its end yields its terminator. */
  function At(s: string, i: nat): (c: char) {
    if i < |s| then s[i] else NUL
  }

  function Elements<T(==, !new)>(s: seq<T>): (r: set<T>)
    ensures forall x :: x in r <==> x in s
  {
    set x | x in s
  }

  lemma {:induction false} ElementsSize<T(!new)>(s: seq<T>)
    requires Distinct(s)
    ensures |Elements(s)| == |s|
  {
    if s != [] {
      var n := |s| - 1;
      ElementsSize(s[..n]);
      assert s == s[..n] + [s[n]];
      assert Elements(s) == Elements(s[..n]) + {s[n]};
    }
  }

  predicate Between(i: nat, a: nat, b: nat) {
    a <= i < b
  }

  function Interval(a: nat, b: nat): (s: set<nat>)
    ensures forall i: nat :: i in s <==> Between(i, a, b)
  {
    set i: nat | i < b && Between(i, a, b)
  }

  lemma {:induction false} IntervalSize(a: nat, b: nat)
    requires a <= b
    ensures |Interval(a, b)| == b - a
    decreases b - a
  {
    if a < b {
      IntervalSize(a, b - 1);
      assert Interval(a, b) == Interval(a, b - 1) + {b - 1};
    } else {
      assert Interval(a, b) == {};
    }
  }

  lemma SubsetSize<T>(a: set<T>, b: set<T>)
    requires a <= b
    ensures |a| <= |b|
  {
    assert b == a + (b - a);
  }

  predicate Distinct<T(==)>(s: seq<T>) {
    forall i, j :: 0 <= i < j < |s| ==> s[i] != s[j]
  }
}

/** Generic sequence helpers: ranges of pages concatenated, and the array methods map, filter and [...new Set(...)]. */
module Seqs {

  /** Math.min on integers. */
  function Min(a: int, b: int): int {
    if a <= b then a else b
  }

  /** f(lo) + f(lo + 1) + ... + f(hi); empty when hi < lo. */
  function ConcatRange<T>(f: nat -> seq<T>, lo: nat, hi: int): seq<T>
    decreases hi - lo
  {
    if hi < lo then [] else ConcatRange(f, lo, hi - 1) + f(hi)
  }

  /** A range's concatenation is that of a first part followed by that of the rest. */
  lemma {:induction false} ConcatRangeSplit<T>(f: nat -> seq<T>, lo: nat, mid: nat, hi: int)
    requires lo <= mid <= hi + 1
    ensures ConcatRange(f, lo, hi) == ConcatRange(f, lo, mid - 1) + ConcatRange(f, mid, hi)
    decreases hi - mid
  {
    if mid <= hi {
      ConcatRangeSplit(f, lo, mid, hi - 1);
    }
  }

  /** An element is in a range's concatenation exactly when some index of the range contributes it. */
  lemma {:induction false} ConcatRangeMembership<T>(f: nat -> seq<T>, lo: nat, hi: int, x: T)
    ensures x in ConcatRange(f, lo, hi) <==> exists k :: lo <= k <= hi && x in f(k)
    decreases hi - lo
  {
    if hi >= lo {
      var before := ConcatRange(f, lo, hi - 1);
      ConcatRangeMembership(f, lo, hi - 1, x);
      if x in before + f(hi) {
        if x in before {
          var k :| lo <= k <= hi - 1 && x in f(k);
          assert lo <= k <= hi;
        }
      }
      if exists k :: lo <= k <= hi && x in f(k) {
        var k :| lo <= k <= hi && x in f(k);
        if k < hi {
          assert x in before;
        }
      }
    }
  }

  /** Array.prototype.map. */
  function MapSeq<T, U>(f: T -> U, s: seq<T>): (r: seq<U>)
    ensures |r| == |s|
    ensures forall i :: 0 <= i < |s| ==> r[i] == f(s[i])
  {
    seq(|s|, i requires 0 <= i < |s| => f(s[i]))
  }

  /** Array.prototype.filter: the elements satisfying p, in their original order. */
  function Filter<T>(p: T -> bool, s: seq<T>): (r: seq<T>)
    ensures |r| <= |s|
  {
    if s == [] then []
    else (if p(s[0]) then [s[0]] else []) + Filter(p, s[1..])
  }

  /** A value is in the filtered sequence exactly when it is in s and satisfies p. */
  lemma {:induction false} FilterMembership<T>(p: T -> bool, s: seq<T>, x: T)
    ensures x in Filter(p, s) <==> x in s && p(x)
  {
    if s != [] {
      FilterMembership(p, s[1..], x);
      assert s == [s[0]] + s[1..];
    }
  }

  /** Every element of the filtered sequence satisfies p. */
  lemma FilterSatisfies<T>(p: T -> bool, s: seq<T>)
    ensures forall i :: 0 <= i < |Filter(p, s)| ==> p(Filter(p, s)[i])
  {
    var r := Filter(p, s);
    forall i | 0 <= i < |r| ensures p(r[i]) {
      FilterMembership(p, s, r[i]);
    }
  }

  /** A value is among the images of the filtered elements exactly when some element satisfying p maps to it. */
  lemma MapFilterMembership<T, U>(f: T -> U, p: T -> bool, s: seq<T>, y: U)
    ensures y in MapSeq(f, Filter(p, s)) <==> exists i :: 0 <= i < |s| && p(s[i]) && f(s[i]) == y
  {
    var kept := Filter(p, s);
    if y in MapSeq(f, kept) {
      var j :| 0 <= j < |kept| && f(kept[j]) == y;
      FilterMembership(p, s, kept[j]);
      var i :| 0 <= i < |s| && s[i] == kept[j];
    }
    if exists i :: 0 <= i < |s| && p(s[i]) && f(s[i]) == y {
      var i :| 0 <= i < |s| && p(s[i]) && f(s[i]) == y;
      FilterMembership(p, s, s[i]);
      var j :| 0 <= j < |kept| && kept[j] == s[i];
      assert MapSeq(f, kept)[j] == y;
    }
  }

  /** Filter on a two-element sequence. */
  lemma FilterPair<T>(p: T -> bool, a: T, b: T)
    ensures Filter(p, [a, b]) == (if p(a) then [a] else []) + (if p(b) then [b] else [])
  {
    assert [a, b][1..] == [b];
    assert [b][1..] == [];
  }

  /** Filtering a concatenation filters each part, keeping their order. */
  lemma {:induction false} FilterAppend<T>(p: T -> bool, a: seq<T>, b: seq<T>)
    ensures Filter(p, a + b) == Filter(p, a) + Filter(p, b)
  {
    if a != [] {
      assert (a + b)[0] == a[0];
      assert (a + b)[1..] == a[1..] + b;
      FilterAppend(p, a[1..], b);
    } else {
      assert a + b == b;
    }
  }

  /** Filter keeps every occurrence of a satisfying value and none of the others. */
  lemma {:induction false} FilterCounts<T>(p: T -> bool, s: seq<T>, x: T)
    ensures multiset(Filter(p, s))[x] == if p(x) then multiset(s)[x] else 0
  {
    if s != [] {
      FilterCounts(p, s[1..], x);
      var head := if p(s[0]) then [s[0]] else [];
      assert Filter(p, s) == head + Filter(p, s[1..]);
      assert multiset(Filter(p, s)) == multiset(head) + multiset(Filter(p, s[1..]));
      assert s == [s[0]] + s[1..];
      assert multiset(s) == multiset([s[0]]) + multiset(s[1..]);
    }
  }

  /** A sequence whose elements all satisfy p is its own filter. */
  lemma {:induction false} FilterAll<T>(p: T -> bool, s: seq<T>)
    requires forall i :: 0 <= i < |s| ==> p(s[i])
    ensures Filter(p, s) == s
  {
    if s != [] {
      FilterAll(p, s[1..]);
    }
  }

  predicate NoDuplicates<T(==)>(s: seq<T>) {
    forall i, j :: 0 <= i < j < |s| ==> s[i] != s[j]
  }

  /** The position of the first occurrence of x in s. */
  function FirstIndex<T(==)>(s: seq<T>, x: T): (k: nat)
    requires x in s
    ensures k < |s| && s[k] == x
    ensures forall j :: 0 <= j < k ==> s[j] != x
  {
    if s[0] == x then 0 else 1 + FirstIndex(s[1..], x)
  }

  /**
   * [...new Set(s)]: each distinct value once, in order of first occurrence
   * (a value seen again is skipped).
   */
  function Dedup<T(==)>(s: seq<T>): (r: seq<T>)
    ensures forall i :: 0 <= i < |r| ==> r[i] in s
    ensures forall i :: 0 <= i < |s| ==> s[i] in r
    ensures NoDuplicates(r)
  {
    if s == [] then []
    else
      var init, last := s[..|s| - 1], s[|s| - 1];
      assert s == init + [last];
      if last in init then Dedup(init) else Dedup(init) + [last]
  }

  /** Appending a value leaves the first occurrences of the earlier values where they were. */
  lemma FirstIndexExtend<T>(init: seq<T>, last: T, y: T)
    requires y in init
    ensures FirstIndex(init + [last], y) == FirstIndex(init, y)
  {
    var s := init + [last];
    var k := FirstIndex(init, y);
    assert s[k] == y;
  }

  /** De-duplication keeps every value and adds none. */
  lemma DedupMembership<T>(s: seq<T>, x: T)
    ensures x in Dedup(s) <==> x in s
  {
    var r := Dedup(s);
    if x in r {
      var i :| 0 <= i < |r| && r[i] == x;
    }
    if x in s {
      var i :| 0 <= i < |s| && s[i] == x;
    }
  }

  /** Consecutive ranges: a first part and a following range make one range. */
  lemma ConcatRangeExtend<T>(f: nat -> seq<T>, prefix: seq<T>, lo: nat, mid: int, hi: int)
    requires prefix == ConcatRange(f, lo, mid) && lo <= mid + 1 <= hi + 1
    ensures prefix + ConcatRange(f, mid + 1, hi) == ConcatRange(f, lo, hi)
  {
    ConcatRangeSplit(f, lo, mid + 1, hi);
  }

  /** Two consecutive indices. */
  lemma ConcatRangePair<T>(f: nat -> seq<T>, lo: nat)
    ensures ConcatRange(f, lo, lo + 1) == f(lo) + f(lo + 1)
  {
    assert ConcatRange(f, lo, lo - 1) == [];
    assert ConcatRange(f, lo, lo) == f(lo);
  }

  /** Dedup on a one-element sequence. */
  lemma DedupSingle<T>(a: T)
    ensures Dedup([a]) == [a]
  {
    assert [a][..0] == [];
  }

  /** Dedup on a two-element sequence. */
  lemma DedupPair<T>(a: T, b: T)
    ensures Dedup([a, b]) == if a == b then [a] else [a, b]
  {
    assert [a, b][..1] == [a];
    DedupSingle(a);
  }

  /** The values of r appear in the order of their first occurrences in s. */
  predicate InFirstOccurrenceOrder<T(==)>(s: seq<T>, r: seq<T>)
    requires forall i :: 0 <= i < |r| ==> r[i] in s
  {
    forall i, j :: 0 <= i < j < |r| ==> FirstIndex(s, r[i]) < FirstIndex(s, r[j])
  }

  /** Appending to s keeps that order, and a new value may follow the old ones. */
  lemma OrderExtend<T>(init: seq<T>, last: T, p: seq<T>)
    requires forall i :: 0 <= i < |p| ==> p[i] in init
    requires InFirstOccurrenceOrder(init, p)
    ensures InFirstOccurrenceOrder(init + [last], p)
    ensures last !in init ==> InFirstOccurrenceOrder(init + [last], p + [last])
  {
    var s := init + [last];
    forall i | 0 <= i < |p|
      ensures FirstIndex(s, p[i]) == FirstIndex(init, p[i]) < |init|
    {
      FirstIndexExtend(init, last, p[i]);
    }
    if last !in init {
      assert FirstIndex(s, last) == |init|;
      var r := p + [last];
      forall i, j | 0 <= i < j < |r|
        ensures FirstIndex(s, r[i]) < FirstIndex(s, r[j])
      {
        assert r[i] == p[i];
        if j < |p| {
          assert r[j] == p[j];
        }
      }
    }
  }

  /** The values of Dedup(s) come in the order of their first occurrences in s. */
  lemma {:induction false} DedupFirstOccurrenceOrder<T>(s: seq<T>)
    ensures InFirstOccurrenceOrder(s, Dedup(s))
  {
    if s != [] {
      var init, last := s[..|s| - 1], s[|s| - 1];
      assert s == init + [last];
      DedupFirstOccurrenceOrder(init);
      OrderExtend(init, last, Dedup(init));
    }
  }
}

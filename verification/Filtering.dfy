/** Filtering of sequences: membership, order, concatenation and rank. */
module Filtering {
  import opened Sorting

  function Filter<T>(p: T -> bool, s: seq<T>): (r: seq<T>)
    ensures |r| <= |s|
  {
    if s == [] then []
    else
      var rest := Filter(p, s[..|s| - 1]);
      if p(s[|s| - 1]) then rest + [s[|s| - 1]] else rest
  }

  lemma {:induction false} FilterElement<T>(p: T -> bool, s: seq<T>, x: T)
    ensures x in Filter(p, s) <==> x in s && p(x)
  {
    if s != [] {
      FilterElement(p, s[..|s| - 1], x);
      assert s == s[..|s| - 1] + [s[|s| - 1]];
    }
  }

  lemma FilterMember<T>(p: T -> bool, s: seq<T>)
    ensures forall x {:trigger x in Filter(p, s)} {:trigger x in s} :: x in Filter(p, s) <==> x in s && p(x)
  {
    forall x ensures x in Filter(p, s) <==> x in s && p(x) { FilterElement(p, s, x); }
  }

  lemma {:induction false} FilterAppend<T>(p: T -> bool, a: seq<T>, b: seq<T>)
    ensures Filter(p, a + b) == Filter(p, a) + Filter(p, b)
  {
    if b == [] {
      assert a + b == a;
    } else {
      FilterAppend(p, a, b[..|b| - 1]);
      assert (a + b)[..|a + b| - 1] == a + b[..|b| - 1];
      assert (a + b)[|a + b| - 1] == b[|b| - 1];
    }
  }

  /** Two predicates that agree on a sequence's elements filter it alike. */
  lemma {:induction false} FilterAgree<T>(p: T -> bool, q: T -> bool, s: seq<T>)
    requires forall x :: x in s ==> p(x) == q(x)
    ensures Filter(p, s) == Filter(q, s)
  {
    if s != [] { FilterAgree(p, q, s[..|s| - 1]); }
  }

  lemma {:induction false} FilterAll<T>(p: T -> bool, s: seq<T>)
    requires forall x :: x in s ==> p(x)
    ensures Filter(p, s) == s
  {
    if s != [] {
      FilterAll(p, s[..|s| - 1]);
      assert s == s[..|s| - 1] + [s[|s| - 1]];
    }
  }

  lemma {:induction false} FilterNone<T>(p: T -> bool, s: seq<T>)
    requires forall x :: x in s ==> !p(x)
    ensures Filter(p, s) == []
  {
    if s != [] { FilterNone(p, s[..|s| - 1]); }
  }

  /** Filtering by the stronger of two predicates absorbs the weaker. */
  lemma {:induction false} FilterAbsorb<T>(p: T -> bool, q: T -> bool, s: seq<T>)
    requires forall x :: x in s && p(x) ==> q(x)
    ensures Filter(p, Filter(q, s)) == Filter(p, s)
  {
    if s != [] {
      var front := s[..|s| - 1];
      FilterAbsorb(p, q, front);
      if q(s[|s| - 1]) {
        var r := Filter(q, front) + [s[|s| - 1]];
        assert r[..|r| - 1] == Filter(q, front);
      }
    }
  }

  /** Filtering twice is filtering by the conjunction. */
  lemma {:induction false} FilterBoth<T>(p: T -> bool, q: T -> bool, both: T -> bool, s: seq<T>)
    requires forall x :: x in s ==> (both(x) <==> p(x) && q(x))
    ensures Filter(p, Filter(q, s)) == Filter(both, s)
  {
    if s != [] {
      var front := s[..|s| - 1];
      FilterBoth(p, q, both, front);
      if q(s[|s| - 1]) {
        var r := Filter(q, front) + [s[|s| - 1]];
        assert r[..|r| - 1] == Filter(q, front);
      }
    }
  }

  lemma {:induction false} FilterCommute<T>(p: T -> bool, q: T -> bool, s: seq<T>)
    ensures Filter(p, Filter(q, s)) == Filter(q, Filter(p, s))
  {
    if s != [] {
      var front, x := s[..|s| - 1], s[|s| - 1];
      FilterCommute(p, q, front);
      FilterAppend(p, Filter(q, front), [x]);
      FilterAppend(q, Filter(p, front), [x]);
    }
  }

  /** A filter that drops nothing leaves the sequence as it is. */
  lemma {:induction false} FilterFull<T>(p: T -> bool, s: seq<T>)
    requires |Filter(p, s)| == |s|
    ensures Filter(p, s) == s && forall x :: x in s ==> p(x)
  {
    if s != [] {
      FilterFull(p, s[..|s| - 1]);
      assert s == s[..|s| - 1] + [s[|s| - 1]];
    }
  }

  lemma {:induction false} FilterSorted<T>(p: T -> bool, less: (T, T) -> bool, s: seq<T>)
    requires StrictlySortedBy(less, s)
    ensures StrictlySortedBy(less, Filter(p, s))
  {
    if s != [] {
      var front := s[..|s| - 1];
      FilterSorted(p, less, front);
      var r := Filter(p, front);
      forall i | 0 <= i < |r| ensures less(r[i], s[|s| - 1]) {
        FilterElement(p, front, r[i]);
        assert r[i] in r;
        var k :| 0 <= k < |front| && front[k] == r[i];
      }
    }
  }

  lemma {:induction false} DistinctCount<T>(s: seq<T>)
    requires forall i, j :: 0 <= i < j < |s| ==> s[i] != s[j]
    ensures |set x | x in s| == |s|
  {
    if s == [] {
      assert (set x | x in s) == {};
    } else {
      var front, last := s[..|s| - 1], s[|s| - 1];
      DistinctCount(front);
      assert (set x | x in s) == (set x | x in front) + {last};
      assert last !in front;
    }
  }

  ghost function Below<T>(less: (T, T) -> bool, s: seq<T>, y: T): set<T> { set x | x in s && less(x, y) }

  /** In a strictly sorted sequence, an element's index is the number of elements below it. */
  lemma RankIsIndex<T(!new)>(less: (T, T) -> bool, s: seq<T>, i: nat)
    requires forall x, y :: !(less(x, y) && less(y, x))
    requires StrictlySortedBy(less, s) && i < |s|
    ensures |Below(less, s, s[i])| == i
  {
    var below := s[..i];
    forall x ensures x in below <==> x in s && less(x, s[i]) {
      if x in s && less(x, s[i]) {
        var k :| 0 <= k < |s| && s[k] == x;
        assert below[k] == x;
      }
    }
    assert Below(less, s, s[i]) == set x | x in below;
    DistinctCount(below);
  }
}

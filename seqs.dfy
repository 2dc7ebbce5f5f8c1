/** Sequence operations the source gets from Python built-ins: list
    comprehensions with a condition (`[x for x in s if p(x)]`) and the stable
    `list.sort(key=...)`. */
module Seqs {

  /** `[x for x in s if p(x)]`, built from the right so that it peels off the
      element a left-to-right loop appends last. */
  function Filter<T>(s: seq<T>, p: T -> bool): (r: seq<T>)
    ensures |r| <= |s|
  {
    if s == [] then [] else
      Filter(s[..|s| - 1], p) + (if p(s[|s| - 1]) then [s[|s| - 1]] else [])
  }

  /** Filtering distributes over concatenation: the kept elements stay in
      their original relative order. */
  lemma {:induction false} FilterConcat<T>(a: seq<T>, b: seq<T>, p: T -> bool)
    ensures Filter(a + b, p) == Filter(a, p) + Filter(b, p)
  {
    if b == [] {
      assert a + b == a;
    } else {
      var b' := b[..|b| - 1];
      assert (a + b)[..|a + b| - 1] == a + b';
      FilterConcat(a, b', p);
    }
  }

  /** Every element satisfying p is kept as often as it occurs; every other
      element is dropped. */
  lemma {:induction false} FilterCount<T>(s: seq<T>, p: T -> bool, x: T)
    ensures multiset(Filter(s, p))[x] == if p(x) then multiset(s)[x] else 0
  {
    if s != [] {
      var s' := s[..|s| - 1];
      assert s == s' + [s[|s| - 1]];
      FilterCount(s', p, x);
    }
  }

  /** When every element satisfies p, filtering changes nothing. */
  lemma {:induction false} FilterKeepsAll<T>(s: seq<T>, p: T -> bool)
    requires forall i :: 0 <= i < |s| ==> p(s[i])
    ensures Filter(s, p) == s
  {
    if s != [] {
      FilterKeepsAll(s[..|s| - 1], p);
    }
  }

  /** The predicate "x has key k". */
  function KeyIs<T>(key: T -> int, k: int): T -> bool
  {
    x => key(x) == k
  }

  /** s is ordered by non-decreasing key. */
  ghost predicate SortedBy<T>(s: seq<T>, key: T -> int)
  {
    forall i, j :: 0 <= i < j < |s| ==> key(s[i]) <= key(s[j])
  }

  /** Inserts x into s after the longest prefix whose keys are all <= key(x):
      into a sorted s, after every element whose key is <= key(x). */
  function InsertBy<T>(s: seq<T>, x: T, key: T -> int): (r: seq<T>)
    ensures multiset(r) == multiset(s) + multiset{x}
    ensures |r| == |s| + 1
  {
    if s == [] then [x]
    else if key(x) < key(s[0]) then [x] + s
    else
      assert s == [s[0]] + s[1..];
      [s[0]] + InsertBy(s[1..], x, key)
  }

  lemma {:induction false} InsertBySorted<T>(s: seq<T>, x: T, key: T -> int)
    requires SortedBy(s, key)
    ensures SortedBy(InsertBy(s, x, key), key)
  {
    if s != [] && key(s[0]) <= key(x) {
      var t := InsertBy(s[1..], x, key);
      InsertBySorted(s[1..], x, key);
      forall y | y in t ensures key(s[0]) <= key(y) {
        assert y in multiset(t);
        if y != x {
          var i :| 0 <= i < |s[1..]| && s[1..][i] == y;
          assert s[i + 1] == y;
        }
      }
      assert InsertBy(s, x, key) == [s[0]] + t;
    }
  }

  /** The stable sort of s by key (Python's `s.sort(key=key)`): an insertion
      sort that takes the elements in order, placing each after the equal
      keys already placed. */
  function SortBy<T>(s: seq<T>, key: T -> int): (r: seq<T>)
    ensures multiset(r) == multiset(s)
    ensures |r| == |s|
  {
    if s == [] then []
    else
      assert s == s[..|s| - 1] + [s[|s| - 1]];
      InsertBy(SortBy(s[..|s| - 1], key), s[|s| - 1], key)
  }

  /** The sort puts its result in non-decreasing key order. */
  lemma {:induction false} SortBySorted<T>(s: seq<T>, key: T -> int)
    ensures SortedBy(SortBy(s, key), key)
  {
    if s != [] {
      SortBySorted(s[..|s| - 1], key);
      InsertBySorted(SortBy(s[..|s| - 1], key), s[|s| - 1], key);
    }
  }

  /** When no element satisfies p, filtering leaves nothing. */
  lemma {:induction false} FilterDropsAll<T>(s: seq<T>, p: T -> bool)
    requires forall i :: 0 <= i < |s| ==> !p(s[i])
    ensures Filter(s, p) == []
  {
    if s != [] {
      FilterDropsAll(s[..|s| - 1], p);
    }
  }

  lemma FilterSingle<T>(x: T, p: T -> bool)
    ensures Filter([x], p) == if p(x) then [x] else []
  {
    assert [x][..0] == [];
  }

  /** Inserting x adds it behind every element of equal key. */
  lemma {:induction false} InsertByStable<T>(s: seq<T>, x: T, key: T -> int, k: int)
    requires SortedBy(s, key)
    ensures Filter(InsertBy(s, x, key), KeyIs(key, k))
         == Filter(s, KeyIs(key, k)) + Filter([x], KeyIs(key, k))
  {
    var p := KeyIs(key, k);
    FilterSingle(x, p);
    if s == [] {
    } else if key(x) < key(s[0]) {
      assert InsertBy(s, x, key) == [x] + s;
      FilterConcat([x], s, p);
      if key(x) == k {
        // Every key in s is at least key(s[0]) > k.
        forall i | 0 <= i < |s| ensures !p(s[i]) {
          assert i == 0 || key(s[0]) <= key(s[i]);
        }
        FilterDropsAll(s, p);
      }
    } else {
      InsertByUnfold(s, x, key);
      InsertByStable(s[1..], x, key, k);
      FilterConsStep(s, InsertBy(s[1..], x, key), x, p);
    }
  }

  /** The inductive step of InsertByStable, apart from the sort order. */
  lemma FilterConsStep<T>(s: seq<T>, ins: seq<T>, x: T, p: T -> bool)
    requires s != []
    requires Filter(ins, p) == Filter(s[1..], p) + Filter([x], p)
    ensures Filter([s[0]] + ins, p) == Filter(s, p) + Filter([x], p)
  {
    FilterConcat([s[0]], ins, p);
    FilterConcat([s[0]], s[1..], p);
    assert s == [s[0]] + s[1..];
  }

  lemma InsertByUnfold<T>(s: seq<T>, x: T, key: T -> int)
    requires SortedBy(s, key) && s != [] && key(s[0]) <= key(x)
    ensures SortedBy(s[1..], key)
    ensures InsertBy(s, x, key) == [s[0]] + InsertBy(s[1..], x, key)
  {
  }

  /** The sort is stable: the elements with any one key appear in the result
      in the same order as in the input. */
  lemma {:induction false} SortByStable<T>(s: seq<T>, key: T -> int, k: int)
    ensures Filter(SortBy(s, key), KeyIs(key, k)) == Filter(s, KeyIs(key, k))
  {
    if s != [] {
      var p := KeyIs(key, k);
      var init, last := s[..|s| - 1], s[|s| - 1];
      var sorted := SortBy(init, key);
      assert SortBy(s, key) == InsertBy(sorted, last, key);
      SortByStable(init, key, k);
      SortBySorted(init, key);
      InsertByStable(sorted, last, key, k);
      FilterSnoc(s, p);
      calc {
        Filter(SortBy(s, key), p);
        Filter(sorted, p) + Filter([last], p);
        Filter(init, p) + Filter([last], p);
        Filter(s, p);
      }
    }
  }

  /** Filtering s is filtering all of s but its last element, then that one. */
  lemma FilterSnoc<T>(s: seq<T>, p: T -> bool)
    requires s != []
    ensures Filter(s, p) == Filter(s[..|s| - 1], p) + Filter([s[|s| - 1]], p)
  {
    FilterConcat(s[..|s| - 1], [s[|s| - 1]], p);
    assert s[..|s| - 1] + [s[|s| - 1]] == s;
  }
}

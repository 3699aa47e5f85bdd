/** `sort.SliceStable` as a function: the result is sorted, a permutation, and keeps
    the input order of elements the comparison cannot tell apart. */
module Sorting {
  import opened Text

  /** What Go demands of a `less` function. */
  ghost predicate StrictWeakOrder<T(!new)>(less: (T, T) -> bool) {
    && (forall a, b :: less(a, b) ==> !less(b, a))
    && (forall a, b, c :: less(a, b) && less(b, c) ==> less(a, c))
    && (forall a, b, c :: less(a, c) ==> less(a, b) || less(b, c))
  }

  ghost predicate Sorted<T>(s: seq<T>, less: (T, T) -> bool) {
    forall i, j :: 0 <= i < j < |s| ==> !less(s[j], s[i])
  }

  function Insert<T>(x: T, s: seq<T>, less: (T, T) -> bool): (r: seq<T>)
    ensures multiset(r) == multiset{x} + multiset(s)
    ensures |r| == |s| + 1
  {
    if s == [] then [x]
    else if less(s[0], x) then
      assert s == [s[0]] + s[1..];
      [s[0]] + Insert(x, s[1..], less)
    else [x] + s
  }

  function StableSort<T>(s: seq<T>, less: (T, T) -> bool): (r: seq<T>)
    ensures multiset(r) == multiset(s)
    ensures |r| == |s|
  {
    if s == [] then []
    else
      assert s == [s[0]] + s[1..];
      Insert(s[0], StableSort(s[1..], less), less)
  }

  lemma {:induction false} InsertSorts<T(!new)>(x: T, s: seq<T>, less: (T, T) -> bool)
    requires StrictWeakOrder(less) && Sorted(s, less)
    ensures Sorted(Insert(x, s, less), less)
  {
    if s != [] && less(s[0], x) {
      var rest := Insert(x, s[1..], less);
      InsertSorts(x, s[1..], less);
      forall j | 0 <= j < |rest| ensures !less(rest[j], s[0]) {
        assert rest[j] in multiset(rest);
        if rest[j] != x {
          assert rest[j] in s[1..];
        }
      }
    } else if s != [] {
      forall j | 0 <= j < |s| ensures !less(s[j], x) {
      }
    }
  }

  lemma {:induction false} StableSortSorts<T(!new)>(s: seq<T>, less: (T, T) -> bool)
    requires StrictWeakOrder(less)
    ensures Sorted(StableSort(s, less), less)
  {
    if s != [] {
      StableSortSorts(s[1..], less);
      InsertSorts(s[0], StableSort(s[1..], less), less);
    }
  }

  lemma SameMembers<T>(a: seq<T>, b: seq<T>)
    requires multiset(a) == multiset(b)
    ensures |a| == |b|
    ensures forall x :: x in a <==> x in b
  {
    assert forall x :: x in a <==> x in multiset(a);
    assert forall x :: x in b <==> x in multiset(b);
    assert |multiset(a)| == |a| && |multiset(b)| == |b|;
  }

  // ---- permutations ----

  ghost predicate DistinctBy<T, K>(s: seq<T>, key: T -> K) {
    forall i, j :: 0 <= i < j < |s| ==> key(s[i]) != key(s[j])
  }

  lemma {:induction false} OnceEach<T, K>(s: seq<T>, key: T -> K, x: T)
    requires DistinctBy(s, key)
    ensures multiset(s)[x] <= 1
  {
    if s != [] {
      OnceEach(s[1..], key, x);
      assert s == [s[0]] + s[1..];
    }
  }

  /** Lists without repetition and with the same members are permutations of each other. */
  lemma SameSets<T, K>(a: seq<T>, b: seq<T>, key: T -> K)
    requires DistinctBy(a, key) && DistinctBy(b, key) && forall x :: x in a <==> x in b
    ensures multiset(a) == multiset(b)
  {
    forall x ensures multiset(a)[x] == multiset(b)[x] {
      OnceEach(a, key, x);
      OnceEach(b, key, x);
      assert (x in a <==> x in multiset(a)) && (x in b <==> x in multiset(b));
    }
  }

  /** Distinct keys stay distinct in every order. */
  lemma PermutationKeepsDistinct<T, K>(s: seq<T>, t: seq<T>, key: T -> K)
    requires multiset(s) == multiset(t) && DistinctBy(s, key)
    ensures DistinctBy(t, key)
  {
    SameMembers(s, t);
    forall i, j | 0 <= i < j < |t| ensures key(t[i]) != key(t[j]) {
      if t[i] == t[j] {
        assert t == t[..i] + [t[i]] + t[i + 1..j] + [t[j]] + t[j + 1..];
        assert multiset(t)[t[i]] >= 2;
        OnceEach(s, key, t[i]);
      } else {
        assert t[i] in s && t[j] in s;
      }
    }
  }

  lemma SameHead<T(!new)>(s: seq<T>, t: seq<T>, less: (T, T) -> bool)
    requires StrictWeakOrder(less) && (forall x :: x in s <==> x in t) && Sorted(t, less) && s != [] && t != []
    requires forall i, j :: 0 <= i < j < |s| ==> less(s[i], s[j])
    ensures s[0] == t[0]
  {
    assert t[0] in s && s[0] in t;
    var i :| 0 <= i < |s| && s[i] == t[0];
    var j :| 0 <= j < |t| && t[j] == s[0];
    assert i > 0 ==> less(s[0], s[i]);
    assert j > 0 ==> !less(t[j], t[0]);
  }

  lemma SameTail<T>(s: seq<T>, t: seq<T>)
    requires s != [] && t != [] && s[0] == t[0] && multiset(s) == multiset(t)
    ensures multiset(s[1..]) == multiset(t[1..])
  {
    assert s == [s[0]] + s[1..] && t == [t[0]] + t[1..];
    assert multiset(s[1..]) == multiset(s) - multiset{s[0]} && multiset(t[1..]) == multiset(t) - multiset{t[0]};
  }

  /** A strictly increasing sequence is the only sorted order of its elements. */
  lemma {:induction false} StrictOrderIsUnique<T(!new)>(s: seq<T>, t: seq<T>, less: (T, T) -> bool)
    requires StrictWeakOrder(less) && multiset(s) == multiset(t) && Sorted(t, less)
    requires forall i, j :: 0 <= i < j < |s| ==> less(s[i], s[j])
    ensures s == t
  {
    hide StrictWeakOrder;
    SameMembers(s, t);
    if s != [] {
      SameHead(s, t, less);
      SameTail(s, t);
      assert s == [s[0]] + s[1..] && t == [t[0]] + t[1..];
      StrictOrderIsUnique(s[1..], t[1..], less);
    }
  }

  // ---- ranging over a Go map ----

  ghost predicate KeyedBy<V>(m: map<string, V>, key: V -> string) { forall id :: id in m ==> key(m[id]) == id }

  /** `s` lists the values of `m`, each key once. */
  ghost predicate Lists<V(!new)>(s: seq<V>, m: map<string, V>, key: V -> string) {
    (forall v :: v in s <==> key(v) in m && m[key(v)] == v) && DistinctBy(s, key)
  }

  /** A range loop that collects the values, in an order Go does not fix. */
  method RangeValues<V(!new)>(m: map<string, V>, key: V -> string) returns (s: seq<V>)
    requires KeyedBy(m, key)
    ensures Lists(s, m, key)
  {
    s := [];
    var left := m.Keys;
    while left != {}
      invariant left <= m.Keys
      invariant forall v :: v in s <==> key(v) in m && key(v) !in left && m[key(v)] == v
      invariant DistinctBy(s, key)
    {
      var id :| id in left;
      assert forall i :: 0 <= i < |s| ==> s[i] in s;
      s := s + [m[id]];
      left := left - {id};
    }
  }

  lemma ListsAfterSort<V(!new)>(s: seq<V>, m: map<string, V>, key: V -> string, less: (V, V) -> bool)
    requires Lists(s, m, key)
    ensures Lists(StableSort(s, less), m, key)
  {
    SameMembers(StableSort(s, less), s);
    PermutationKeepsDistinct(s, StableSort(s, less), key);
  }

  // ---- sort, then take the first ----

  /** A search loop: the first element satisfying `p`. */
  function FirstSat<T>(s: seq<T>, p: T -> bool): Option<T> {
    if s == [] then None else if p(s[0]) then Some(s[0]) else FirstSat(s[1..], p)
  }

  /** The reference: scan once and keep the least satisfying element, the earliest of equals. */
  function BestSat<T>(s: seq<T>, less: (T, T) -> bool, p: T -> bool): Option<T> {
    if s == [] then None
    else
      var rest := BestSat(s[1..], less, p);
      if p(s[0]) && (rest.None? || !less(rest.value, s[0])) then Some(s[0]) else rest
  }

  lemma {:induction false} BestSatIsLeast<T(!new)>(s: seq<T>, less: (T, T) -> bool, p: T -> bool)
    requires StrictWeakOrder(less)
    ensures BestSat(s, less, p).None? <==> forall x :: x in s ==> !p(x)
    ensures BestSat(s, less, p).Some? ==> Least(s, less, p, BestSat(s, less, p).value)
  {
    if s != [] {
      BestSatIsLeast(s[1..], less, p);
      assert forall x :: x in s <==> x == s[0] || x in s[1..];
    }
  }

  /** `x` satisfies `p` and nothing in `s` that does comes before it. */
  ghost predicate Least<T>(s: seq<T>, less: (T, T) -> bool, p: T -> bool, x: T) {
    x in s && p(x) && forall y :: y in s && p(y) ==> !less(y, x)
  }

  lemma {:induction false} FirstSatInSorted<T(!new)>(s: seq<T>, less: (T, T) -> bool, p: T -> bool)
    requires StrictWeakOrder(less) && Sorted(s, less)
    ensures FirstSat(s, p).Some? ==> Least(s, less, p, FirstSat(s, p).value)
    ensures FirstSat(s, p).None? ==> forall x :: x in s ==> !p(x)
  {
    if s != [] && !p(s[0]) {
      FirstSatInSorted(s[1..], less, p);
    }
  }

  lemma {:induction false} FirstAfterInsert<T(!new)>(x: T, s: seq<T>, less: (T, T) -> bool, p: T -> bool)
    requires StrictWeakOrder(less) && Sorted(s, less)
    ensures FirstSat(Insert(x, s, less), p) ==
            if p(x) && (FirstSat(s, p).None? || !less(FirstSat(s, p).value, x)) then Some(x) else FirstSat(s, p)
  {
    if s != [] {
      var r := Insert(x, s, less);
      if less(s[0], x) {
        assert r[0] == s[0] && r[1..] == Insert(x, s[1..], less);
        FirstAfterInsert(x, s[1..], less, p);
      } else {
        assert r[0] == x && r[1..] == s;
        FirstSatInSorted(s, less, p);
        if p(x) && FirstSat(s, p).Some? {
          var i :| 0 <= i < |s| && s[i] == FirstSat(s, p).value;
          assert !less(s[i], s[0]) || i == 0;
        }
      }
    }
  }

  /** Sorting and taking the first match is the single-pass argmax, ties included. */
  lemma {:induction false} SortThenFirst<T(!new)>(s: seq<T>, less: (T, T) -> bool, p: T -> bool)
    requires StrictWeakOrder(less)
    ensures FirstSat(StableSort(s, less), p) == BestSat(s, less, p)
  {
    if s != [] {
      SortThenFirst(s[1..], less, p);
      StableSortSorts(s[1..], less);
      FirstAfterInsert(s[0], StableSort(s[1..], less), less, p);
    }
  }
}

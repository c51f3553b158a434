/** sort.SliceStable: the one sorted arrangement that keeps equivalent elements in their order. */
module StableSort {

  /** A comparison that can be sorted by: `leq(a, b)` says that b does not come before a. */
  ghost predicate TotalPreorder<T(!new)>(leq: (T, T) -> bool) {
    && (forall a, b :: leq(a, b) || leq(b, a))
    && (forall a, b, c :: leq(a, b) && leq(b, c) ==> leq(a, c))
  }

  predicate Equivalent<T>(leq: (T, T) -> bool, a: T, b: T) {
    leq(a, b) && leq(b, a)
  }

  ghost predicate Sorted<T>(leq: (T, T) -> bool, s: seq<T>) {
    forall i, j | 0 <= i < j < |s| :: leq(s[i], s[j])
  }

  function Filter<T>(s: seq<T>, keep: T -> bool): (r: seq<T>)
    ensures |r| <= |s|
    ensures forall x | x in r :: x in s && keep(x)
  {
    if s == [] then []
    else if keep(s[0]) then [s[0]] + Filter(s[1..], keep)
    else Filter(s[1..], keep)
  }

  /** The elements equivalent to x, in their order. */
  function Class<T>(leq: (T, T) -> bool, s: seq<T>, x: T): seq<T> {
    Filter(s, y => Equivalent(leq, x, y))
  }

  function Insert<T>(leq: (T, T) -> bool, x: T, s: seq<T>): (r: seq<T>)
    ensures multiset(r) == multiset(s) + multiset{x}
    ensures |r| == |s| + 1
  {
    if s == [] || leq(x, s[0]) then assert [x] + s == [x] + s; [x] + s
    else assert s == [s[0]] + s[1..]; [s[0]] + Insert(leq, x, s[1..])
  }

  function Sort<T>(leq: (T, T) -> bool, s: seq<T>): (r: seq<T>)
    ensures multiset(r) == multiset(s)
    ensures |r| == |s|
  {
    if s == [] then [] else assert s == [s[0]] + s[1..]; Insert(leq, s[0], Sort(leq, s[1..]))
  }

  lemma {:induction false} FilterCons<T>(x: T, s: seq<T>, keep: T -> bool)
    ensures Filter([x] + s, keep) == if keep(x) then [x] + Filter(s, keep) else Filter(s, keep)
  {
    assert ([x] + s)[1..] == s;
  }

  lemma {:induction false} FilterAppend<T>(s: seq<T>, t: seq<T>, keep: T -> bool)
    ensures Filter(s + t, keep) == Filter(s, keep) + Filter(t, keep)
  {
    if s == [] {
      assert s + t == t;
    } else {
      assert (s + t)[1..] == s[1..] + t;
      FilterAppend(s[1..], t, keep);
    }
  }

  lemma {:induction false} InsertSorted<T(!new)>(leq: (T, T) -> bool, x: T, s: seq<T>)
    requires TotalPreorder(leq) && Sorted(leq, s)
    ensures Sorted(leq, Insert(leq, x, s))
  {
    if s != [] && !leq(x, s[0]) {
      InsertSorted(leq, x, s[1..]);
      var t := Insert(leq, x, s[1..]);
      forall j | 0 <= j < |t| ensures leq(s[0], t[j]) {
        assert t[j] in multiset(t);
        assert t[j] == x || t[j] in s[1..];
      }
    }
  }

  lemma {:induction false} SortSorted<T(!new)>(leq: (T, T) -> bool, s: seq<T>)
    requires TotalPreorder(leq)
    ensures Sorted(leq, Sort(leq, s))
  {
    if s != [] {
      SortSorted(leq, s[1..]);
      InsertSorted(leq, s[0], Sort(leq, s[1..]));
    }
  }

  lemma InsertCons<T>(leq: (T, T) -> bool, x: T, h: T, t: seq<T>)
    ensures Insert(leq, x, [h] + t) == if leq(x, h) then [x] + ([h] + t) else [h] + Insert(leq, x, t)
  {
    assert ([h] + t)[1..] == t;
  }

  lemma InsertFirst<T>(leq: (T, T) -> bool, x: T, s: seq<T>)
    requires forall y | y in s :: leq(x, y)
    ensures Insert(leq, x, s) == [x] + s
  {
  }

  /** Inserting and then filtering is filtering and then inserting. */
  lemma {:induction false} FilterInsert<T(!new)>(leq: (T, T) -> bool, x: T, s: seq<T>, keep: T -> bool)
    requires TotalPreorder(leq) && Sorted(leq, s)
    ensures Filter(Insert(leq, x, s), keep) ==
            if keep(x) then Insert(leq, x, Filter(s, keep)) else Filter(s, keep)
  {
    if s == [] || leq(x, s[0]) {
      FilterCons(x, s, keep);
      forall y | y in s ensures leq(x, y) {
        var j :| 0 <= j < |s| && s[j] == y;
        assert leq(s[0], s[j]);
      }
      InsertFirst(leq, x, s);
      InsertFirst(leq, x, Filter(s, keep));
    } else {
      var h, t := s[0], s[1..];
      assert s == [h] + t;
      FilterInsert(leq, x, t, keep);
      FilterCons(h, t, keep);
      FilterCons(h, Insert(leq, x, t), keep);
      InsertCons(leq, x, h, t);
      InsertCons(leq, x, h, Filter(t, keep));
    }
  }

  /** Sorting commutes with every filter. */
  lemma {:induction false} FilterSort<T(!new)>(leq: (T, T) -> bool, s: seq<T>, keep: T -> bool)
    requires TotalPreorder(leq)
    ensures Filter(Sort(leq, s), keep) == Sort(leq, Filter(s, keep))
  {
    if s != [] {
      var h, t := s[0], s[1..];
      assert s == [h] + t;
      FilterSort(leq, t, keep);
      SortSorted(leq, t);
      FilterInsert(leq, h, Sort(leq, t), keep);
      FilterCons(h, t, keep);
      SortCons(leq, h, Filter(t, keep));
    }
  }

  lemma SortCons<T>(leq: (T, T) -> bool, h: T, t: seq<T>)
    ensures Sort(leq, [h] + t) == Insert(leq, h, Sort(leq, t))
  {
    assert ([h] + t)[1..] == t;
  }

  /** Elements that are all equivalent are not moved. */
  lemma {:induction false} SortEquivalents<T(!new)>(leq: (T, T) -> bool, s: seq<T>)
    requires forall a, b | a in s && b in s :: leq(a, b)
    ensures Sort(leq, s) == s
  {
    if s != [] {
      SortEquivalents(leq, s[1..]);
      assert s == [s[0]] + s[1..];
    }
  }

  /** The sort is stable: equivalent elements stay in their order. */
  lemma SortStable<T(!new)>(leq: (T, T) -> bool, s: seq<T>, x: T)
    requires TotalPreorder(leq)
    ensures Class(leq, Sort(leq, s), x) == Class(leq, s, x)
  {
    FilterSort(leq, s, y => Equivalent(leq, x, y));
    SortEquivalents(leq, Class(leq, s, x));
  }

  /** Two sorted sequences with the same elements in each class, in the same order, are equal. */
  lemma {:induction false} SortedUnique<T(!new)>(leq: (T, T) -> bool, s: seq<T>, t: seq<T>)
    requires TotalPreorder(leq) && Sorted(leq, s) && Sorted(leq, t)
    requires forall x :: Class(leq, s, x) == Class(leq, t, x)
    ensures s == t
    decreases |s|
  {
    if s == [] {
    } else {
      assert Class(leq, s, s[0])[0] == s[0];
      assert s[0] in Class(leq, t, s[0]);
      assert t != [];
      assert Class(leq, t, t[0])[0] == t[0];
      assert t[0] in Class(leq, s, t[0]);
      assert leq(t[0], s[0]) && leq(s[0], t[0]);
      assert Class(leq, t, s[0])[0] == t[0];
      forall x ensures Class(leq, s[1..], x) == Class(leq, t[1..], x) {
        assert Class(leq, s, x) == Class(leq, t, x);
        if Equivalent(leq, x, s[0]) {
          assert Class(leq, s, x)[1..] == Class(leq, s[1..], x);
          assert Class(leq, t, x)[1..] == Class(leq, t[1..], x);
        } else {
          assert Class(leq, s, x) == Class(leq, s[1..], x);
          assert Class(leq, t, x) == Class(leq, t[1..], x);
        }
      }
      SortedUnique(leq, s[1..], t[1..]);
      assert s == [s[0]] + s[1..] && t == [t[0]] + t[1..];
    }
  }

  /** Any sorted and stable arrangement of s is the one that Sort computes. */
  lemma SortIsTheStableSort<T(!new)>(leq: (T, T) -> bool, s: seq<T>, t: seq<T>)
    requires TotalPreorder(leq) && Sorted(leq, t)
    requires forall x :: Class(leq, t, x) == Class(leq, s, x)
    ensures t == Sort(leq, s)
  {
    SortSorted(leq, s);
    forall x ensures Class(leq, t, x) == Class(leq, Sort(leq, s), x) {
      SortStable(leq, s, x);
    }
    SortedUnique(leq, t, Sort(leq, s));
  }

  /** What passes the filter stands in front: nothing that is kept follows something that is not. */
  predicate KeptInFront<T>(s: seq<T>, keep: T -> bool) {
    forall i, j | 0 <= i < j < |s| && keep(s[j]) :: keep(s[i])
  }

  lemma {:induction false} NothingKept<T>(s: seq<T>, keep: T -> bool)
    requires forall x | x in s :: !keep(x)
    ensures Filter(s, keep) == []
  {
    if s != [] {
      NothingKept(s[1..], keep);
    }
  }

  /** A filtered list is a prefix of the list exactly if what it keeps stands in front. */
  lemma {:induction false} FilterIsPrefixExactly<T>(s: seq<T>, keep: T -> bool)
    ensures Filter(s, keep) <= s <==> KeptInFront(s, keep)
  {
    if s == [] {
    } else if keep(s[0]) {
      FilterIsPrefixExactly(s[1..], keep);
      assert s == [s[0]] + s[1..];
      KeptBehind(s, keep);
    } else {
      if KeptInFront(s, keep) {
        forall x | x in s ensures !keep(x) {
          var j :| 0 <= j < |s| && s[j] == x;
        }
        NothingKept(s, keep);
      } else {
        var i, j :| 0 <= i < j < |s| && keep(s[j]) && !keep(s[i]);
        KeptIsThere(s, keep, j);
        assert Filter(s, keep)[0] in Filter(s, keep);
      }
    }
  }

  lemma KeptBehind<T>(s: seq<T>, keep: T -> bool)
    requires s != [] && keep(s[0])
    ensures KeptInFront(s, keep) <==> KeptInFront(s[1..], keep)
  {
    var t := s[1..];
    if KeptInFront(t, keep) {
      forall i, j | 0 <= i < j < |s| && keep(s[j]) ensures keep(s[i]) {
        if i > 0 {
          assert keep(t[j - 1]) && t[i - 1] == s[i];
        }
      }
    }
  }

  lemma {:induction false} KeptIsThere<T>(s: seq<T>, keep: T -> bool, j: nat)
    requires j < |s| && keep(s[j])
    ensures s[j] in Filter(s, keep)
  {
    if j > 0 {
      KeptIsThere(s[1..], keep, j - 1);
    }
  }

  function Map<T, U>(s: seq<T>, f: T -> U): (r: seq<U>)
    ensures |r| == |s|
    ensures forall i | 0 <= i < |s| :: r[i] == f(s[i])
  {
    seq(|s|, i requires 0 <= i < |s| => f(s[i]))
  }

  lemma MapCons<T, U>(x: T, s: seq<T>, f: T -> U)
    ensures Map([x] + s, f) == [f(x)] + Map(s, f)
  {
  }

  /** A change that the filter does not look at can be made before or after filtering. */
  lemma {:induction false} FilterMap<T>(s: seq<T>, f: T -> T, keep: T -> bool)
    requires forall x | x in s :: keep(f(x)) == keep(x)
    ensures Filter(Map(s, f), keep) == Map(Filter(s, keep), f)
  {
    if s != [] {
      var h, t := s[0], s[1..];
      assert s == [h] + t;
      FilterMap(t, f, keep);
      MapCons(h, t, f);
      FilterCons(f(h), Map(t, f), keep);
      FilterCons(h, t, keep);
      MapCons(h, Filter(t, keep), f);
    }
  }

  lemma {:induction false} InsertMap<T>(leq: (T, T) -> bool, x: T, s: seq<T>, f: T -> T)
    requires forall y | y in s :: leq(f(x), f(y)) == leq(x, y)
    ensures Insert(leq, f(x), Map(s, f)) == Map(Insert(leq, x, s), f)
  {
    MapCons(x, s, f);
    if s != [] && !leq(x, s[0]) {
      var h, t := s[0], s[1..];
      assert s == [h] + t;
      InsertMap(leq, x, t, f);
      MapCons(h, t, f);
      MapCons(h, Insert(leq, x, t), f);
      InsertCons(leq, f(x), f(h), Map(t, f));
    }
  }

  /** A change that the comparison does not look at can be made before or after sorting. */
  lemma {:induction false} SortMap<T>(leq: (T, T) -> bool, s: seq<T>, f: T -> T)
    requires forall a, b | a in s && b in s :: leq(f(a), f(b)) == leq(a, b)
    ensures Sort(leq, Map(s, f)) == Map(Sort(leq, s), f)
  {
    if s != [] {
      var h, t := s[0], s[1..];
      assert s == [h] + t;
      SortMap(leq, t, f);
      MapCons(h, t, f);
      SortCons(leq, f(h), Map(t, f));
      forall y | y in Sort(leq, t) ensures leq(f(h), f(y)) == leq(h, y) {
        assert y in multiset(Sort(leq, t));
        assert y in multiset(t);
      }
      InsertMap(leq, h, Sort(leq, t), f);
    }
  }
}

/**
 * `Array.prototype.sort(compare)`, which the language requires to be stable:
 * modelled as insertion sort, which is stable. For a consistent comparator the
 * stable sorted order of a sequence is unique, so any stable sort returns the
 * same result.
 */
module StableSort {
  import opened Seqs

  /**
   * A comparator that defines a total preorder: its sign is antisymmetric and
   * "not after" is transitive.
   */
  ghost predicate Consistent<T(!new)>(cmp: (T, T) -> int) {
    && (forall a, b :: cmp(a, b) < 0 <==> cmp(b, a) > 0)
    && (forall a, b, c {:trigger cmp(a, b), cmp(b, c), cmp(a, c)} ::
          cmp(a, b) <= 0 && cmp(b, c) <= 0 ==> cmp(a, c) <= 0)
  }

  /** Insert `x` in front of the first element it does not sort after. */
  function Insert<T(==)>(x: T, s: seq<T>, cmp: (T, T) -> int): (r: seq<T>)
    ensures |r| == |s| + 1
    ensures multiset(r) == multiset(s) + multiset{x}
    decreases |s|
  {
    if s == [] then [x]
    else if cmp(x, s[0]) <= 0 then [x] + s
    else
      assert s == [s[0]] + s[1..];
      [s[0]] + Insert(x, s[1..], cmp)
  }

  /** `s.sort(cmp)`. */
  function Sort<T(==)>(s: seq<T>, cmp: (T, T) -> int): (r: seq<T>)
    ensures multiset(r) == multiset(s)
    decreases |s|
  {
    if s == [] then []
    else
      assert s == [s[0]] + s[1..];
      Insert(s[0], Sort(s[1..], cmp), cmp)
  }

  /** No element sorts after a later one. */
  ghost predicate Sorted<T>(s: seq<T>, cmp: (T, T) -> int) {
    forall i, j :: 0 <= i < j < |s| ==> cmp(s[i], s[j]) <= 0
  }

  /** The elements of `s` that the comparator ranks equal to `k`, in order. */
  function Tied<T>(s: seq<T>, k: T, cmp: (T, T) -> int): seq<T>
    decreases |s|
  {
    if s == [] then [] else (if cmp(s[0], k) == 0 then [s[0]] else []) + Tied(s[1..], k, cmp)
  }

  lemma {:induction false} InsertSorted<T(!new)>(x: T, s: seq<T>, cmp: (T, T) -> int)
    requires Consistent(cmp) && Sorted(s, cmp)
    ensures Sorted(Insert(x, s, cmp), cmp)
    decreases |s|
  {
    if s == [] {
    } else if cmp(x, s[0]) <= 0 {
      InsertFront(x, s, cmp);
      forall j | 0 <= j < |s| ensures cmp(x, s[j]) <= 0 {
        if j > 0 {
          assert cmp(s[0], s[j]) <= 0;
        }
      }
      SortedCons(x, s, cmp);
    } else {
      assert cmp(s[0], x) < 0;
      SortedTail(s, cmp);
      InsertSorted(x, s[1..], cmp);
      var t := Insert(x, s[1..], cmp);
      forall j | 0 <= j < |t| ensures cmp(s[0], t[j]) <= 0 {
        InsertMember(x, s[1..], cmp, t[j]);
        if t[j] != x {
          var k :| 0 <= k < |s[1..]| && s[1..][k] == t[j];
          assert s[k + 1] == t[j];
        }
      }
      SortedCons(s[0], t, cmp);
    }
  }

  /** Every element of an insertion result is the inserted one or one of `s`. */
  lemma InsertMember<T>(x: T, s: seq<T>, cmp: (T, T) -> int, z: T)
    requires z in Insert(x, s, cmp)
    ensures z == x || z in s
  {
    assert z in multiset(Insert(x, s, cmp));
  }

  lemma SortedTail<T>(s: seq<T>, cmp: (T, T) -> int)
    requires s != [] && Sorted(s, cmp)
    ensures Sorted(s[1..], cmp)
  {
    forall i, j | 0 <= i < j < |s| - 1 ensures cmp(s[1..][i], s[1..][j]) <= 0 {
      assert cmp(s[i + 1], s[j + 1]) <= 0;
    }
  }

  lemma SortedCons<T>(y: T, t: seq<T>, cmp: (T, T) -> int)
    requires Sorted(t, cmp) && forall j :: 0 <= j < |t| ==> cmp(y, t[j]) <= 0
    ensures Sorted([y] + t, cmp)
  {
    var r := [y] + t;
    forall i, j | 0 <= i < j < |r| ensures cmp(r[i], r[j]) <= 0 {
      assert r[j] == t[j - 1];
      if i > 0 {
        assert r[i] == t[i - 1];
      }
    }
  }

  lemma {:induction false} SortSorted<T(!new)>(s: seq<T>, cmp: (T, T) -> int)
    requires Consistent(cmp)
    ensures Sorted(Sort(s, cmp), cmp)
    decreases |s|
  {
    if s != [] {
      SortSorted(s[1..], cmp);
      InsertSorted(s[0], Sort(s[1..], cmp), cmp);
    }
  }

  /** Two elements tied with the same `k` are tied with each other. */
  lemma TiedWithSame<T(!new)>(x: T, y: T, k: T, cmp: (T, T) -> int)
    requires Consistent(cmp)
    ensures cmp(x, k) == 0 && cmp(y, k) == 0 ==> cmp(x, y) == 0
  {
    if cmp(x, k) == 0 && cmp(y, k) == 0 {
      assert cmp(k, y) == 0;
      assert cmp(x, y) <= 0;
      assert cmp(k, x) == 0;
      assert cmp(y, x) <= 0;
    }
  }

  lemma TiedCons<T>(a: T, t: seq<T>, k: T, cmp: (T, T) -> int)
    ensures Tied([a] + t, k, cmp) == (if cmp(a, k) == 0 then [a] else []) + Tied(t, k, cmp)
  {
    assert ([a] + t)[1..] == t;
  }

  /** Inserting puts `x` in front of everything tied with it. */
  lemma {:induction false} InsertTied<T(!new)>(x: T, s: seq<T>, k: T, cmp: (T, T) -> int)
    requires Consistent(cmp)
    ensures Tied(Insert(x, s, cmp), k, cmp) == (if cmp(x, k) == 0 then [x] else []) + Tied(s, k, cmp)
    decreases |s|
  {
    if s == [] {
    } else if cmp(x, s[0]) <= 0 {
      InsertFront(x, s, cmp);
      TiedCons(x, s, k, cmp);
    } else {
      InsertTied(x, s[1..], k, cmp);
      TiedWithSame(x, s[0], k, cmp);
      TiedPast(x, s, k, cmp);
    }
  }

  /** The step of `InsertTied` where `x` moves past the head of `s`, which it cannot be tied with. */
  lemma TiedPast<T>(x: T, s: seq<T>, k: T, cmp: (T, T) -> int)
    requires s != [] && cmp(x, s[0]) > 0
    requires !(cmp(x, k) == 0 && cmp(s[0], k) == 0)
    requires Tied(Insert(x, s[1..], cmp), k, cmp) == (if cmp(x, k) == 0 then [x] else []) + Tied(s[1..], k, cmp)
    ensures Tied(Insert(x, s, cmp), k, cmp) == (if cmp(x, k) == 0 then [x] else []) + Tied(s, k, cmp)
  {
    var t := Insert(x, s[1..], cmp);
    var tx: seq<T> := if cmp(x, k) == 0 then [x] else [];
    var t0: seq<T> := if cmp(s[0], k) == 0 then [s[0]] else [];
    var rest := Tied(s[1..], k, cmp);
    calc {
      Tied(Insert(x, s, cmp), k, cmp);
      { InsertPast(x, s, cmp); }
      Tied([s[0]] + t, k, cmp);
      { TiedCons(s[0], t, k, cmp); }
      t0 + (tx + rest);
      { SwapEmpty(tx, t0, rest); }
      tx + (t0 + rest);
    }
  }

  lemma SwapEmpty<T>(p: seq<T>, q: seq<T>, r: seq<T>)
    requires p == [] || q == []
    ensures q + (p + r) == p + (q + r)
  {
    if p == [] {
      assert p + r == r && p + (q + r) == q + r;
    } else {
      assert q + (p + r) == p + r && q + r == r;
    }
  }

  lemma InsertPast<T>(x: T, s: seq<T>, cmp: (T, T) -> int)
    requires s != [] && cmp(x, s[0]) > 0
    ensures Insert(x, s, cmp) == [s[0]] + Insert(x, s[1..], cmp)
  {
  }

  /** The sort is stable: elements it ranks equal keep their input order. */
  lemma {:induction false} SortStable<T(!new)>(s: seq<T>, k: T, cmp: (T, T) -> int)
    requires Consistent(cmp)
    ensures Tied(Sort(s, cmp), k, cmp) == Tied(s, k, cmp)
    decreases |s|
  {
    if s != [] {
      SortStable(s[1..], k, cmp);
      InsertTied(s[0], Sort(s[1..], cmp), k, cmp);
    }
  }

  /** Sorting what is already sorted changes nothing. */
  lemma {:induction false} SortOfSorted<T(!new)>(s: seq<T>, cmp: (T, T) -> int)
    requires Sorted(s, cmp)
    ensures Sort(s, cmp) == s
    decreases |s|
  {
    if s != [] {
      SortedTail(s, cmp);
      SortOfSorted(s[1..], cmp);
      assert s == [s[0]] + s[1..];
      SortCons(s[0], s[1..], cmp);
      if |s| > 1 {
        assert cmp(s[0], s[1]) <= 0;
      }
      InsertFront(s[0], s[1..], cmp);
    }
  }

  /** A key-based comparator `key(a) - key(b)` is consistent. */
  lemma KeyComparatorConsistent<T(!new)>(key: T -> int, cmp: (T, T) -> int)
    requires forall a, b :: cmp(a, b) == key(a) - key(b)
    ensures Consistent(cmp)
  {
  }

  /** The tied elements are a filter of the sequence. */
  lemma {:induction false} TiedIsFilter<T(!new)>(s: seq<T>, k: T, cmp: (T, T) -> int, t: T -> bool)
    requires forall x :: t(x) == (cmp(x, k) == 0)
    ensures Tied(s, k, cmp) == Filter(s, t)
    decreases |s|
  {
    if s != [] {
      TiedIsFilter(s[1..], k, cmp, t);
    }
  }

  /**
   * A prefix whose elements sort no later than one another and than anything in
   * `b` stays in front, in its order.
   */
  lemma {:induction false} SortFront<T(!new)>(a: seq<T>, b: seq<T>, cmp: (T, T) -> int)
    requires forall i, j :: 0 <= i < |a| && 0 <= j < |a| ==> cmp(a[i], a[j]) <= 0
    requires forall i, y :: 0 <= i < |a| && y in b ==> cmp(a[i], y) <= 0
    ensures Sort(a + b, cmp) == a + Sort(b, cmp)
    decreases |a|
  {
    if a == [] {
      assert a + b == b;
    } else {
      ConsAppend(a, b);
      SortCons(a[0], a[1..] + b, cmp);
      SortFront(a[1..], b, cmp);
      var sb := Sort(b, cmp);
      FrontLeads(a, b, sb, cmp);
      InsertFront(a[0], a[1..] + sb, cmp);
      ConsAppend(a, sb);
    }
  }

  lemma SortCons<T>(y: T, r: seq<T>, cmp: (T, T) -> int)
    ensures Sort([y] + r, cmp) == Insert(y, Sort(r, cmp), cmp)
  {
    assert ([y] + r)[0] == y && ([y] + r)[1..] == r;
  }

  lemma InsertFront<T>(x: T, t: seq<T>, cmp: (T, T) -> int)
    requires t == [] || cmp(x, t[0]) <= 0
    ensures Insert(x, t, cmp) == [x] + t
  {
  }

  lemma FrontLeads<T>(a: seq<T>, b: seq<T>, sb: seq<T>, cmp: (T, T) -> int)
    requires a != [] && multiset(sb) == multiset(b)
    requires forall i, j :: 0 <= i < |a| && 0 <= j < |a| ==> cmp(a[i], a[j]) <= 0
    requires forall i, y :: 0 <= i < |a| && y in b ==> cmp(a[i], y) <= 0
    ensures a[1..] + sb == [] || cmp(a[0], (a[1..] + sb)[0]) <= 0
  {
    var t := a[1..] + sb;
    if t != [] {
      if a[1..] == [] {
        assert t[0] == sb[0] && sb[0] in multiset(sb);
        assert sb[0] in b;
      } else {
        assert t[0] == a[1];
      }
    }
  }

  lemma ConsAppend<T>(a: seq<T>, c: seq<T>)
    requires a != []
    ensures [a[0]] + (a[1..] + c) == a + c
    ensures (a + c)[0] == a[0] && (a + c)[1..] == a[1..] + c
  {
    assert [a[0]] + a[1..] == a;
  }
}

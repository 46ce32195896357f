/** Array.prototype.sort, which ECMAScript 2019 and later require to be
    stable, modelled as a functional insertion sort driven by the caller's
    comparator. Two of the core's steps use it: the canonical-recording
    choice of get-tracks.ts and the column sort of useData.ts. */
module Sorting {

  /** What Array.prototype.sort needs of a comparator for its result to be
      defined: swapping the arguments flips the sign, and "not after" is
      transitive. Together these make `cmp(a, b) <= 0` a total preorder. */
  ghost predicate Consistent<T(!new)>(cmp: (T, T) -> int) {
    && (forall a, b :: cmp(a, b) <= 0 <==> cmp(b, a) >= 0)
    && (forall a, b, c :: NotAfter(cmp, a, b) && NotAfter(cmp, b, c) ==> NotAfter(cmp, a, c))
  }

  /** `a` does not rank after `b`. Transitivity is stated on this name, and
      used through the lemma Transitive, so that the solver does not chain it
      on every comparison it sees. */
  ghost predicate NotAfter<T>(cmp: (T, T) -> int, a: T, b: T) {
    cmp(a, b) <= 0
  }

  lemma Transitive<T(!new)>(cmp: (T, T) -> int, a: T, b: T, c: T)
    requires Consistent(cmp) && cmp(a, b) <= 0 && cmp(b, c) <= 0
    ensures cmp(a, c) <= 0
  {
    assert NotAfter(cmp, a, b) && NotAfter(cmp, b, c);
  }

  /** Every element is not after any later one. */
  ghost predicate SortedBy<T>(s: seq<T>, cmp: (T, T) -> int) {
    forall i, j :: 0 <= i < j < |s| ==> cmp(s[i], s[j]) <= 0
  }

  /** The elements of `s` that rank equal to `k`, in their order in `s`. */
  function EquivClass<T>(s: seq<T>, cmp: (T, T) -> int, k: T): seq<T> {
    if s == [] then []
    else (if cmp(s[0], k) == 0 then [s[0]] else []) + EquivClass(s[1..], cmp, k)
  }

  /** Puts `x` in front of the first element it is not after. */
  function Insert<T>(x: T, s: seq<T>, cmp: (T, T) -> int): (r: seq<T>)
    ensures multiset(r) == multiset(s) + multiset{x}
  {
    if s == [] then [x]
    else if cmp(x, s[0]) <= 0 then [x] + s
    else
      assert s == [s[0]] + s[1..];
      [s[0]] + Insert(x, s[1..], cmp)
  }

  lemma {:induction false} InsertElements<T>(x: T, s: seq<T>, cmp: (T, T) -> int)
    ensures |Insert(x, s, cmp)| == |s| + 1
    ensures forall j :: 0 <= j < |s| + 1 ==> Insert(x, s, cmp)[j] == x || Insert(x, s, cmp)[j] in s
  {
    if s != [] && cmp(x, s[0]) > 0 {
      InsertElements(x, s[1..], cmp);
    }
  }

  /** The stable sort of `s` under `cmp`. */
  function SortBy<T>(s: seq<T>, cmp: (T, T) -> int): (r: seq<T>)
    ensures multiset(r) == multiset(s)
  {
    if s == [] then []
    else
      assert s == [s[0]] + s[1..];
      Insert(s[0], SortBy(s[1..], cmp), cmp)
  }

  lemma {:induction false} InsertSorted<T(!new)>(x: T, s: seq<T>, cmp: (T, T) -> int)
    requires Consistent(cmp) && SortedBy(s, cmp)
    ensures SortedBy(Insert(x, s, cmp), cmp)
  {
    if s == [] {
    } else if cmp(x, s[0]) <= 0 {
      InsertInFront(x, s, cmp);
    } else {
      InsertSorted(x, s[1..], cmp);
      InsertBehind(x, s, cmp);
    }
  }

  /** `x` not after the head of a sorted `s`: `[x] + s` is sorted. */
  lemma InsertInFront<T(!new)>(x: T, s: seq<T>, cmp: (T, T) -> int)
    requires Consistent(cmp) && SortedBy(s, cmp) && s != [] && cmp(x, s[0]) <= 0
    ensures SortedBy([x] + s, cmp)
  {
    var r := [x] + s;
    forall i, j | 0 <= i < j < |r| ensures cmp(r[i], r[j]) <= 0 {
      if i == 0 {
        assert r[j] == s[j - 1];
        if j > 1 {
          assert cmp(s[0], s[j - 1]) <= 0;
          Transitive(cmp, x, s[0], s[j - 1]);
        }
      } else {
        assert r[i] == s[i - 1] && r[j] == s[j - 1];
      }
    }
  }

  /** `x` after the head of a sorted `s`, and inserted in order into the
      rest: the head stays in front. */
  lemma InsertBehind<T(!new)>(x: T, s: seq<T>, cmp: (T, T) -> int)
    requires Consistent(cmp) && SortedBy(s, cmp) && s != [] && cmp(x, s[0]) > 0
    requires SortedBy(Insert(x, s[1..], cmp), cmp)
    ensures SortedBy([s[0]] + Insert(x, s[1..], cmp), cmp)
  {
    assert cmp(s[0], x) <= 0;
    HeadBeforeInserted(x, s, cmp);
    ConsSorted(s[0], Insert(x, s[1..], cmp), cmp);
  }

  /** The head of a sorted `s` is not after `x` nor after the rest, so it
      is not after anything of `x` inserted into the rest. */
  lemma HeadBeforeInserted<T>(x: T, s: seq<T>, cmp: (T, T) -> int)
    requires SortedBy(s, cmp) && s != [] && cmp(s[0], x) <= 0
    ensures forall j :: 0 <= j < |Insert(x, s[1..], cmp)| ==> cmp(s[0], Insert(x, s[1..], cmp)[j]) <= 0
  {
    var t := Insert(x, s[1..], cmp);
    InsertElements(x, s[1..], cmp);
    forall j | 0 <= j < |t| ensures cmp(s[0], t[j]) <= 0 {
      if t[j] != x {
        var m :| 0 <= m < |s[1..]| && s[1..][m] == t[j];
        assert s[m + 1] == t[j];
      }
    }
  }

  /** An element not after any of a sorted `t`, put in front of it. */
  lemma ConsSorted<T>(y: T, t: seq<T>, cmp: (T, T) -> int)
    requires SortedBy(t, cmp)
    requires forall j :: 0 <= j < |t| ==> cmp(y, t[j]) <= 0
    ensures SortedBy([y] + t, cmp)
  {
    var r := [y] + t;
    forall i, j | 0 <= i < j < |r| ensures cmp(r[i], r[j]) <= 0 {
      assert r[j] == t[j - 1];
      if i > 0 {
        assert r[i] == t[i - 1];
      }
    }
  }

  /** `b` ranks strictly after `a` and not after `c`: `c` ranks strictly
      after `a` as well. */
  lemma StrictlyAfter<T(!new)>(cmp: (T, T) -> int, a: T, b: T, c: T)
    requires Consistent(cmp) && cmp(b, a) > 0 && cmp(b, c) <= 0
    ensures cmp(c, a) > 0
  {
    if cmp(c, a) <= 0 {
      Transitive(cmp, b, c, a);
    }
  }

  /** The sort's result is ordered by `cmp`. */
  lemma {:induction false} SortBySorted<T(!new)>(s: seq<T>, cmp: (T, T) -> int)
    requires Consistent(cmp)
    ensures SortedBy(SortBy(s, cmp), cmp)
  {
    if s != [] {
      SortBySorted(s[1..], cmp);
      InsertSorted(s[0], SortBy(s[1..], cmp), cmp);
    }
  }

  /** Inserting `x` puts it in front of every element equal in rank to it. */
  lemma {:induction false} InsertEquivClass<T(!new)>(x: T, s: seq<T>, cmp: (T, T) -> int, k: T)
    requires Consistent(cmp)
    ensures EquivClass(Insert(x, s, cmp), cmp, k)
         == (if cmp(x, k) == 0 then [x] else []) + EquivClass(s, cmp, k)
  {
    if s == [] {
    } else if cmp(x, s[0]) <= 0 {
      EquivClassCons(x, s, cmp, k);
    } else {
      InsertEquivClass(x, s[1..], cmp, k);
      if cmp(x, k) == 0 {
        // s[0] ranks strictly before x, so it cannot rank equal to k.
        StrictlyAfter(cmp, s[0], x, k);
      }
      InsertBehindClass(x, s, cmp, k);
    }
  }

  /** The step of InsertEquivClass where `x` goes behind the head, which
      does not rank equal to `k` when `x` does. */
  lemma InsertBehindClass<T>(x: T, s: seq<T>, cmp: (T, T) -> int, k: T)
    requires s != [] && cmp(x, s[0]) > 0
    requires cmp(x, k) == 0 ==> cmp(s[0], k) != 0
    requires EquivClass(Insert(x, s[1..], cmp), cmp, k)
          == (if cmp(x, k) == 0 then [x] else []) + EquivClass(s[1..], cmp, k)
    ensures EquivClass(Insert(x, s, cmp), cmp, k)
         == (if cmp(x, k) == 0 then [x] else []) + EquivClass(s, cmp, k)
  {
    var t := Insert(x, s[1..], cmp);
    var e: seq<T> := if cmp(x, k) == 0 then [x] else [];
    var h: seq<T> := if cmp(s[0], k) == 0 then [s[0]] else [];
    var rest := EquivClass(s[1..], cmp, k);
    assert Insert(x, s, cmp) == [s[0]] + t;
    EquivClassCons(s[0], t, cmp, k);
    EquivClassCons(s[0], s[1..], cmp, k);
    assert [s[0]] + s[1..] == s;
    SwapAroundEmpty(h, e, rest);
  }

  lemma SwapAroundEmpty<T>(h: seq<T>, e: seq<T>, rest: seq<T>)
    requires h == [] || e == []
    ensures h + (e + rest) == e + (h + rest)
  {
    if h == [] {
      assert h + (e + rest) == e + rest == e + (h + rest);
    } else {
      assert h + (e + rest) == h + rest == e + (h + rest);
    }
  }

  lemma EquivClassCons<T>(y: T, t: seq<T>, cmp: (T, T) -> int, k: T)
    ensures EquivClass([y] + t, cmp, k) == (if cmp(y, k) == 0 then [y] else []) + EquivClass(t, cmp, k)
  {
    assert ([y] + t)[0] == y && ([y] + t)[1..] == t;
  }

  /** Stability: among elements of equal rank the input order is kept. */
  lemma {:induction false} SortByStable<T(!new)>(s: seq<T>, cmp: (T, T) -> int, k: T)
    requires Consistent(cmp)
    ensures EquivClass(SortBy(s, cmp), cmp, k) == EquivClass(s, cmp, k)
  {
    if s != [] {
      SortByStable(s[1..], cmp, k);
      InsertEquivClass(s[0], SortBy(s[1..], cmp), cmp, k);
    }
  }

  /** The first element of an equivalence class is the first element of the
      sequence with that rank; `i` is its index. */
  lemma {:induction false} EquivClassHead<T>(s: seq<T>, cmp: (T, T) -> int, k: T) returns (i: nat)
    requires EquivClass(s, cmp, k) != []
    ensures i < |s| && s[i] == EquivClass(s, cmp, k)[0] && cmp(s[i], k) == 0
    ensures forall j :: 0 <= j < i ==> cmp(s[j], k) != 0
  {
    if cmp(s[0], k) == 0 {
      i := 0;
    } else {
      assert EquivClass(s, cmp, k) == EquivClass(s[1..], cmp, k);
      var i' := EquivClassHead(s[1..], cmp, k);
      i := i' + 1;
      forall j | 0 <= j < i ensures cmp(s[j], k) != 0 {
        if j > 0 {
          assert s[j] == s[1..][j - 1];
        }
      }
    }
  }

  /** The head of the stable sort ranks no later than any input element. */
  lemma SortByHeadLeast<T(!new)>(s: seq<T>, cmp: (T, T) -> int)
    requires Consistent(cmp) && s != []
    ensures |SortBy(s, cmp)| == |s|
    ensures forall j :: 0 <= j < |s| ==> cmp(SortBy(s, cmp)[0], s[j]) <= 0
  {
    var r := SortBy(s, cmp);
    SortBySorted(s, cmp);
    assert |r| == |multiset(r)| == |multiset(s)| == |s|;
    forall j | 0 <= j < |s| ensures cmp(r[0], s[j]) <= 0 {
      assert s[j] in multiset(r);
      var m :| 0 <= m < |r| && r[m] == s[j];
      if m > 0 {
        assert cmp(r[0], r[m]) <= 0;
      }
    }
  }

  /** The head of the stable sort is a least element, and it is the first
      least element of the input: every earlier input element ranks strictly
      after it. This is what `sorted[0]` selects. */
  lemma SortByHead<T(!new)>(s: seq<T>, cmp: (T, T) -> int) returns (i: nat)
    requires Consistent(cmp) && s != []
    ensures i < |s| && s[i] == SortBy(s, cmp)[0]
    ensures forall j :: 0 <= j < |s| ==> cmp(s[i], s[j]) <= 0
    ensures forall j :: 0 <= j < i ==> cmp(s[j], s[i]) > 0
  {
    SortByHeadLeast(s, cmp);
    var r := SortBy(s, cmp);
    var h := r[0];
    SortByStable(s, cmp, h);
    assert EquivClass(r, cmp, h) == [h] + EquivClass(r[1..], cmp, h);
    i := EquivClassHead(s, cmp, h);
    assert s[i] == h;
    forall j | 0 <= j < i ensures cmp(s[j], s[i]) > 0 {
      assert cmp(h, s[j]) <= 0;
    }
  }
}

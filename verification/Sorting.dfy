/** Stable sorting and the code-point order on strings. */
module Sorting {

  ghost predicate TotalPreorder<T(!new)>(le: (T, T) -> bool) {
    && (forall a, b :: le(a, b) || le(b, a))
    && (forall a, b, c :: le(a, b) && le(b, c) ==> le(a, c))
  }

  ghost predicate Sorted<T>(le: (T, T) -> bool, s: seq<T>) {
    forall i, j :: 0 <= i < j < |s| ==> le(s[i], s[j])
  }

  predicate NoDuplicates<T(==)>(s: seq<T>) {
    forall i, j :: 0 <= i < j < |s| ==> s[i] != s[j]
  }

  function Insert<T>(le: (T, T) -> bool, x: T, s: seq<T>): (r: seq<T>)
    ensures multiset(r) == multiset(s) + multiset{x}
    ensures |r| == |s| + 1
  {
    if s == [] || le(x, s[0]) then [x] + s
    else
      assert s == [s[0]] + s[1..];
      [s[0]] + Insert(le, x, s[1..])
  }

  /** Insertion sort from the right, so that equal keys keep their order. */
  function SortBy<T>(le: (T, T) -> bool, s: seq<T>): (r: seq<T>)
    ensures multiset(r) == multiset(s)
    ensures |r| == |s|
  {
    if s == [] then []
    else
      assert s == [s[0]] + s[1..];
      Insert(le, s[0], SortBy(le, s[1..]))
  }

  lemma SameElements<T>(s: seq<T>, t: seq<T>)
    requires multiset(s) == multiset(t)
    ensures |s| == |t|
    ensures forall x :: x in s <==> x in t
  {
    assert |multiset(s)| == |s| && |multiset(t)| == |t|;
    forall x ensures x in s <==> x in t {
      assert x in s <==> x in multiset(s);
      assert x in t <==> x in multiset(t);
    }
  }

  lemma {:induction false} InsertSorted<T(!new)>(le: (T, T) -> bool, x: T, s: seq<T>)
    requires TotalPreorder(le) && Sorted(le, s)
    ensures Sorted(le, Insert(le, x, s))
  {
    if s != [] && !le(x, s[0]) {
      InsertSorted(le, x, s[1..]);
      var t := Insert(le, x, s[1..]);
      forall j | 0 <= j < |t| ensures le(s[0], t[j]) {
        assert t[j] in multiset(t);
        assert t[j] in multiset(s[1..]) + multiset{x};
        assert t[j] == x || t[j] in s[1..];
      }
    }
  }

  lemma {:induction false} SortBySorted<T(!new)>(le: (T, T) -> bool, s: seq<T>)
    requires TotalPreorder(le)
    ensures Sorted(le, SortBy(le, s))
  {
    if s != [] {
      SortBySorted(le, s[1..]);
      InsertSorted(le, s[0], SortBy(le, s[1..]));
    }
  }

  /** In a sorted sequence everything before a cut is below everything after it. */
  lemma CutSorted<T>(le: (T, T) -> bool, s: seq<T>, k: nat, x: T, y: T)
    requires Sorted(le, s) && k <= |s| && x in s[..k] && y in s[k..]
    ensures le(x, y)
  {
    var i :| 0 <= i < k && s[i] == x;
    var j :| k <= j < |s| && s[j] == y;
  }

  lemma SplitMember<T>(s: seq<T>, k: nat, x: T)
    requires k <= |s|
    ensures x in s <==> x in s[..k] || x in s[k..]
  {
    assert s == s[..k] + s[k..];
  }

  lemma {:induction false} SortOfSorted<T>(le: (T, T) -> bool, s: seq<T>)
    requires Sorted(le, s)
    ensures SortBy(le, s) == s
  {
    if s != [] {
      SortOfSorted(le, s[1..]);
      assert s == [s[0]] + s[1..];
    }
  }

  /** The order tells apart any two elements of `u`. */
  ghost predicate Separates<T>(le: (T, T) -> bool, u: multiset<T>) {
    forall a, b :: a in u && b in u && le(a, b) && le(b, a) ==> a == b
  }

  lemma HeadsEqual<T>(le: (T, T) -> bool, s: seq<T>, t: seq<T>)
    requires Sorted(le, s) && Sorted(le, t) && s != [] && multiset(s) == multiset(t)
    requires Separates(le, multiset(s))
    ensures t != [] && s[0] == t[0]
  {
    SameElements(s, t);
    assert s[0] in s && t[0] in t;
    var i :| 0 <= i < |t| && t[i] == s[0];
    var j :| 0 <= j < |s| && s[j] == t[0];
    assert i == 0 || le(t[0], t[i]);
    assert j == 0 || le(s[0], s[j]);
  }

  lemma TailMultiset<T>(s: seq<T>)
    requires s != []
    ensures multiset(s[1..]) == multiset(s) - multiset{s[0]}
  {
    assert s == [s[0]] + s[1..];
  }

  /** Two arrangements to compare: both sorted, of the same elements, told apart by the order. */
  ghost predicate Rivals<T>(le: (T, T) -> bool, s: seq<T>, t: seq<T>) {
    Sorted(le, s) && Sorted(le, t) && multiset(s) == multiset(t) && Separates(le, multiset(s))
  }

  lemma RivalTails<T>(le: (T, T) -> bool, s: seq<T>, t: seq<T>)
    requires Rivals(le, s, t) && s != []
    ensures t != [] && s[0] == t[0] && Rivals(le, s[1..], t[1..])
  {
    HeadsEqual(le, s, t);
    TailMultiset(s);
    TailMultiset(t);
  }

  /** Two sorted arrangements of the same elements are equal when the order
      separates the elements that occur. */
  lemma {:induction false} SortedUnique<T>(le: (T, T) -> bool, s: seq<T>, t: seq<T>)
    requires Rivals(le, s, t)
    ensures s == t
    decreases |s|
  {
    if s == [] {
      assert |multiset(t)| == |t|;
    } else {
      RivalTails(le, s, t);
      SortedUnique(le, s[1..], t[1..]);
      SameHeadAndTail(s, t);
    }
  }

  lemma SameHeadAndTail<T>(s: seq<T>, t: seq<T>)
    requires s != [] && t != [] && s[0] == t[0] && s[1..] == t[1..]
    ensures s == t
  {
    assert s == [s[0]] + s[1..] && t == [t[0]] + t[1..];
  }

  lemma {:induction false} NoDuplicatesMultiset<T>(s: seq<T>)
    requires NoDuplicates(s)
    ensures forall x :: multiset(s)[x] == if x in s then 1 else 0
  {
    if s != [] {
      assert s == [s[0]] + s[1..];
      NoDuplicatesMultiset(s[1..]);
      assert s[0] !in s[1..];
    }
  }

  lemma RepeatCounted<T>(t: seq<T>, i: nat, j: nat)
    requires i < j < |t| && t[i] == t[j]
    ensures multiset(t)[t[i]] >= 2
  {
    assert t == t[..i] + [t[i]] + t[i + 1..j] + [t[j]] + t[j + 1..];
  }

  lemma NoDuplicatesPermute<T>(s: seq<T>, t: seq<T>)
    requires NoDuplicates(s) && multiset(s) == multiset(t)
    ensures NoDuplicates(t)
  {
    NoDuplicatesMultiset(s);
    forall i, j | 0 <= i < j < |t| && t[i] == t[j] ensures false {
      RepeatCounted(t, i, j);
    }
  }

  /** Python's order on `str`: code point by code point, a prefix first. */
  predicate StrLe(a: string, b: string) {
    a == [] || (b != [] && (a[0] < b[0] || (a[0] == b[0] && StrLe(a[1..], b[1..]))))
  }

  /** The order is a proper prefix, or the smaller code point at the first difference. */
  lemma {:induction false} StrLeExact(a: string, b: string)
    ensures StrLe(a, b) <==> a <= b || exists k :: 0 <= k < |a| && k < |b| && a[..k] == b[..k] && a[k] < b[k]
  {
    if a != [] && b != [] {
      StrLeExact(a[1..], b[1..]);
      assert a == [a[0]] + a[1..] && b == [b[0]] + b[1..];
      if k :| 0 <= k < |a[1..]| && k < |b[1..]| && a[1..][..k] == b[1..][..k] && a[1..][k] < b[1..][k] && a[0] == b[0] {
        assert a[..k + 1] == [a[0]] + a[1..][..k] && b[..k + 1] == [b[0]] + b[1..][..k];
        assert a[k + 1] < b[k + 1];
      }
      if k :| 0 <= k < |a| && k < |b| && a[..k] == b[..k] && a[k] < b[k] {
        if k > 0 {
          assert a[0] == a[..k][0] == b[..k][0] == b[0];
          assert a[1..][..k - 1] == a[..k][1..] == b[..k][1..] == b[1..][..k - 1];
          assert a[1..][k - 1] < b[1..][k - 1];
        } else {
          assert a[0] < b[0];
        }
      }
    }
  }

  lemma StrTotal(a: string, b: string)
    ensures StrLe(a, b) || StrLe(b, a)
  {
  }

  lemma StrTransitive(a: string, b: string, c: string)
    requires StrLe(a, b) && StrLe(b, c)
    ensures StrLe(a, c)
  {
  }

  lemma {:induction false} StrAntisymmetric(a: string, b: string)
    requires StrLe(a, b) && StrLe(b, a)
    ensures a == b
  {
    if a != [] {
      StrAntisymmetric(a[1..], b[1..]);
      assert a == [a[0]] + a[1..] && b == [b[0]] + b[1..];
    }
  }

  lemma StrLeIsTotal()
    ensures TotalPreorder(StrLe)
  {
    forall a, b ensures StrLe(a, b) || StrLe(b, a) { StrTotal(a, b); }
    forall a, b, c | StrLe(a, b) && StrLe(b, c) ensures StrLe(a, c) { StrTransitive(a, b, c); }
  }

  /** Two sorted arrangements of the same strings are the same sequence. */
  lemma StrSortUnique(s: seq<string>, t: seq<string>)
    requires Sorted(StrLe, s) && Sorted(StrLe, t) && multiset(s) == multiset(t)
    ensures s == t
  {
    forall a, b | a in multiset(s) && b in multiset(s) && StrLe(a, b) && StrLe(b, a) ensures a == b {
      StrAntisymmetric(a, b);
    }
    SortedUnique(StrLe, s, t);
  }

  /** Python's `sorted` on a set of strings. */
  method SortedSet(s: set<string>) returns (r: seq<string>)
    ensures Sorted(StrLe, r) && multiset(r) == multiset(s)
  {
    var rest := s;
    r := [];
    while rest != {}
      invariant rest <= s && multiset(r) == multiset(s - rest)
      decreases |rest|
    {
      var x :| x in rest;
      assert s - (rest - {x}) == (s - rest) + {x};
      r := r + [x];
      rest := rest - {x};
    }
    assert s - rest == s;
    StrLeIsTotal();
    SortBySorted(StrLe, r);
    r := SortBy(StrLe, r);
  }

  ghost predicate Elements<T(!new)>(s: set<T>, all: seq<T>) {
    forall x :: x in s <==> x in all
  }

  /** A set is as large as the sequence it was built from exactly when nothing was repeated. */
  lemma {:induction false} DistinctSize<T(!new)>(all: seq<T>, s: set<T>)
    requires Elements(s, all)
    ensures |s| <= |all|
    ensures |s| == |all| <==> NoDuplicates(all)
    ensures NoDuplicates(all) ==> multiset(all) == multiset(s)
  {
    if all == [] {
      assert s == {};
    } else {
      var n := |all| - 1;
      var last := all[n];
      assert all == all[..n] + [last];
      if last in all[..n] {
        DistinctSize(all[..n], s);
      } else {
        DistinctSize(all[..n], s - {last});
        assert s == (s - {last}) + {last};
        assert NoDuplicates(all) <==> NoDuplicates(all[..n]);
      }
    }
  }
}

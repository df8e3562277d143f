/** The largest strings of a set, in code-point order. */
module Largest {
  import opened Sorting

  predicate Above(y: string, x: string) {
    x != y && StrLe(x, y)
  }

  /** The elements of `s` that are greater than `x`. */
  function Greater(s: set<string>, x: string): (r: set<string>)
    ensures r <= s
  {
    set y | y in s && Above(y, x)
  }

  /** The elements of `s` with fewer than `n` greater ones. */
  function Top(n: nat, s: set<string>): (r: set<string>)
    ensures r <= s
  {
    set x | x in s && |Greater(s, x)| < n
  }

  lemma {:induction false} SubsetSize<T>(a: set<T>, b: set<T>)
    requires a <= b
    ensures |a| <= |b|
  {
    if a != {} {
      var x :| x in a;
      SubsetSize(a - {x}, b - {x});
    }
  }

  lemma GreaterTransitive(s: set<string>, x: string, y: string)
    requires Above(y, x)
    ensures Greater(s, y) <= Greater(s, x)
  {
    forall z | z in Greater(s, y) ensures z in Greater(s, x) {
      StrTransitive(x, y, z);
      if z == x {
        StrAntisymmetric(x, y);
      }
    }
  }

  lemma TopWhole(n: nat, s: set<string>)
    requires |s| <= n
    ensures Top(n, s) == s
  {
    forall x | x in s ensures |Greater(s, x)| < n {
      assert Greater(s, x) <= s - {x};
      SubsetSize(Greater(s, x), s - {x});
    }
  }

  /** Whatever is not among the top has all the top above it, or at least `n` of it. */
  lemma {:induction false} TopAbove(n: nat, s: set<string>, y: string)
    requires y in s && y !in Top(n, s)
    ensures |Greater(Top(n, s), y)| >= n
    decreases |Greater(s, y)|
  {
    var top := Top(n, s);
    if Greater(s, y) <= top {
      assert Greater(top, y) == Greater(s, y);
    } else {
      var z :| z in Greater(s, y) && z !in top;
      GreaterTransitive(s, y, z);
      GreaterTransitive(top, y, z);
      assert z in Greater(s, y) && z !in Greater(s, z);
      assert Greater(s, z) <= Greater(s, y) - {z};
      SubsetSize(Greater(s, z), Greater(s, y) - {z});
      TopAbove(n, s, z);
      SubsetSize(Greater(top, z), Greater(top, y));
    }
  }

  lemma {:induction false} LeastExists(s: set<string>) returns (x: string)
    requires s != {}
    ensures x in s && Greater(s, x) == s - {x}
  {
    x :| x in s;
    var rest := s - {x};
    if rest != {} {
      var y := LeastExists(rest);
      StrTotal(x, y);
      if StrLe(y, x) {
        assert Greater(s, y) == Greater(rest, y) + {x};
        x := y;
      } else {
        forall z | z in rest ensures z in Greater(s, x) {
          if z != y {
            assert z in Greater(rest, y);
            StrTransitive(x, y, z);
          }
        }
      }
    }
  }

  lemma TopSize(n: nat, s: set<string>)
    ensures |Top(n, s)| <= n
  {
    var top := Top(n, s);
    if top != {} {
      var x := LeastExists(top);
      assert top == (top - {x}) + {x};
      SubsetSize(Greater(top, x), Greater(s, x));
    }
  }

  lemma TopKept(n: nat, s: set<string>, m: string, x: string)
    requires x in Top(n, Top(n, s) + {m})
    ensures x in Top(n, s + {m})
  {
    var top, kept, all := Top(n, s), Top(n, s) + {m}, s + {m};
    if Greater(all, x) <= kept {
      assert Greater(all, x) <= Greater(kept, x);
      SubsetSize(Greater(all, x), Greater(kept, x));
    } else {
      var y :| y in Greater(all, x) && y !in kept;
      TopAbove(n, s, y);
      GreaterTransitive(top, x, y);
      assert Greater(top, y) <= Greater(kept, x);
      SubsetSize(Greater(top, y), Greater(kept, x));
      assert false;
    }
  }

  /** Keeping the top after every addition keeps the top of all that was added. */
  lemma TopAdd(n: nat, s: set<string>, m: string)
    ensures Top(n, Top(n, s) + {m}) == Top(n, s + {m})
  {
    var kept, all := Top(n, s) + {m}, s + {m};
    forall x | x in Top(n, all) ensures x in Top(n, kept) {
      assert Greater(s, x) <= Greater(all, x) && Greater(kept, x) <= Greater(all, x);
      SubsetSize(Greater(s, x), Greater(all, x));
      SubsetSize(Greater(kept, x), Greater(all, x));
    }
    forall x | x in Top(n, kept) ensures x in Top(n, all) {
      TopKept(n, s, m, x);
    }
  }

  // ---------------------------------------------------------------- the end of a sorted list

  lemma Members(sorted: seq<string>, s: set<string>)
    requires multiset(sorted) == multiset(s)
    ensures Elements(s, sorted) && NoDuplicates(sorted) && |sorted| == |s|
  {
    forall x ensures x in s <==> x in sorted {
      assert x in sorted <==> x in multiset(sorted);
    }
    assert |multiset(sorted)| == |sorted| && |multiset(s)| == |s|;
    DistinctSize(sorted, s);
  }

  lemma GreaterSuffix(sorted: seq<string>, s: set<string>, i: nat)
    requires Sorted(StrLe, sorted) && multiset(sorted) == multiset(s) && i < |sorted|
    ensures |Greater(s, sorted[i])| == |sorted| - i - 1
  {
    Members(sorted, s);
    var rest := sorted[i + 1..];
    forall y ensures y in Greater(s, sorted[i]) <==> y in rest {
      if y in Greater(s, sorted[i]) {
        var j :| 0 <= j < |sorted| && sorted[j] == y;
        if j < i {
          StrAntisymmetric(sorted[i], sorted[j]);
        }
        assert j > i && rest[j - i - 1] == y;
      }
      if y in rest {
        var j :| 0 <= j < |rest| && rest[j] == y;
        assert sorted[i + 1 + j] == y;
      }
    }
    DistinctSize(rest, Greater(s, sorted[i]));
  }

  /** `set(sorted(s)[-n:])` is the top of `s`. */
  lemma SortedTop(sorted: seq<string>, s: set<string>, n: nat, last: seq<string>)
    requires Sorted(StrLe, sorted) && multiset(sorted) == multiset(s) && n <= |sorted|
    requires last == sorted[|sorted| - n..]
    ensures Elements(Top(n, s), last)
  {
    Members(sorted, s);
    forall x ensures x in last <==> x in Top(n, s) {
      if x in last {
        var j :| 0 <= j < |last| && last[j] == x;
        assert sorted[|sorted| - n + j] == x;
        GreaterSuffix(sorted, s, |sorted| - n + j);
      }
      if x in Top(n, s) {
        var i :| 0 <= i < |sorted| && sorted[i] == x;
        GreaterSuffix(sorted, s, i);
        assert last[i - (|sorted| - n)] == x;
      }
    }
  }
}

/** Path scopes of writer leases: which paths a scope covers, and when two scopes overlap. */
module LeasePaths {

  /** Full case folding, one code point at a time; a slash folds to itself. */
  type CaseFold = f: char -> string | f('/') == "/" witness c => [c]

  function Fold(f: CaseFold, s: string): (r: string) {
    if s == [] then [] else f(s[0]) + Fold(f, s[1..])
  }

  /** `path == allowed or path.startswith(allowed + "/")`, the test behind `covers`. */
  predicate Within(path: string, allowed: string) {
    path == allowed || allowed + "/" <= path
  }

  /** The overlap test that `acquire` and `restore` make between two scopes. */
  predicate Overlap(f: CaseFold, first: string, second: string) {
    var left := Fold(f, first);
    var right := Fold(f, second);
    left == right || right + "/" <= left || left + "/" <= right
  }

  predicate AnyOverlap(f: CaseFold, left: seq<string>, right: seq<string>) {
    exists p, q :: p in left && q in right && Overlap(f, p, q)
  }

  lemma {:induction false} FoldConcat(f: CaseFold, a: string, b: string)
    ensures Fold(f, a + b) == Fold(f, a) + Fold(f, b)
  {
    if a == [] {
      assert a + b == b;
    } else {
      FoldConcat(f, a[1..], b);
      assert (a + b)[0] == a[0] && (a + b)[1..] == a[1..] + b;
      var head, x, y := f(a[0]), Fold(f, a[1..]), Fold(f, b);
      assert head + (x + y) == (head + x) + y;
    }
  }

  /** Folding one code point is what the folding says. */
  lemma FoldChar(f: CaseFold, c: char)
    ensures Fold(f, [c]) == f(c)
  {
    assert Fold(f, [c]) == f(c) + Fold(f, [c][1..]);
    assert [c][1..] == [] && f(c) + [] == f(c);
  }

  lemma OverlapSymmetric(f: CaseFold, p: string, q: string)
    ensures Overlap(f, p, q) == Overlap(f, q, p)
  {
  }

  lemma FoldSlash(f: CaseFold, s: string)
    ensures Fold(f, s + "/") == Fold(f, s) + "/"
  {
    FoldConcat(f, s, "/");
    assert Fold(f, "/") == f('/') + Fold(f, "/"[1..]);
    assert f('/') + "" == "/";
  }

  /** Coverage survives case folding. */
  lemma FoldedWithin(f: CaseFold, path: string, allowed: string)
    requires Within(path, allowed)
    ensures Within(Fold(f, path), Fold(f, allowed))
  {
    if path != allowed {
      var rest := path[|allowed| + 1..];
      assert path == (allowed + "/") + rest;
      FoldConcat(f, allowed + "/", rest);
      FoldSlash(f, allowed);
      assert Fold(f, path) == (Fold(f, allowed) + "/") + Fold(f, rest);
    }
  }

  /** Two scopes that enclose one common text enclose one another. */
  lemma NestedScopes(text: string, a: string, b: string)
    requires Within(text, a) && Within(text, b) && |a| <= |b|
    ensures Within(b, a)
  {
    if |a| == |b| {
      assert a == text[..|a|] && b == text[..|b|];
    } else {
      assert text[|a|] == '/';
      assert a == text[..|a|] && b == text[..|b|];
      assert b[..|a| + 1] == a + "/";
    }
  }

  /** If two scopes cover two spellings of one path, equal after case folding,
      the allocator's overlap test holds between those scopes. */
  lemma CoveringScopesOverlap(f: CaseFold, p: string, q: string, a: string, b: string)
    requires Within(p, a) && Within(q, b) && Fold(f, p) == Fold(f, q)
    ensures Overlap(f, a, b)
  {
    FoldedWithin(f, p, a);
    FoldedWithin(f, q, b);
    if |Fold(f, a)| <= |Fold(f, b)| {
      NestedScopes(Fold(f, p), Fold(f, a), Fold(f, b));
    } else {
      NestedScopes(Fold(f, p), Fold(f, b), Fold(f, a));
    }
  }

  /** Conversely the test raises no false alarm: overlapping scopes enclose a common folded text. */
  lemma OverlapIsExact(f: CaseFold, a: string, b: string)
    ensures Overlap(f, a, b) <==>
            exists text :: Within(text, Fold(f, a)) && Within(text, Fold(f, b))
  {
    var left, right := Fold(f, a), Fold(f, b);
    if Overlap(f, a, b) {
      var text := if |left| <= |right| then right else left;
      assert Within(text, left) && Within(text, right);
    }
    if text :| Within(text, left) && Within(text, right) {
      if |left| <= |right| {
        NestedScopes(text, left, right);
      } else {
        NestedScopes(text, right, left);
      }
      assert exists t :: Within(t, Fold(f, a)) && Within(t, Fold(f, b));
    }
  }
}

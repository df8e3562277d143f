/** What a restore of the task ledger keeps, and when it keeps requests unique. */
module LedgerRestores {
  import opened OrderedDict
  import opened Sorting
  import opened Ledger

  // ---------------------------------------------------------------- the merge

  predicate LastGiven(records: seq<Task>, i: int) {
    0 <= i < |records| && forall j :: i < j < |records| ==> records[j].taskId != records[i].taskId
  }

  predicate Given(records: seq<Task>, id: string) {
    exists i :: 0 <= i < |records| && records[i].taskId == id
  }

  /** The last given receipt of a task, revived if it has the shape for it, or a held one
      whose task is not given. */
  ghost predicate Merged(held: Table, records: seq<Task>, x: (string, Task)) {
    || (x in held && !Given(records, x.0))
    || exists i :: LastGiven(records, i) && x == (records[i].taskId, Revived(records[i]))
  }

  lemma GivenNext(rest: seq<Task>, last: Task, records: seq<Task>, id: string)
    requires records == rest + [last]
    ensures Given(records, id) <==> Given(rest, id) || id == last.taskId
  {
    if Given(rest, id) {
      var i :| 0 <= i < |rest| && rest[i].taskId == id;
      assert records[i].taskId == id;
    }
    assert records[|rest|] == last;
  }

  lemma LastGivenNext(rest: seq<Task>, last: Task, records: seq<Task>, i: int)
    requires records == rest + [last]
    ensures LastGiven(records, i) <==>
              i == |rest| || (LastGiven(rest, i) && rest[i].taskId != last.taskId)
  {
    if 0 <= i < |rest| && LastGiven(records, i) {
      assert records[|rest|] == last;
      assert forall j :: i < j < |rest| ==> records[j] == rest[j];
    }
  }

  lemma MergedNext(held: Table, rest: seq<Task>, last: Task, records: seq<Task>, x: (string, Task))
    requires records == rest + [last]
    ensures Merged(held, records, x) <==>
              x == (last.taskId, Revived(last)) || (Merged(held, rest, x) && x.0 != last.taskId)
  {
    GivenNext(rest, last, records, x.0);
    forall i ensures LastGiven(records, i) <==> i == |rest| || (LastGiven(rest, i) && rest[i].taskId != last.taskId) {
      LastGivenNext(rest, last, records, i);
    }
    assert LastGiven(records, |rest|) && records[|rest|] == last;
    if i :| LastGiven(rest, i) && x == (rest[i].taskId, Revived(rest[i])) && x.0 != last.taskId {
      assert LastGiven(records, i) && records[i] == rest[i];
    }
  }

  /** One more receipt of the merge. */
  lemma PutAllNext(held: Table, records: seq<Task>, i: nat, last: Task, before: Table, after: Table)
    requires i < |records| && before == PutAll(held, records[..i])
    requires last == Revived(records[i]) && after == Put(before, last.taskId, last)
    ensures after == PutAll(held, records[..i + 1])
  {
    assert records[..i + 1][..i] == records[..i];
  }

  lemma MergedPut(held: Table, rest: seq<Task>, last: Task, records: seq<Task>, before: Table, after: Table)
    requires records == rest + [last] && after == Put(before, last.taskId, Revived(last))
    requires Ledger.Keyed(before) && forall x :: x in before <==> Merged(held, rest, x)
    ensures Ledger.Keyed(after) && forall x :: x in after <==> Merged(held, records, x)
  {
    PutMember(before, last.taskId, Revived(last));
    forall x ensures x in after <==> Merged(held, records, x) {
      MergedNext(held, rest, last, records, x);
    }
  }

  /** Which receipts a restore merges. */
  lemma {:induction false} MergedExact(held: Table, records: seq<Task>)
    requires Ledger.Keyed(held)
    ensures Ledger.Keyed(PutAll(held, records))
    ensures forall x :: x in PutAll(held, records) <==> Merged(held, records, x)
  {
    if records != [] {
      var n := |records| - 1;
      MergedExact(held, records[..n]);
      assert records == records[..n] + [records[n]];
      MergedPut(held, records[..n], records[n], records, PutAll(held, records[..n]), PutAll(held, records));
    }
  }

  // ---------------------------------------------------------------- the bound

  lemma StrAntisymmetricIf(a: string, b: string)
    ensures StrLe(a, b) && StrLe(b, a) ==> a == b
  {
    if StrLe(a, b) && StrLe(b, a) {
      StrAntisymmetric(a, b);
    }
  }

  lemma AgeIsTotal()
    ensures TotalPreorder(AgeLe)
  {
    StrLeIsTotal();
    forall a, b, c | AgeLe(a, b) && AgeLe(b, c) ensures AgeLe(a, c) {
      if a.1.createdAt == c.1.createdAt {
        StrAntisymmetricIf(a.1.createdAt, b.1.createdAt);
      }
    }
  }

  /** Two tasks of one ledger are never equally old. */
  lemma AgeSeparates(all: Table, x: (string, Task), y: (string, Task))
    requires Ledger.Keyed(all) && x in all && y in all && AgeLe(x, y) && AgeLe(y, x)
    ensures x == y
  {
    StrAntisymmetricIf(x.1.createdAt, y.1.createdAt);
    StrAntisymmetricIf(x.1.taskId, y.1.taskId);
    FindMember(all, x.0, x.1);
    FindMember(all, y.0, y.1);
  }

  function Younger(all: Table, x: (string, Task)): (r: set<(string, Task)>) {
    set y | y in all && !AgeLe(y, x)
  }

  lemma KeyedUnique(all: Table)
    requires Ledger.Keyed(all)
    ensures NoDuplicates(all)
  {
  }

  lemma SortedKeyed(all: Table, sorted: Table)
    requires Ledger.Keyed(all) && multiset(sorted) == multiset(all)
    ensures Ledger.Keyed(sorted)
  {
    SameElements(sorted, all);
    KeyedUnique(all);
    NoDuplicatesPermute(all, sorted);
    forall i, j | 0 <= i < j < |sorted| ensures sorted[i].0 != sorted[j].0 {
      assert sorted[i] in all && sorted[j] in all;
      FindMember(all, sorted[i].0, sorted[i].1);
      FindMember(all, sorted[j].0, sorted[j].1);
    }
  }

  lemma YoungerSuffix(all: Table, sorted: Table, i: nat)
    requires Ledger.Keyed(all) && multiset(sorted) == multiset(all) && Sorted(AgeLe, sorted) && i < |sorted|
    ensures |Younger(all, sorted[i])| == |sorted| - i - 1
  {
    SameElements(sorted, all);
    SortedKeyed(all, sorted);
    KeyedUnique(sorted);
    var rest := sorted[i + 1..];
    forall y ensures y in Younger(all, sorted[i]) <==> y in rest {
      if y in Younger(all, sorted[i]) {
        AgeIsTotal();
        var j :| 0 <= j < |sorted| && sorted[j] == y;
        assert j > i && rest[j - i - 1] == y;
      }
      if y in rest {
        var j :| 0 <= j < |rest| && rest[j] == y;
        assert sorted[i + 1 + j] == y && y in all && sorted[i] in all;
        if AgeLe(y, sorted[i]) {
          AgeSeparates(all, y, sorted[i]);
        }
      }
    }
    DistinctSize(rest, Younger(all, sorted[i]));
  }

  /** `sorted` is `all` from the oldest task to the youngest. */
  ghost predicate ByAge(all: Table, sorted: Table) {
    Ledger.Keyed(all) && multiset(sorted) == multiset(all) && Sorted(AgeLe, sorted)
  }

  lemma YoungestKept(all: Table, sorted: Table, k: nat, x: (string, Task))
    requires ByAge(all, sorted) && k <= |sorted| && x in sorted[k..]
    ensures x in all && |Younger(all, x)| < |sorted| - k
  {
    SameElements(sorted, all);
    var j :| 0 <= j < |sorted[k..]| && sorted[k..][j] == x;
    YoungerSuffix(all, sorted, k + j);
  }

  lemma OlderCut(all: Table, sorted: Table, k: nat, x: (string, Task))
    requires ByAge(all, sorted) && k <= |sorted| && x in sorted[..k]
    ensures |Younger(all, x)| >= |sorted| - k
  {
    var i :| 0 <= i < k && sorted[i] == x;
    YoungerSuffix(all, sorted, i);
  }

  lemma CutExact(all: Table, sorted: Table, k: nat, x: (string, Task))
    requires ByAge(all, sorted) && k <= |sorted|
    ensures x in sorted[k..] <==> x in all && |Younger(all, x)| < |sorted| - k
  {
    SameElements(sorted, all);
    SplitMember(sorted, k, x);
    if x in sorted[k..] {
      YoungestKept(all, sorted, k, x);
    } else if x in sorted[..k] {
      OlderCut(all, sorted, k, x);
    }
  }

  lemma AllKept(all: Table, max: nat, x: (string, Task))
    requires Ledger.Keyed(all) && x in all && |all| <= max
    ensures |Younger(all, x)| < max
  {
    AgeIsTotal();
    SortBySorted(AgeLe, all);
    var sorted := SortBy(AgeLe, all);
    SameElements(sorted, all);
    var i :| 0 <= i < |sorted| && sorted[i] == x;
    YoungerSuffix(all, sorted, i);
  }

  /** A restored ledger holds exactly the merged receipts with fewer than `max` younger ones. */
  lemma RestoreExact(t: Table, max: nat, records: seq<Task>, replaceExisting: bool)
    requires Ledger.Keyed(t)
    ensures var held: Table := if replaceExisting then [] else t;
            var all := Merge(t, records, replaceExisting);
            var r := Restore(t, max, records, replaceExisting);
            && Ledger.Keyed(r) && |r| == (if |all| > max then max else |all|)
            && forall x :: x in r <==> Merged(held, records, x) && |Younger(all, x)| < max
  {
    var held: Table := if replaceExisting then [] else t;
    var all := Merge(t, records, replaceExisting);
    MergedExact(held, records);
    if |all| > max {
      AgeIsTotal();
      SortBySorted(AgeLe, all);
      var sorted := SortBy(AgeLe, all);
      SortedKeyed(all, sorted);
      forall x ensures x in sorted[|all| - max..] <==> x in all && |Younger(all, x)| < max {
        CutExact(all, sorted, |all| - max, x);
      }
    } else {
      forall x | x in all ensures |Younger(all, x)| < max {
        AllKept(all, max, x);
      }
    }
  }

  /** What a restore had to leave out is no younger than anything it kept. */
  lemma RestoreKeepsYoungest(t: Table, max: nat, records: seq<Task>, replaceExisting: bool)
    requires Ledger.Keyed(t)
    ensures var all := Merge(t, records, replaceExisting);
            var r := Restore(t, max, records, replaceExisting);
            forall x, y :: x in r && y in all && y !in r ==> AgeLe(y, x)
  {
    var all := Merge(t, records, replaceExisting);
    if |all| > max {
      AgeIsTotal();
      SortBySorted(AgeLe, all);
      var sorted, k := SortBy(AgeLe, all), |all| - max;
      SameElements(sorted, all);
      forall x, y | x in sorted[k..] && y in all && y !in sorted[k..] ensures AgeLe(y, x) {
        SplitMember(sorted, k, y);
        CutSorted(AgeLe, sorted, k, y, x);
      }
    }
  }

  // ---------------------------------------------------------------- unique requests

  /** No two tasks of one request are among the youngest `max` merged receipts. */
  ghost predicate Clear(t: Table, max: nat, records: seq<Task>, replaceExisting: bool) {
    var held: Table := if replaceExisting then [] else t;
    var all := Merge(t, records, replaceExisting);
    forall x, y :: Merged(held, records, x) && Merged(held, records, y) && x.0 != y.0 && SameRequest(x.1, y.1)
      ==> |Younger(all, x)| >= max || |Younger(all, y)| >= max
  }

  /** A restore leaves one task for each request if and only if its records are clear. */
  lemma RestoreOneEachIff(t: Table, max: nat, records: seq<Task>, replaceExisting: bool)
    requires Ledger.Keyed(t)
    ensures OneEach(Restore(t, max, records, replaceExisting)) <==> Clear(t, max, records, replaceExisting)
  {
    RestoreExact(t, max, records, replaceExisting);
  }

  /** A restore that cuts nothing does so if and only if the merged receipts have unique requests. */
  lemma UncutOneEachIff(t: Table, max: nat, records: seq<Task>, replaceExisting: bool)
    requires Ledger.Keyed(t) && |Merge(t, records, replaceExisting)| <= max
    ensures var held: Table := if replaceExisting then [] else t;
            OneEach(Restore(t, max, records, replaceExisting)) <==>
            forall x, y :: Merged(held, records, x) && Merged(held, records, y) && x.0 != y.0 ==> !SameRequest(x.1, y.1)
  {
    MergedExact(if replaceExisting then [] else t, records);
  }

  /** The condition is needed: beside any held task of a ledger that is not full, a restored
      receipt of another task with the same request is stored too. */
  lemma RestoreCanRepeatRequest(t: Table, max: nat, x: (string, Task), id: string)
    requires Ledger.Keyed(t) && x in t && |t| < max && !Has(t, id)
    ensures !OneEach(Restore(t, max, [x.1.(taskId := id)], false))
  {
    var copy := x.1.(taskId := id);
    assert [copy][..0] == [];
    assert PutAll(t, [copy]) == Put(t, id, Revived(copy));
    PutMember(t, id, Revived(copy));
    assert SameRequest(x.1, Revived(copy));
  }
}

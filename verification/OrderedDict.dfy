/** The insertion-ordered dictionary that the control plane keeps its tables in:
    overwriting a key keeps its place, a new key goes to the end. */
module OrderedDict {
  import opened Wrappers

  type Dict<V> = seq<(string, V)>

  ghost predicate Distinct<V>(d: Dict<V>) {
    forall i, j :: 0 <= i < j < |d| ==> d[i].0 != d[j].0
  }

  /** The position of key `k`, or the length when it is absent. */
  function IndexOf<V>(d: Dict<V>, k: string): (i: nat)
    ensures i <= |d|
    ensures i < |d| ==> d[i].0 == k
    ensures forall j :: 0 <= j < i ==> d[j].0 != k
  {
    if d == [] || d[0].0 == k then 0 else IndexOf(d[1..], k) + 1
  }

  predicate Has<V>(d: Dict<V>, k: string) {
    IndexOf(d, k) < |d|
  }

  function Find<V>(d: Dict<V>, k: string): (r: Option<V>) {
    if Has(d, k) then Some(d[IndexOf(d, k)].1) else None
  }

  function Put<V>(d: Dict<V>, k: string, v: V): (r: Dict<V>) {
    var i := IndexOf(d, k);
    if i < |d| then d[i := (k, v)] else d + [(k, v)]
  }

  function Remove<V>(d: Dict<V>, k: string): (r: Dict<V>) {
    var i := IndexOf(d, k);
    if i < |d| then d[..i] + d[i + 1..] else d
  }

  lemma FindMember<V>(d: Dict<V>, k: string, v: V)
    requires Distinct(d)
    ensures Find(d, k) == Some(v) <==> (k, v) in d
  {
    if (k, v) in d {
      var j :| 0 <= j < |d| && d[j] == (k, v);
      assert d[IndexOf(d, k)].0 == k;
    }
  }

  lemma HasMember<V>(d: Dict<V>, x: (string, V))
    requires x in d
    ensures Has(d, x.0)
  {
  }

  /** What `Put` holds afterwards: the new binding, and every binding of another key. */
  lemma PutMember<V>(d: Dict<V>, k: string, v: V)
    requires Distinct(d)
    ensures Distinct(Put(d, k, v))
    ensures forall x :: x in Put(d, k, v) <==> x == (k, v) || (x in d && x.0 != k)
    ensures |Put(d, k, v)| == if Has(d, k) then |d| else |d| + 1
  {
    var i := IndexOf(d, k);
    var r := Put(d, k, v);
    forall x ensures x in r <==> x == (k, v) || (x in d && x.0 != k) {
      if x in d && x.0 != k {
        var j :| 0 <= j < |d| && d[j] == x;
        assert r[j] == x;
      }
      if x == (k, v) {
        assert r[i] == x;
      }
    }
  }

  lemma RemoveMember<V>(d: Dict<V>, k: string)
    requires Distinct(d)
    ensures Distinct(Remove(d, k))
    ensures forall x :: x in Remove(d, k) <==> x in d && x.0 != k
    ensures |Remove(d, k)| == if Has(d, k) then |d| - 1 else |d|
  {
    var i := IndexOf(d, k);
    var r := Remove(d, k);
    forall x ensures x in r <==> x in d && x.0 != k {
      if x in d && x.0 != k {
        var j :| 0 <= j < |d| && d[j] == x;
        assert j != i;
        assert if j < i then r[j] == x else r[j - 1] == x;
      }
      if x in r {
        var j :| 0 <= j < |r| && r[j] == x;
        assert if j < i then d[j] == x else i < |d| && d[j + 1] == x;
      }
    }
  }

  /** Removing the key at the head, or one further on. */
  lemma RemoveHead<V>(d: Dict<V>, k: string)
    requires d != []
    ensures d[0].0 == k ==> Remove(d, k) == d[1..]
    ensures d[0].0 != k ==> Remove(d, k) == [d[0]] + Remove(d[1..], k)
  {
  }

  function Keys<V>(d: Dict<V>): (r: seq<string>)
    ensures |r| == |d| && forall i :: 0 <= i < |r| ==> r[i] == d[i].0
  {
    seq(|d|, i requires 0 <= i < |d| => d[i].0)
  }

  /** Overwriting keeps the order of the keys, and a new key comes last. */
  lemma PutOrder<V>(d: Dict<V>, k: string, v: V)
    ensures Keys(Put(d, k, v)) == if Has(d, k) then Keys(d) else Keys(d) + [k]
  {
  }

  /** Removing a key keeps the order of the others. */
  lemma RemoveOrder<V>(d: Dict<V>, k: string)
    ensures Has(d, k) ==> exists i :: 0 <= i < |d| && Keys(d)[i] == k && Keys(Remove(d, k)) == Keys(d)[..i] + Keys(d)[i + 1..]
    ensures !Has(d, k) ==> Remove(d, k) == d
  {
    if Has(d, k) {
      var i := IndexOf(d, k);
      assert Keys(Remove(d, k)) == Keys(d)[..i] + Keys(d)[i + 1..];
    }
  }
}

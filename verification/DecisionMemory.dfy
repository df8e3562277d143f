/** `resolve_active_decisions`: supersession chains, conflicts, and independence of the input order. */
module DecisionMemory {
  import opened Wrappers
  import opened Sorting

  datatype Status = Active | Superseded | Retired

  datatype Record = Record(
    id: string, workspace: string, scope: string, status: Status, rule: string, rationale: string,
    sourceRevision: string, evidence: seq<string>, successor: string)

  /** SHA-256 of the printed records, taken as injective. */
  datatype Revision = Sha256(records: seq<Record>)

  datatype Resolution = Resolution(active: seq<Record>, conflicted: bool, conflictIds: seq<string>, revision: Revision)

  datatype Error = TooMany | IdsNotUnique | WorkspacesDiffer | SuccessorMissing | SupersessionCycle

  const MAX_RECORDS := 1024

  // ---------------------------------------------------------------- what is asked of the records

  predicate UniqueIds(records: seq<Record>) {
    forall i, j :: 0 <= i < j < |records| ==> records[i].id != records[j].id
  }

  predicate OneWorkspace(records: seq<Record>) {
    forall i, j :: 0 <= i < |records| && 0 <= j < |records| ==> records[i].workspace == records[j].workspace
  }

  predicate Successors(records: seq<Record>) {
    forall r :: r in records && r.status == Superseded ==> HasId(records, r.successor)
  }

  predicate HasId(records: seq<Record>, id: string) {
    exists j :: 0 <= j < |records| && records[j].id == id
  }

  /** The record at `i` names the next one. */
  ghost predicate Follows(s: seq<Record>, i: int)
    requires 0 <= i < |s| - 1
  {
    s[i].successor == s[i + 1].id
  }

  /** A ring of superseded records, each naming the next and the last naming the first. */
  ghost predicate Cycle(records: seq<Record>, ring: seq<Record>) {
    && ring != []
    && (forall r :: r in ring ==> r in records && r.status == Superseded)
    && (forall i :: 0 <= i < |ring| - 1 ==> Follows(ring, i))
    && ring[|ring| - 1].successor == ring[0].id
  }

  ghost predicate Acyclic(records: seq<Record>) {
    forall ring :: !Cycle(records, ring)
  }

  /** The first requirement that the records miss, in the order of the checks. */
  ghost function Failure(records: seq<Record>): (r: Option<Error>) {
    if |records| > MAX_RECORDS then Some(TooMany)
    else if !UniqueIds(records) then Some(IdsNotUnique)
    else if !OneWorkspace(records) then Some(WorkspacesDiffer)
    else if !Successors(records) then Some(SuccessorMissing)
    else if !Acyclic(records) then Some(SupersessionCycle)
    else None
  }

  // ---------------------------------------------------------------- what is computed

  function Actives(records: seq<Record>): (r: seq<Record>)
    ensures forall x :: x in r <==> x in records && x.status == Active
  {
    if records == [] then []
    else
      assert records == [records[0]] + records[1..];
      (if records[0].status == Active then [records[0]] else []) + Actives(records[1..])
  }

  predicate IdLe(a: Record, b: Record) {
    StrLe(a.id, b.id)
  }

  predicate ScopeLe(a: Record, b: Record) {
    if a.scope == b.scope then StrLe(a.id, b.id) else StrLe(a.scope, b.scope)
  }

  /** An active record is in conflict when another active one in its scope has a different rule. */
  predicate Disputed(records: seq<Record>, r: Record) {
    exists s :: s in records && s.status == Active && s.scope == r.scope && s.rule != r.rule
  }

  ghost function Conflicts(records: seq<Record>): set<string> {
    set r | r in records && r.status == Active && Disputed(records, r) :: r.id
  }

  /** The whole specification of a call. */
  ghost predicate Resolves(records: seq<Record>, r: Result<Resolution, Error>) {
    match r
    case Err(e) => Failure(records) == Some(e)
    case Ok(v) =>
      && Failure(records) == None
      && v.active == SortBy(ScopeLe, Actives(records))
      && Sorted(StrLe, v.conflictIds) && multiset(v.conflictIds) == multiset(Conflicts(records))
      && (v.conflicted <==> v.conflictIds != [])
      && v.revision == Sha256(SortBy(IdLe, records))
  }

  // ---------------------------------------------------------------- chains

  function ById(records: seq<Record>): (r: map<string, Record>)
    requires UniqueIds(records)
    ensures forall x :: x in records ==> x.id in r && r[x.id] == x
    ensures forall k :: k in r ==> r[k] in records && r[k].id == k
  {
    map i | 0 <= i < |records| :: records[i].id := records[i]
  }

  /** Following successors from `r` reaches a record that is not superseded within `n` hops. */
  ghost predicate Settles(byId: map<string, Record>, r: Record, n: nat)
    decreases n
  {
    r.status != Superseded || (n > 0 && r.successor in byId && Settles(byId, byId[r.successor], n - 1))
  }

  /** The superseded records passed on the way from `start` to `current`. */
  ghost predicate Trail(records: seq<Record>, trail: seq<Record>, start: Record, current: Record) {
    && (forall r :: r in trail ==> r in records && r.status == Superseded)
    && (forall i :: 0 <= i < |trail| - 1 ==> Follows(trail, i))
    && (if trail == [] then current == start else trail[0] == start && trail[|trail| - 1].successor == current.id)
  }

  lemma SameId(records: seq<Record>, a: Record, b: Record)
    requires UniqueIds(records) && a in records && b in records && a.id == b.id
    ensures a == b
  {
    assert ById(records)[a.id] == a;
  }

  /** Meeting an id of the trail again closes a ring. */
  lemma TrailCloses(records: seq<Record>, trail: seq<Record>, start: Record, current: Record, j: nat)
    requires UniqueIds(records) && Trail(records, trail, start, current)
    requires j < |trail| && trail[j].id == current.id
    ensures Cycle(records, trail[j..])
  {
    var ring := trail[j..];
    assert forall r :: r in ring ==> r in trail;
    assert ring[0] == trail[j] && ring[|ring| - 1] == trail[|trail| - 1];
    forall i | 0 <= i < |ring| - 1 ensures Follows(ring, i) {
      assert Follows(trail, j + i) && ring[i] == trail[j + i] && ring[i + 1] == trail[j + i + 1];
    }
  }

  /** The first hop of a trail, and the trail that is left. */
  lemma TrailTail(records: seq<Record>, trail: seq<Record>, start: Record, current: Record) returns (next: Record)
    requires UniqueIds(records) && Trail(records, trail, start, current) && current in records && trail != []
    ensures next in records && next.id == start.successor && start.status == Superseded
    ensures Trail(records, trail[1..], next, current)
  {
    assert trail[0] in trail;
    if |trail| == 1 {
      next := current;
    } else {
      next := trail[1];
      assert trail[1] in trail && Follows(trail, 0);
    }
    forall i | 0 <= i < |trail[1..]| - 1 ensures Follows(trail[1..], i) {
      assert Follows(trail, i + 1);
    }
    assert forall r :: r in trail[1..] ==> r in trail;
  }

  lemma {:induction false} TrailSettles(records: seq<Record>, trail: seq<Record>, start: Record, current: Record)
    requires UniqueIds(records) && Trail(records, trail, start, current) && current in records && start in records
    requires current.status != Superseded
    ensures Settles(ById(records), start, |trail|)
    decreases |trail|
  {
    if trail != [] {
      var next := TrailTail(records, trail, start, current);
      TrailSettles(records, trail[1..], next, current);
      assert ById(records)[start.successor] == next;
    }
  }

  /** Nothing on a ring ever settles. */
  lemma {:induction false} RingNeverSettles(records: seq<Record>, ring: seq<Record>, i: nat, n: nat)
    requires UniqueIds(records) && Cycle(records, ring) && i < |ring|
    ensures !Settles(ById(records), ring[i], n)
    decreases n
  {
    assert ring[i] in ring;
    if n > 0 && ring[i].successor in ById(records) {
      var j := if i + 1 < |ring| then i + 1 else 0;
      assert ring[j] in ring && (i + 1 < |ring| ==> Follows(ring, i));
      RingNeverSettles(records, ring, j, n - 1);
    }
  }

  ghost predicate Ends(byId: map<string, Record>, r: Record) {
    exists n :: Settles(byId, r, n)
  }

  ghost predicate AllEnd(records: seq<Record>)
    requires UniqueIds(records)
  {
    forall r :: r in records ==> Ends(ById(records), r)
  }

  lemma EndedAcyclic(records: seq<Record>)
    requires UniqueIds(records) && AllEnd(records)
    ensures Acyclic(records)
  {
    forall ring | Cycle(records, ring) ensures false {
      assert ring[0] in ring;
      var n :| Settles(ById(records), ring[0], n);
      RingNeverSettles(records, ring, 0, n);
    }
  }

  ghost predicate Seen(trail: seq<Record>, seen: set<string>) {
    seen == set r | r in trail :: r.id
  }

  lemma SmallerRest(keys: set<string>, seen: set<string>, id: string)
    requires id in keys && id !in seen
    ensures |keys - (seen + {id})| < |keys - seen|
  {
    assert keys - seen == (keys - (seen + {id})) + {id};
  }

  lemma SeenNext(trail: seq<Record>, seen: set<string>, current: Record)
    requires Seen(trail, seen)
    ensures Seen(trail + [current], seen + {current.id})
  {
  }

  /** One hop along a chain. */
  lemma TrailNext(records: seq<Record>, trail: seq<Record>, start: Record, current: Record, next: Record)
    requires UniqueIds(records) && Trail(records, trail, start, current) && current in records
    requires current.status == Superseded && next.id == current.successor
    ensures Trail(records, trail + [current], start, next)
  {
    var longer := trail + [current];
    forall i | 0 <= i < |longer| - 1 ensures Follows(longer, i) {
      assert longer[i] == trail[i] && (i + 1 < |trail| ==> Follows(trail, i) && longer[i + 1] == trail[i + 1]);
    }
  }

  lemma SuccessorFound(records: seq<Record>, current: Record)
    requires UniqueIds(records) && Successors(records) && current in records && current.status == Superseded
    ensures current.successor in ById(records)
  {
    var k :| 0 <= k < |records| && records[k].id == current.successor;
    assert records[k] in records;
  }

  /** Where a walk along a chain stands: some trail leads from `start` to `current` through the seen ids. */
  ghost predicate Walked(records: seq<Record>, seen: set<string>, start: Record, current: Record) {
    current in records && exists trail :: Trail(records, trail, start, current) && Seen(trail, seen)
  }

  lemma WalkedNext(records: seq<Record>, seen: set<string>, start: Record, current: Record, next: Record)
    requires UniqueIds(records) && Walked(records, seen, start, current) && current.status == Superseded
    requires next in records && next.id == current.successor
    ensures Walked(records, seen + {current.id}, start, next)
  {
    var trail :| Trail(records, trail, start, current) && Seen(trail, seen);
    TrailNext(records, trail, start, current, next);
    SeenNext(trail, seen, current);
  }

  /** A walk that ends in a record that is not superseded settles its start. */
  lemma WalkedEnds(records: seq<Record>, seen: set<string>, start: Record, current: Record)
    requires UniqueIds(records) && Walked(records, seen, start, current) && start in records
    requires current.status != Superseded
    ensures Ends(ById(records), start)
  {
    var trail :| Trail(records, trail, start, current) && Seen(trail, seen);
    TrailSettles(records, trail, start, current);
  }

  /** Meeting a seen id again closes a ring. */
  lemma SeenCloses(records: seq<Record>, seen: set<string>, start: Record, current: Record)
    requires UniqueIds(records) && Walked(records, seen, start, current) && current.id in seen
    ensures !Acyclic(records)
  {
    var trail :| Trail(records, trail, start, current) && Seen(trail, seen);
    var r: Record :| r in trail && r.id == current.id;
    var j :| 0 <= j < |trail| && trail[j] == r;
    TrailCloses(records, trail, start, current, j);
  }

  lemma WalkStarts(records: seq<Record>, start: Record)
    requires start in records
    ensures Walked(records, {}, start, start)
  {
    assert Trail(records, [], start, start) && Seen([], {});
  }

  /** Following a chain without rings leads, through ever new ids, to a record that is not superseded. */
  lemma {:induction false} WalkEnds(records: seq<Record>, seen: set<string>, start: Record, current: Record)
    requires UniqueIds(records) && Successors(records) && Acyclic(records) && start in records
    requires Walked(records, seen, start, current)
    ensures Ends(ById(records), start)
    decreases |ById(records).Keys - seen|
  {
    if current.status != Superseded {
      WalkedEnds(records, seen, start, current);
    } else if current.id in seen {
      SeenCloses(records, seen, start, current);
    } else {
      SuccessorFound(records, current);
      var next := ById(records)[current.successor];
      WalkedNext(records, seen, start, current, next);
      SmallerRest(ById(records).Keys, seen, current.id);
      WalkEnds(records, seen + {current.id}, start, next);
    }
  }

  /** Accepted records: every chain ends, in a record that is not superseded. */
  lemma ChainsEnd(records: seq<Record>)
    requires UniqueIds(records) && Successors(records)
    ensures Acyclic(records) <==> AllEnd(records)
  {
    if Acyclic(records) {
      forall r | r in records ensures Ends(ById(records), r) {
        WalkStarts(records, r);
        WalkEnds(records, {}, r, r);
      }
    } else if AllEnd(records) {
      EndedAcyclic(records);
    }
  }

  // ---------------------------------------------------------------- independence of the order

  ghost predicate Same<T(!new)>(a: seq<T>, b: seq<T>) {
    forall x :: x in a <==> x in b
  }

  lemma UniqueIdsPermute(a: seq<Record>, b: seq<Record>)
    requires multiset(a) == multiset(b) && UniqueIds(a)
    ensures UniqueIds(b)
  {
    SameElements(a, b);
    assert NoDuplicates(a);
    NoDuplicatesPermute(a, b);
    forall i, j | 0 <= i < j < |b| ensures b[i].id != b[j].id {
      assert b[i] in b && b[j] in b;
      if b[i].id == b[j].id {
        SameId(a, b[i], b[j]);
      }
    }
  }

  lemma OneWorkspacePermute(a: seq<Record>, b: seq<Record>)
    requires Same(a, b) && OneWorkspace(a)
    ensures OneWorkspace(b)
  {
    forall i, j | 0 <= i < |b| && 0 <= j < |b| ensures b[i].workspace == b[j].workspace {
      assert b[i] in a && b[j] in a;
    }
  }

  lemma HasIdPermute(a: seq<Record>, b: seq<Record>, id: string)
    requires Same(a, b) && HasId(a, id)
    ensures HasId(b, id)
  {
    var j :| 0 <= j < |a| && a[j].id == id;
    assert a[j] in b;
  }

  lemma SuccessorsPermute(a: seq<Record>, b: seq<Record>)
    requires Same(a, b) && Successors(a)
    ensures Successors(b)
  {
    forall r | r in b && r.status == Superseded ensures HasId(b, r.successor) {
      HasIdPermute(a, b, r.successor);
    }
  }

  lemma CyclePermute(a: seq<Record>, b: seq<Record>, ring: seq<Record>)
    requires Same(a, b) && Cycle(a, ring)
    ensures Cycle(b, ring)
  {
  }

  lemma AcyclicPermute(a: seq<Record>, b: seq<Record>)
    requires Same(a, b) && Acyclic(a)
    ensures Acyclic(b)
  {
    forall ring | Cycle(b, ring) ensures false {
      CyclePermute(b, a, ring);
    }
  }

  lemma FailurePermute(a: seq<Record>, b: seq<Record>)
    requires multiset(a) == multiset(b)
    ensures Failure(a) == Failure(b)
  {
    SameElements(a, b);
    if UniqueIds(a) { UniqueIdsPermute(a, b); }
    if UniqueIds(b) { UniqueIdsPermute(b, a); }
    if OneWorkspace(a) { OneWorkspacePermute(a, b); }
    if OneWorkspace(b) { OneWorkspacePermute(b, a); }
    if Successors(a) { SuccessorsPermute(a, b); }
    if Successors(b) { SuccessorsPermute(b, a); }
    if Acyclic(a) { AcyclicPermute(a, b); }
    if Acyclic(b) { AcyclicPermute(b, a); }
  }

  lemma {:induction false} ActivesMultiset(records: seq<Record>, x: Record)
    ensures multiset(Actives(records))[x] == if x.status == Active then multiset(records)[x] else 0
  {
    if records != [] {
      assert records == [records[0]] + records[1..];
      ActivesMultiset(records[1..], x);
    }
  }

  lemma ActivesPermute(a: seq<Record>, b: seq<Record>)
    requires multiset(a) == multiset(b)
    ensures multiset(Actives(a)) == multiset(Actives(b))
  {
    forall x ensures multiset(Actives(a))[x] == multiset(Actives(b))[x] {
      ActivesMultiset(a, x);
      ActivesMultiset(b, x);
    }
  }

  lemma OrdersAreTotal()
    ensures TotalPreorder(ScopeLe) && TotalPreorder(IdLe)
  {
    StrLeIsTotal();
    forall a: Record, b: Record ensures (ScopeLe(a, b) || ScopeLe(b, a)) && (IdLe(a, b) || IdLe(b, a)) {
      StrTotal(a.scope, b.scope);
      StrTotal(a.id, b.id);
    }
    forall a: Record, b: Record, c: Record | IdLe(a, b) && IdLe(b, c) ensures IdLe(a, c) {
      StrTransitive(a.id, b.id, c.id);
    }
    forall a: Record, b: Record, c: Record | ScopeLe(a, b) && ScopeLe(b, c) ensures ScopeLe(a, c) {
      ScopeTransitive(a, b, c);
    }
  }

  lemma ScopeTransitive(a: Record, b: Record, c: Record)
    requires ScopeLe(a, b) && ScopeLe(b, c)
    ensures ScopeLe(a, c)
  {
    if a.scope == b.scope == c.scope {
      StrTransitive(a.id, b.id, c.id);
    } else if a.scope != b.scope && b.scope != c.scope {
      StrTransitive(a.scope, b.scope, c.scope);
      if a.scope == c.scope {
        StrAntisymmetric(a.scope, b.scope);
      }
    }
  }

  /** Both orders tell records with unique ids apart. */
  lemma OrdersSeparate(records: seq<Record>, part: seq<Record>)
    requires UniqueIds(records) && forall x :: x in part ==> x in records
    ensures Separates(ScopeLe, multiset(part)) && Separates(IdLe, multiset(part))
  {
    forall a, b | a in multiset(part) && b in multiset(part) && IdLe(a, b) && IdLe(b, a) ensures a == b {
      StrAntisymmetric(a.id, b.id);
      SameId(records, a, b);
    }
    forall a, b | a in multiset(part) && b in multiset(part) && ScopeLe(a, b) && ScopeLe(b, a) ensures a == b {
      if a.scope != b.scope {
        StrAntisymmetric(a.scope, b.scope);
      }
      StrAntisymmetric(a.id, b.id);
      SameId(records, a, b);
    }
  }

  lemma SortPermute(le: (Record, Record) -> bool, a: seq<Record>, b: seq<Record>)
    requires TotalPreorder(le) && Separates(le, multiset(a)) && multiset(a) == multiset(b)
    ensures SortBy(le, a) == SortBy(le, b)
  {
    SortBySorted(le, a);
    SortBySorted(le, b);
    SortedUnique(le, SortBy(le, a), SortBy(le, b));
  }

  lemma ConflictsPermute(a: seq<Record>, b: seq<Record>)
    requires Same(a, b)
    ensures Conflicts(a) == Conflicts(b)
  {
    assert forall r :: Disputed(a, r) <==> Disputed(b, r);
  }

  /** The whole outcome, error or resolution, is the same for every order of the records. */
  lemma OrderIndependent(a: seq<Record>, b: seq<Record>, ra: Result<Resolution, Error>, rb: Result<Resolution, Error>)
    requires multiset(a) == multiset(b) && Resolves(a, ra) && Resolves(b, rb)
    ensures ra == rb
  {
    FailurePermute(a, b);
    if ra.Ok? {
      SameElements(a, b);
      OrdersAreTotal();
      OrdersSeparate(a, a);
      OrdersSeparate(a, Actives(a));
      ActivesPermute(a, b);
      SortPermute(IdLe, a, b);
      SortPermute(ScopeLe, Actives(a), Actives(b));
      ConflictsPermute(a, b);
      StrSortUnique(ra.value.conflictIds, rb.value.conflictIds);
    }
  }

  /** The active records come by scope, and within a scope by id. */
  lemma ActivesInOrder(records: seq<Record>, r: Result<Resolution, Error>)
    requires Resolves(records, r) && r.Ok?
    ensures forall x :: x in r.value.active <==> x in records && x.status == Active
    ensures forall i, j :: 0 <= i < j < |r.value.active| ==>
              var a, b := r.value.active[i], r.value.active[j];
              if a.scope == b.scope then StrLe(a.id, b.id) else StrLe(a.scope, b.scope)
  {
    OrdersAreTotal();
    SortBySorted(ScopeLe, Actives(records));
    SameElements(r.value.active, Actives(records));
  }

  // ---------------------------------------------------------------- the call

  /** Walk one chain; a repeated id means a cycle. */
  method ChainCloses(records: seq<Record>, byId: map<string, Record>, record: Record) returns (cyclic: bool)
    requires UniqueIds(records) && Successors(records) && byId == ById(records) && record in records
    ensures cyclic ==> !Acyclic(records)
    ensures !cyclic ==> Ends(byId, record)
  {
    var seen: set<string> := {};
    var current := record;
    WalkStarts(records, record);
    while current.status == Superseded
      invariant Walked(records, seen, record, current)
      decreases |byId.Keys - seen|
    {
      if current.id in seen {
        SeenCloses(records, seen, record, current);
        return true;
      }
      SuccessorFound(records, current);
      WalkedNext(records, seen, record, current, byId[current.successor]);
      SmallerRest(byId.Keys, seen, current.id);
      seen := seen + {current.id};
      current := byId[current.successor];
    }
    WalkedEnds(records, seen, record, current);
    return false;
  }

  method AnyCycle(records: seq<Record>, byId: map<string, Record>) returns (cyclic: bool)
    requires UniqueIds(records) && Successors(records) && byId == ById(records)
    ensures cyclic <==> !Acyclic(records)
  {
    var i := 0;
    while i < |records|
      invariant i <= |records|
      invariant forall j :: 0 <= j < i ==> Ends(byId, records[j])
    {
      var closes := ChainCloses(records, byId, records[i]);
      if closes {
        return true;
      }
      i := i + 1;
    }
    EndedAcyclic(records);
    return false;
  }

  /** Group active records by scope. */
  method ByScope(active: seq<Record>) returns (scopes: map<string, seq<Record>>)
    ensures forall k :: k in scopes <==> exists x :: x in active && x.scope == k
    ensures forall k, x :: k in scopes ==> (x in scopes[k] <==> x in active && x.scope == k)
  {
    scopes := map[];
    var i := 0;
    while i < |active|
      invariant i <= |active|
      invariant forall k :: k in scopes <==> exists x :: x in active[..i] && x.scope == k
      invariant forall k, x :: k in scopes ==> (x in scopes[k] <==> x in active[..i] && x.scope == k)
    {
      var record := active[i];
      assert active[..i + 1] == active[..i] + [record];
      var scoped := if record.scope in scopes then scopes[record.scope] else [];
      scopes := scopes[record.scope := scoped + [record]];
      i := i + 1;
    }
    assert active[..i] == active;
  }

  /** The ids in the scopes whose records have more than one rule. */
  method ConflictIds(active: seq<Record>) returns (ids: set<string>)
    requires forall x :: x in active ==> x.status == Active
    ensures ids == Conflicts(active)
  {
    var scopes := ByScope(active);
    var rest := scopes.Keys;
    ids := {};
    while rest != {}
      invariant rest <= scopes.Keys
      invariant MarkedExactly(active, rest, ids)
      decreases |rest|
    {
      var k :| k in rest;
      var scoped := scopes[k];
      var mixed := exists i, j :: 0 <= i < |scoped| && 0 <= j < |scoped| && scoped[i].rule != scoped[j].rule;
      ScopeDisputes(active, k, scoped, mixed);
      var more := if mixed then Ids(scoped) else {};
      MarkedNext(active, rest, k, scoped, mixed, ids, ids + more);
      ids := ids + more;
      rest := rest - {k};
    }
    MarkedAll(active, ids);
  }

  function Ids(records: seq<Record>): set<string> {
    set r | r in records :: r.id
  }

  ghost predicate MarkedExactly(active: seq<Record>, rest: set<string>, ids: set<string>) {
    forall id :: id in ids <==> Marked(active, rest, id)
  }

  lemma MarkedAll(active: seq<Record>, ids: set<string>)
    requires forall x :: x in active ==> x.status == Active
    requires MarkedExactly(active, {}, ids)
    ensures ids == Conflicts(active)
  {
  }

  /** The id of a disputed record outside the scopes still to be visited. */
  ghost predicate Marked(active: seq<Record>, rest: set<string>, id: string) {
    exists r :: r in active && r.scope !in rest && r.id == id && Disputed(active, r)
  }

  lemma MarkedNext(active: seq<Record>, rest: set<string>, k: string, scoped: seq<Record>, mixed: bool,
                   ids: set<string>, next: set<string>)
    requires k in rest && forall x :: x in scoped <==> x in active && x.scope == k
    requires forall x :: x in scoped ==> (Disputed(active, x) <==> mixed)
    requires MarkedExactly(active, rest, ids) && next == ids + if mixed then Ids(scoped) else {}
    ensures MarkedExactly(active, rest - {k}, next)
  {
    forall id ensures id in next <==> Marked(active, rest - {k}, id) {
      if Marked(active, rest - {k}, id) {
        var r :| r in active && r.scope !in rest - {k} && r.id == id && Disputed(active, r);
        assert r.scope == k ==> r in scoped;
      }
    }
  }

  lemma ScopeDisputes(active: seq<Record>, k: string, scoped: seq<Record>, mixed: bool)
    requires forall x :: x in active ==> x.status == Active
    requires forall x :: x in scoped <==> x in active && x.scope == k
    requires mixed <==> exists i, j :: 0 <= i < |scoped| && 0 <= j < |scoped| && scoped[i].rule != scoped[j].rule
    ensures forall x :: x in scoped ==> (Disputed(active, x) <==> mixed)
  {
    if mixed {
      var i, j :| 0 <= i < |scoped| && 0 <= j < |scoped| && scoped[i].rule != scoped[j].rule;
      forall x | x in scoped ensures Disputed(active, x) {
        assert scoped[i] in scoped && scoped[j] in scoped;
        assert scoped[i].rule != x.rule || scoped[j].rule != x.rule;
      }
    } else {
      forall x | x in scoped ensures !Disputed(active, x) {
        forall s | s in active && s.scope == x.scope ensures s.rule == x.rule {
          assert s in scoped;
        }
      }
    }
  }

  /** The checks, in order. */
  method Examine(records: seq<Record>) returns (r: Option<Error>)
    ensures r == Failure(records)
  {
    if |records| > MAX_RECORDS {
      return Some(TooMany);
    }
    if !UniqueIds(records) {
      return Some(IdsNotUnique);
    }
    var byId := ById(records);
    if !OneWorkspace(records) {
      return Some(WorkspacesDiffer);
    }
    if !Successors(records) {
      return Some(SuccessorMissing);
    }
    var cyclic := AnyCycle(records, byId);
    return if cyclic then Some(SupersessionCycle) else None;
  }

  method ResolveActiveDecisions(records: seq<Record>) returns (r: Result<Resolution, Error>)
    ensures Resolves(records, r)
  {
    var failure := Examine(records);
    if failure.Some? {
      return Err(failure.value);
    }
    var active := SortBy(ScopeLe, Actives(records));
    SameElements(Actives(records), active);
    var ids := ConflictIds(active);
    ActiveConflicts(records, active);
    var sorted := SortedSet(ids);
    assert ids == {} <==> sorted == [] by {
      EmptySet(ids, sorted);
    }
    return Ok(Resolution(active, ids != {}, sorted, Sha256(SortBy(IdLe, records))));
  }

  lemma EmptySet(s: set<string>, r: seq<string>)
    requires multiset(s) == multiset(r)
    ensures s == {} <==> r == []
  {
    assert |multiset(s)| == |s| && |multiset(r)| == |r|;
  }

  lemma ActiveConflicts(records: seq<Record>, active: seq<Record>)
    requires forall x :: x in active <==> x in records && x.status == Active
    ensures Conflicts(active) == Conflicts(records)
  {
    assert forall r :: Disputed(active, r) <==> Disputed(records, r);
  }
}

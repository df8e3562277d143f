/** What a granted lease holds, written out from its request, and what it keeps others from. */
module LeaseTerms {
  import opened Wrappers
  import opened OrderedDict
  import opened Sorting
  import opened LeasePaths
  import opened Leases
  import opened LeaseGrants

  // ---------------------------------------------------------------- terms

  /** Hash pairs in the order of their paths, and of their digests for equal paths. */
  ghost predicate InOrder(hashes: seq<(string, string)>) {
    forall i, j :: 0 <= i < j < |hashes| ==>
      if hashes[i].0 == hashes[j].0 then StrLe(hashes[i].1, hashes[j].1) else StrLe(hashes[i].0, hashes[j].0)
  }

  lemma PairLeIsTotal()
    ensures TotalPreorder(PairLe)
  {
    StrLeIsTotal();
    forall a, b, c | PairLe(a, b) && PairLe(b, c) ensures PairLe(a, c) {
      if a.0 == c.0 && b.0 != a.0 {
        StrAntisymmetric(a.0, b.0);
      }
    }
  }

  lemma HashesInOrder(hashes: seq<(string, string)>)
    ensures InOrder(SortBy(PairLe, hashes)) && multiset(SortBy(PairLe, hashes)) == multiset(hashes)
  {
    PairLeIsTotal();
    SortBySorted(PairLe, hashes);
  }

  /** The lease that a request asks for, field by field. */
  ghost predicate Terms(ttl: real, req: Request, id: string, now: real, lease: Lease) {
    && lease.workspace == req.workspace && lease.owner == req.owner && lease.resources == req.resources
    && lease.id == id && lease.baseRevision == req.baseRevision && lease.stateHash == req.stateHash
    && (req.tree.Some? ==> lease.tree == req.tree.value)
    && (req.tree.None? ==> lease.tree == "workspace:" + req.workspace)
    && (req.task.Some? ==> lease.task == req.task.value)
    && (req.task.None? ==> lease.task == "legacy:" + req.owner)
    && (req.paths.Some? ==> lease.paths == req.paths.value)
    && (req.paths.None? ==> lease.paths == [])
    && (lease.wide <==> req.paths.None? || req.wide)
    && lease.expiresAt == now + ttl && lease.acquiredAt == now
    && InOrder(lease.scopeHashes) && multiset(lease.scopeHashes) == multiset(req.scopeHashes)
  }

  lemma NewLeaseTerms(c: Config, req: Request, id: string, now: real)
    ensures Terms(c.ttl, req, id, now, NewLease(c, req, id, now))
  {
    HashesInOrder(req.scopeHashes);
  }

  lemma GrantedShape(c: Config, t: Table, req: Request, id: string, now: real, accepts: Sink, p: Pruned, lease: Lease)
    requires Acquire(c, t, req, id, now, accepts).outcome.Ok?
    requires p == Prune(t, now, accepts) && lease == NewLease(c, req, id, now)
    ensures Acquire(c, t, req, id, now, accepts)
            == Effect(Put(p.table, id, lease), p.entries + [Entry(lease, Active)], Ok(lease))
  {
  }

  lemma PutHolds(t: Table, lease: Lease)
    requires Keyed(t)
    ensures (lease.id, lease) in Put(t, lease.id, lease)
    ensures forall x :: x in Put(t, lease.id, lease) && x.0 == lease.id ==> x.1 == lease
  {
    PutMember(t, lease.id, lease);
  }

  /** A granted lease holds what was asked for, and is the one stored and notified. */
  lemma GrantedTerms(c: Config, t: Table, req: Request, id: string, now: real, accepts: Sink)
    requires Keyed(t) && Acquire(c, t, req, id, now, accepts).outcome.Ok?
    ensures var e := Acquire(c, t, req, id, now, accepts);
            && Terms(c.ttl, req, id, now, e.outcome.value)
            && (forall x :: x in e.table && x.0 == id ==> x.1 == e.outcome.value)
            && (id, e.outcome.value) in e.table
            && e.entries != [] && e.entries[|e.entries| - 1] == Entry(e.outcome.value, Active)
  {
    var p, lease := Prune(t, now, accepts), NewLease(c, req, id, now);
    NewLeaseTerms(c, req, id, now);
    GrantedShape(c, t, req, id, now, accepts, p, lease);
    PruneReplay(t, now, accepts);
    PutHolds(p.table, lease);
  }

  ghost predicate Covered(path: string, paths: seq<string>) {
    exists p :: p in paths && (path == p || p + "/" <= path)
  }

  /** Digests are of valid paths inside the scope. */
  ghost predicate HashesInScope(rules: Rules, wide: bool, paths: seq<string>, hashes: seq<(string, string)>) {
    forall i :: 0 <= i < |hashes| ==>
      rules.path(hashes[i].0) && rules.digest(hashes[i].1) && (wide || Covered(hashes[i].0, paths))
  }

  lemma HashesOkExact(rules: Rules, wide: bool, paths: seq<string>, hashes: seq<(string, string)>)
    ensures HashesOk(rules, wide, paths, hashes) <==> HashesInScope(rules, wide, paths, hashes)
  {
    if HashesOk(rules, wide, paths, hashes) {
      forall i | 0 <= i < |hashes|
        ensures rules.path(hashes[i].0) && rules.digest(hashes[i].1) && (wide || Covered(hashes[i].0, paths))
      {
        assert hashes[i] in hashes;
      }
    }
  }

  ghost predicate AllValid(valid: string -> bool, names: seq<string>) {
    && (forall i :: 0 <= i < |names| ==> valid(names[i]))
    && (forall i, j :: 0 <= i < j < |names| ==> names[i] != names[j])
  }

  /** What `acquire` demands of its arguments. */
  ghost predicate Wellformed(rules: Rules, req: Request) {
    && rules.workspace(req.workspace) && rules.identifier(req.owner)
    && rules.identifier(if req.tree.Some? then req.tree.value else "workspace:" + req.workspace)
    && rules.identifier(if req.task.Some? then req.task.value else "legacy:" + req.owner)
    && (req.paths.Some? ==> AllValid(rules.path, req.paths.value)) && AllValid(rules.resource, req.resources)
    && (req.paths.Some? && !req.wide ==> req.paths.value != [] || req.resources != [])
    && rules.revision(req.baseRevision) && rules.stateHash(req.stateHash)
    && HashesInScope(rules, req.paths.None? || req.wide, if req.paths.Some? then req.paths.value else [], req.scopeHashes)
  }

  /** A request is refused as invalid exactly when it misses one of these demands; then nothing happens. */
  lemma InvalidExactly(c: Config, t: Table, req: Request, id: string, now: real, accepts: Sink)
    ensures var e := Acquire(c, t, req, id, now, accepts);
            && (e.outcome == Err(Invalid) <==> !Wellformed(c.rules, req))
            && (e.outcome == Err(Invalid) ==> e.table == t && e.entries == [])
  {
    ValidExactly(c.rules, req);
    RefusalIsBusy(c.fold, Prune(t, now, accepts).table, NewLease(c, req, id, now));
  }

  lemma ValidExactly(rules: Rules, req: Request)
    ensures ValidRequest(rules, req) <==> Wellformed(rules, req)
  {
    var paths := if req.paths.Some? then req.paths.value else [];
    HashesOkExact(rules, req.paths.None? || req.wide, paths, req.scopeHashes);
    assert (forall p :: p in paths ==> rules.path(p)) <==> forall i :: 0 <= i < |paths| ==> rules.path(paths[i]);
    assert (forall r :: r in req.resources ==> rules.resource(r))
           <==> forall i :: 0 <= i < |req.resources| ==> rules.resource(req.resources[i]);
  }

  lemma {:induction false} RefusalIsBusy(f: CaseFold, t: Table, lease: Lease)
    ensures FirstRefusal(f, t, lease) in {None, Some(ResourceBusy), Some(WideBusy), Some(PathsBusy)}
  {
    if t != [] {
      RefusalIsBusy(f, t[1..], lease);
    }
  }

  // ---------------------------------------------------------------- the grant condition

  /** A held lease lets the request pass: no common resource anywhere; in its workspace
      neither is workspace-wide, and in its working tree no two paths overlap. */
  ghost predicate Admits(f: CaseFold, held: Lease, req: Request) {
    && (forall r :: r in held.resources ==> r !in req.resources)
    && (held.workspace == req.workspace ==>
          && !held.wide && !req.wide && req.paths.Some?
          && (held.tree == (if req.tree.Some? then req.tree.value else "workspace:" + req.workspace) ==>
                forall p, q :: p in held.paths && q in req.paths.value ==> !Overlap(f, p, q)))
  }

  lemma AdmitsExactly(c: Config, held: Lease, req: Request, id: string, now: real)
    ensures Disjoint(c.fold, held, NewLease(c, req, id, now)) <==> Admits(c.fold, held, req)
  {
  }

  /** With a callback that does not raise, a well-formed request is granted if and only if every
      unexpired lease lets it pass, and only the new lease is added; otherwise nothing is. */
  lemma GrantedExactly(c: Config, t: Table, req: Request, id: string, now: real, accepts: Sink)
    requires Keyed(t) && Wellformed(c.rules, req) && forall l, ch :: accepts(l, ch)
    ensures var e := Acquire(c, t, req, id, now, accepts);
            && (e.outcome.Ok? <==> forall x :: x in t && x.1.expiresAt > now ==> Admits(c.fold, x.1, req))
            && (e.outcome.Ok? ==> Terms(c.ttl, req, id, now, e.outcome.value))
            && (forall x :: x in e.table <==>
                  if e.outcome.Ok? then x == (id, e.outcome.value) || (x in t && x.1.expiresAt > now && x.0 != id)
                  else x in t && x.1.expiresAt > now)
  {
    ValidExactly(c.rules, req);
    AcquireExact(c, t, req, id, now, accepts);
    forall x | x in t ensures Disjoint(c.fold, x.1, NewLease(c, req, id, now)) <==> Admits(c.fold, x.1, req) {
      AdmitsExactly(c, x.1, req, id, now);
    }
    if Acquire(c, t, req, id, now, accepts).outcome.Ok? {
      GrantedTerms(c, t, req, id, now, accepts);
    }
  }

  /** Why a held lease refuses a request: a resource first, then the workspace, then the paths. */
  ghost predicate RefusesBy(f: CaseFold, held: Lease, req: Request, error: Error) {
    var shared := exists r :: r in held.resources && r in req.resources;
    var near := held.workspace == req.workspace;
    var whole := held.wide || req.wide || req.paths.None?;
    && (error == ResourceBusy <==> shared)
    && (error == WideBusy <==> !shared && near && whole)
    && (error == PathsBusy <==> !shared && near && !whole && !Admits(f, held, req))
  }

  /** The first unexpired lease in the way decides the error. */
  lemma RefusedBecause(c: Config, t: Table, req: Request, id: string, now: real, accepts: Sink)
    requires Wellformed(c.rules, req) && forall l, ch :: accepts(l, ch)
    requires Acquire(c, t, req, id, now, accepts).outcome.Err?
    ensures exists i :: 0 <= i < |t| && t[i].1.expiresAt > now
              && RefusesBy(c.fold, t[i].1, req, Acquire(c, t, req, id, now, accepts).outcome.error)
              && forall j :: 0 <= j < i && t[j].1.expiresAt > now ==> Admits(c.fold, t[j].1, req)
  {
    ValidExactly(c.rules, req);
    PruneExact(t, now, accepts);
    FirstInTheWay(c, t, req, id, now, accepts);
  }

  lemma RefusalReason(c: Config, held: Lease, req: Request, id: string, now: real)
    ensures var r := Refusal(c.fold, held, NewLease(c, req, id, now));
            (r == None <==> Admits(c.fold, held, req)) && (r.Some? ==> RefusesBy(c.fold, held, req, r.value))
  {
  }

  lemma {:induction false} FirstInTheWay(c: Config, t: Table, req: Request, id: string, now: real, accepts: Sink)
    requires forall l, ch :: accepts(l, ch)
    requires FirstRefusal(c.fold, Prune(t, now, accepts).table, NewLease(c, req, id, now)).Some?
    ensures var r := FirstRefusal(c.fold, Prune(t, now, accepts).table, NewLease(c, req, id, now));
            exists i :: 0 <= i < |t| && t[i].1.expiresAt > now && RefusesBy(c.fold, t[i].1, req, r.value)
              && forall j :: 0 <= j < i && t[j].1.expiresAt > now ==> Admits(c.fold, t[j].1, req)
  {
    var lease := NewLease(c, req, id, now);
    if t != [] {
      var rest := Prune(t[1..], now, accepts).table;
      var error := FirstRefusal(c.fold, Prune(t, now, accepts).table, lease);
      RefusalReason(c, t[0].1, req, id, now);
      if t[0].1.expiresAt > now {
        assert Prune(t, now, accepts).table[1..] == rest;
      }
      if t[0].1.expiresAt > now && Refusal(c.fold, t[0].1, lease).Some? {
        assert RefusesBy(c.fold, t[0].1, req, error.value);
      } else {
        FirstInTheWay(c, t[1..], req, id, now, accepts);
        var i :| 0 <= i < |t[1..]| && t[1..][i].1.expiresAt > now && RefusesBy(c.fold, t[1..][i].1, req, error.value)
                 && forall j :: 0 <= j < i && t[1..][j].1.expiresAt > now ==> Admits(c.fold, t[1..][j].1, req);
        assert t[i + 1] == t[1..][i];
        forall j | 0 <= j < i + 1 && t[j].1.expiresAt > now ensures Admits(c.fold, t[j].1, req) {
          if j > 0 {
            assert t[j] == t[1..][j - 1];
          }
        }
      }
    }
  }

  // ---------------------------------------------------------------- how long a grant guards

  /** The call stores no lease under this id. */
  ghost predicate Foreign(call: Call, id: string) {
    && (call.AcquireCall? ==> call.newId != id)
    && (call.RestoreCall? ==> forall l :: l in call.leases ==> l.id != id)
  }

  /** Whatever is held under the id has the scope of the lease. */
  ghost predicate ScopeHeld(t: Table, lease: Lease) {
    forall x :: x in t && x.0 == lease.id ==> SameScope(x.1, lease)
  }

  lemma {:induction false} RestoreForeign(f: CaseFold, t: Table, leases: seq<Lease>, now: real, lease: Lease)
    requires Keyed(t) && ScopeHeld(t, lease) && forall l :: l in leases ==> l.id != lease.id
    ensures Keyed(RestoreAll(f, t, leases, now).0) && ScopeHeld(RestoreAll(f, t, leases, now).0, lease)
  {
    if leases != [] {
      var n := |leases| - 1;
      RestoreForeign(f, t, leases[..n], now, lease);
      PutMember(RestoreAll(f, t, leases[..n], now).0, leases[n].id, leases[n]);
    }
  }

  lemma StoreScope(p: Pruned, next: Lease, accepts: Sink, lease: Lease)
    requires Keyed(p.table) && ScopeHeld(p.table, lease) && (next.id == lease.id ==> SameScope(next, lease))
    ensures ScopeHeld(Store(p, next, accepts).table, lease)
  {
    PutMember(p.table, next.id, next);
  }

  lemma RenewScope(p: Pruned, current: Lease, next: Lease, accepts: Sink, lease: Lease)
    requires Keyed(p.table) && ScopeHeld(p.table, lease) && (current.id, current) in p.table && SameScope(next, current)
    ensures ScopeHeld(Store(p, next, accepts).table, lease)
  {
    StoreScope(p, next, accepts, lease);
  }

  lemma CurrentMember(t: Table, lease: Lease)
    requires Keyed(t) && Current(t, lease).Some?
    ensures (Current(t, lease).value.id, Current(t, lease).value) in t
  {
    CurrentKeyed(t, lease);
    FindMember(t, lease.id, Current(t, lease).value);
  }

  /** No refresh, snapshot or other call changes the scope held under an id. */
  lemma CallKeepsScope(c: Config, h: History, call: Call, lease: Lease)
    requires Keyed(h.table) && ScopeHeld(h.table, lease) && Foreign(call, lease.id)
    ensures ScopeHeld(Apply(c, h, call).table, lease)
  {
    if call.ReleaseCall? || call.SuspendCall? {
      RemoveMember(h.table, call.lease.id);
    } else {
      PruneExact(h.table, call.now, call.accepts);
      PruneReplay(h.table, call.now, call.accepts);
      var p := Prune(h.table, call.now, call.accepts);
      match call
      case AcquireCall(req, id, now, accepts) => StoreScope(p, NewLease(c, req, id, now), accepts, lease);
      case RestoreCall(leases, now, accepts) => RestoreForeign(c.fold, p.table, leases, now, lease);
      case GetCall(_, _, _) =>
      case RefreshCall(l, now, accepts) =>
        if Current(p.table, l).Some? {
          CurrentMember(p.table, l);
          RenewScope(p, Current(p.table, l).value, Renewed(c, Current(p.table, l).value, now), accepts, lease);
        }
      case SnapshotCall(l, snap, now, accepts) =>
        if Current(p.table, l).Some? {
          CurrentMember(p.table, l);
          RenewScope(p, Current(p.table, l).value, Resnapped(Current(p.table, l).value, snap), accepts, lease);
        }
    }
  }

  /** The calls made after an acquire that store nothing under its id. */
  ghost predicate AllForeign(calls: seq<Call>, id: string) {
    forall i :: 0 <= i < |calls| ==> Foreign(calls[i], id)
  }

  lemma RunKeyed(c: Config, calls: seq<Call>)
    ensures Keyed(Run(c, calls).table)
  {
    RunSafe(c, calls);
  }

  lemma RunNext(c: Config, calls: seq<Call>, call: Call, all: seq<Call>)
    requires all == calls + [call]
    ensures Run(c, all) == Apply(c, Run(c, calls), call)
  {
    assert all[..|all| - 1] == calls;
  }

  lemma {:induction false} RunKeepsScope(c: Config, before: seq<Call>, later: seq<Call>, lease: Lease)
    requires ScopeHeld(Run(c, before).table, lease) && AllForeign(later, lease.id)
    ensures ScopeHeld(Run(c, before + later).table, lease)
    decreases |later|
  {
    if later == [] {
      assert before + later == before;
    } else {
      var n := |later| - 1;
      var init := before + later[..n];
      assert before + later == init + [later[n]];
      RunKeepsScope(c, before, later[..n], lease);
      RunKeyed(c, init);
      RunNext(c, init, later[n], before + later);
      CallKeepsScope(c, Run(c, init), later[n], lease);
    }
  }

  /** Two requests for one working tree of one workspace with overlapping paths. */
  ghost predicate Rivals(f: CaseFold, a: Request, b: Request) {
    && a.workspace == b.workspace && a.tree == b.tree && a.paths.Some? && b.paths.Some?
    && exists p, q :: p in a.paths.value && q in b.paths.value && Overlap(f, p, q)
  }

  /** In every run, from the acquire that granted a lease until it is no longer held unexpired, a
      request of the same working tree with an overlapping path is refused, whoever makes it and
      however the lease was refreshed or its snapshot replaced meanwhile. */
  lemma GrantGuardsItsPaths(c: Config, calls: seq<Call>, req: Request, id: string, at: real, sink: Sink, later: seq<Call>,
                            held: Lease, rival: Request, newId: string, now: real, accepts: Sink)
    requires Acquire(c, Run(c, calls).table, req, id, at, sink).outcome.Ok? && AllForeign(later, id)
    requires (id, held) in Run(c, calls + [AcquireCall(req, id, at, sink)] + later).table && held.expiresAt > now
    requires Rivals(c.fold, req, rival)
    ensures Acquire(c, Run(c, calls + [AcquireCall(req, id, at, sink)] + later).table, rival, newId, now, accepts).outcome.Err?
  {
    var first := calls + [AcquireCall(req, id, at, sink)];
    var lease := Acquire(c, Run(c, calls).table, req, id, at, sink).outcome.value;
    RunKeyed(c, calls);
    RunNext(c, calls, AcquireCall(req, id, at, sink), first);
    GrantedTerms(c, Run(c, calls).table, req, id, at, sink);
    RunKeepsScope(c, first, later, lease);
    HeldRefuses(c, Run(c, first + later).table, held, rival, newId, now, accepts);
  }

  lemma HeldRefuses(c: Config, t: Table, held: Lease, rival: Request, newId: string, now: real, accepts: Sink)
    requires (held.id, held) in t && held.expiresAt > now && !Admits(c.fold, held, rival)
    ensures Acquire(c, t, rival, newId, now, accepts).outcome.Err?
  {
    PruneExact(t, now, accepts);
    AdmitsExactly(c, held, rival, newId, now);
    FirstRefusalMeaning(c.fold, Prune(t, now, accepts).table, NewLease(c, rival, newId, now));
  }

  // ---------------------------------------------------------------- snapshots, coverage, lookup

  /** The lease with new snapshot evidence and everything else as it was. */
  ghost predicate Resnap(held: Lease, snap: Snapshot, next: Lease) {
    && next.baseRevision == snap.baseRevision && next.stateHash == snap.stateHash
    && InOrder(next.scopeHashes) && multiset(next.scopeHashes) == multiset(snap.scopeHashes)
    && SameScope(next, held) && next.owner == held.owner && next.task == held.task
    && next.expiresAt == held.expiresAt && next.acquiredAt == held.acquiredAt
  }

  /** A snapshot update stores the given evidence, and changes nothing else of the lease. */
  lemma SnapshotTerms(c: Config, t: Table, lease: Lease, snap: Snapshot, now: real, accepts: Sink)
    requires Keyed(t) && UpdateSnapshot(c, t, lease, snap, now, accepts).outcome.Ok?
    ensures var e := UpdateSnapshot(c, t, lease, snap, now, accepts);
            exists held :: (lease.id, held) in t && Resnap(held, snap, e.outcome.value)
  {
    var p := Prune(t, now, accepts);
    PruneExact(t, now, accepts);
    PruneReplay(t, now, accepts);
    HashesInOrder(snap.scopeHashes);
    CurrentMember(p.table, lease);
    CurrentKeyed(p.table, lease);
    assert Resnap(Current(p.table, lease).value, snap, Resnapped(Current(p.table, lease).value, snap));
  }

  /** A snapshot is invalid exactly when a text is, or a digest is not of a path in the argument's scope. */
  lemma SnapshotInvalidExactly(c: Config, t: Table, lease: Lease, snap: Snapshot, now: real, accepts: Sink)
    ensures UpdateSnapshot(c, t, lease, snap, now, accepts).outcome == Err(Invalid)
            <==> !(c.rules.revision(snap.baseRevision) && c.rules.stateHash(snap.stateHash)
                   && HashesInScope(c.rules, lease.wide, lease.paths, snap.scopeHashes))
  {
    HashesOkExact(c.rules, lease.wide, lease.paths, snap.scopeHashes);
  }

  /** A lease covers a list exactly when it names every resource, and every path is one of its
      paths or lies below one, unless it is workspace-wide; invalid names are refused. */
  lemma CoversExactly(rules: Rules, lease: Lease, paths: seq<string>, resources: seq<string>)
    ensures Covers(rules, lease, paths, resources) == Err(Invalid)
            <==> !((forall p :: p in paths ==> rules.path(p)) && (forall r :: r in resources ==> rules.resource(r)))
    ensures Covers(rules, lease, paths, resources) == Ok(true)
            <==> && (forall p :: p in paths ==> rules.path(p) && (lease.wide || Covered(p, lease.paths)))
                 && (forall r :: r in resources ==> rules.resource(r) && r in lease.resources)
  {
  }

  /** A lookup finds exactly the unexpired lease held under the id. */
  lemma GetExactly(c: Config, t: Table, id: string, now: real, accepts: Sink)
    requires Keyed(t) && forall l, ch :: accepts(l, ch)
    ensures var e := Get(c, t, id, now, accepts);
            && (e.outcome == Err(Invalid) <==> !c.rules.identifier(id))
            && (c.rules.identifier(id) ==>
                  && e.outcome.Ok?
                  && (forall l :: e.outcome.value == Some(l) <==> (id, l) in t && l.expiresAt > now))
  {
    PruneExact(t, now, accepts);
    PruneReplay(t, now, accepts);
    var p := Prune(t, now, accepts);
    forall l ensures Find(p.table, id) == Some(l) <==> (id, l) in p.table {
      FindMember(p.table, id, l);
    }
  }
}

/** Exactly when a lease is granted or restored, and who holds a runtime resource. */
module LeaseGrants {
  import opened Wrappers
  import opened OrderedDict
  import opened LeasePaths
  import opened Leases

  /** Two leases `acquire` lets be held together: as `Compatible`, with
      resources kept apart across all workspaces. */
  ghost predicate Disjoint(f: CaseFold, a: Lease, b: Lease) {
    Compatible(f, a, b) && !Shares(a.resources, b.resources)
  }

  /** With a callback that does not raise, a request is granted if and only if it is
      valid and disjoint from every unexpired lease; the table then holds exactly the
      unexpired leases and the new one, else exactly the unexpired leases. */
  lemma AcquireExact(c: Config, t: Table, req: Request, id: string, now: real, accepts: Sink)
    requires Keyed(t) && forall l, ch :: accepts(l, ch)
    requires ValidRequest(c.rules, req)
    ensures var e := Acquire(c, t, req, id, now, accepts);
            var lease := NewLease(c, req, id, now);
            && (e.outcome.Ok? <==> forall x :: x in t && x.1.expiresAt > now ==> Disjoint(c.fold, x.1, lease))
            && (e.outcome.Ok? ==> e.outcome.value == lease)
            && (forall x :: x in e.table <==>
                  if e.outcome.Ok? then x == (id, lease) || (x in t && x.1.expiresAt > now && x.0 != id)
                  else x in t && x.1.expiresAt > now)
  {
    PruneExact(t, now, accepts);
    PruneReplay(t, now, accepts);
    var p := Prune(t, now, accepts);
    var lease := NewLease(c, req, id, now);
    FirstRefusalMeaning(c.fold, p.table, lease);
    PutMember(p.table, id, lease);
    forall x | x in p.table
      ensures Refusal(c.fold, x.1, lease).None? <==> Disjoint(c.fold, x.1, lease)
    {
    }
  }

  /** The argument names an unexpired held lease by id and owner. */
  ghost predicate Live(t: Table, lease: Lease, now: real) {
    exists x :: x in t && x.0 == lease.id && x.1.owner == lease.owner && x.1.expiresAt > now
  }

  lemma LiveIsCurrent(t: Table, lease: Lease, now: real, accepts: Sink)
    requires Keyed(t) && forall l, ch :: accepts(l, ch)
    ensures var p := Prune(t, now, accepts);
            && !p.raised && Keyed(p.table)
            && (forall x :: x in p.table <==> x in t && x.1.expiresAt > now)
            && (Live(t, lease, now) <==> Current(p.table, lease).Some?)
            && (Current(p.table, lease).Some? ==> (lease.id, Current(p.table, lease).value) in p.table)
  {
    PruneExact(t, now, accepts);
    PruneReplay(t, now, accepts);
    var p := Prune(t, now, accepts);
    forall x | x in p.table && x.0 == lease.id ensures Find(p.table, lease.id) == Some(x.1) {
      FindMember(p.table, lease.id, x.1);
    }
    if Find(p.table, lease.id).Some? {
      FindMember(p.table, lease.id, Find(p.table, lease.id).value);
    }
  }

  lemma StoredExact(t: Table, p: Table, now: real, next: Lease)
    requires Keyed(p) && forall x :: x in p <==> x in t && x.1.expiresAt > now
    ensures forall x :: x in Put(p, next.id, next) <==>
              if x.0 == next.id then x.1 == next else x in t && x.1.expiresAt > now
  {
    PutMember(p, next.id, next);
  }

  /** With a callback that does not raise, a refresh succeeds if and only if the argument names an
      unexpired held lease, so it never revives one; only that lease's deadline changes. */
  lemma RefreshExact(c: Config, t: Table, lease: Lease, now: real, accepts: Sink)
    requires Keyed(t) && forall l, ch :: accepts(l, ch)
    ensures var e := Refresh(c, t, lease, now, accepts);
            && (e.outcome.Ok? <==> Live(t, lease, now))
            && (e.outcome.Ok? ==> e.outcome.value.expiresAt == now + c.ttl
                                  && exists held :: (lease.id, held) in t && held.owner == lease.owner
                                       && e.outcome.value == held.(expiresAt := e.outcome.value.expiresAt))
            && (forall x :: x in e.table <==>
                  if e.outcome.Ok? && x.0 == lease.id then x.1 == e.outcome.value else x in t && x.1.expiresAt > now)
  {
    LiveIsCurrent(t, lease, now, accepts);
    var p := Prune(t, now, accepts);
    var current := Current(p.table, lease);
    if current.Some? {
      CurrentKeyed(p.table, lease);
      StoredExact(t, p.table, now, Renewed(c, current.value, now));
    }
  }

  /** Likewise for new snapshot evidence, which leaves the deadline as it was. */
  lemma SnapshotExact(c: Config, t: Table, lease: Lease, snap: Snapshot, now: real, accepts: Sink)
    requires Keyed(t) && ValidSnapshot(c.rules, lease, snap) && forall l, ch :: accepts(l, ch)
    ensures var e := UpdateSnapshot(c, t, lease, snap, now, accepts);
            && (e.outcome.Ok? <==> Live(t, lease, now))
            && (e.outcome.Ok? ==> exists held :: (lease.id, held) in t && held.expiresAt == e.outcome.value.expiresAt > now
                                    && SameScope(e.outcome.value, held) && e.outcome.value.owner == held.owner == lease.owner)
            && (forall x :: x in e.table <==>
                  if e.outcome.Ok? && x.0 == lease.id then x.1 == e.outcome.value else x in t && x.1.expiresAt > now)
  {
    LiveIsCurrent(t, lease, now, accepts);
    var p := Prune(t, now, accepts);
    var current := Current(p.table, lease);
    if current.Some? {
      CurrentKeyed(p.table, lease);
      StoredExact(t, p.table, now, Resnapped(current.value, snap));
    }
  }

  /** Releasing or suspending takes exactly the owner's lease out of the table, expired or not,
      and nothing when the notification raises. */
  lemma DropExact(t: Table, lease: Lease, change: Change, accepts: Sink)
    requires Keyed(t)
    ensures var e := Drop(t, lease, change, accepts);
            && (e.outcome.Ok? ==> (lease.id, e.outcome.value) in t && e.outcome.value.owner == lease.owner
                                  && e.entries == [Entry(e.outcome.value, change)])
            && (e.outcome == Err(NotCurrent) <==> forall x :: x in t && x.0 == lease.id ==> x.1.owner != lease.owner)
            && (forall x :: x in e.table <==> x in t && (e.outcome.Ok? ==> x.0 != lease.id))
  {
    RemoveMember(t, lease.id);
    forall x | x in t && x.0 == lease.id ensures Find(t, lease.id) == Some(x.1) {
      FindMember(t, lease.id, x.1);
    }
    if Find(t, lease.id).Some? {
      FindMember(t, lease.id, Find(t, lease.id).value);
    }
  }

  /** A restored lease was unexpired and clear of its workspace when it was stored;
      one left out was expired or met a held lease of its workspace. */
  lemma {:induction false} RestoreExact(f: CaseFold, t: Table, leases: seq<Lease>, now: real, k: nat)
    requires Safe(f, t) && k < |leases|
    ensures var before := RestoreAll(f, t, leases[..k], now).0;
            var after := RestoreAll(f, t, leases[..k + 1], now).0;
            var free := leases[k].expiresAt > now
                        && forall x :: x in before ==> !RestoreRefused(f, x.1, leases[k]);
            && (free ==> (leases[k].id, leases[k]) in after
                         && forall x: (string, Lease) :: x.0 != leases[k].id ==> (x in after <==> x in before))
            && (!free ==> after == before)
  {
    var before := RestoreAll(f, t, leases[..k], now).0;
    RestoreAllSafe(f, t, leases[..k], now);
    assert leases[..k + 1][..k] == leases[..k];
    PutMember(before, leases[k].id, leases[k]);
  }

  /** The call presents the id and owner of `lease`, or stores a lease under its id. */
  ghost predicate Entitled(call: Call, lease: Lease) {
    match call
    case AcquireCall(_, id, _, _) => id == lease.id
    case RefreshCall(l, _, _) => l.id == lease.id && l.owner == lease.owner
    case SnapshotCall(l, _, _, _) => l.id == lease.id && l.owner == lease.owner
    case ReleaseCall(l, _) => l.id == lease.id && l.owner == lease.owner
    case SuspendCall(l, _) => l.id == lease.id && l.owner == lease.owner
    case RestoreCall(leases, _, _) => exists l :: l in leases && l.id == lease.id
    case GetCall(_, _, _) => false
  }

  lemma {:induction false} RestoreOthers(f: CaseFold, t: Table, leases: seq<Lease>, now: real, x: (string, Lease))
    requires Keyed(t) && x in t && forall l :: l in leases ==> l.id != x.0
    ensures Keyed(RestoreAll(f, t, leases, now).0) && x in RestoreAll(f, t, leases, now).0
  {
    if leases != [] {
      var n := |leases| - 1;
      RestoreOthers(f, t, leases[..n], now, x);
      PutMember(RestoreAll(f, t, leases[..n], now).0, leases[n].id, leases[n]);
    }
  }

  lemma StoreOthers(p: Pruned, lease: Lease, accepts: Sink, x: (string, Lease))
    requires Keyed(p.table) && x in p.table && lease.id != x.0
    ensures x in Store(p, lease, accepts).table
  {
    PutMember(p.table, lease.id, lease);
  }

  lemma CurrentOther(t: Table, lease: Lease, x: (string, Lease))
    requires Keyed(t) && x in t && Current(t, lease).Some?
    requires !(lease.id == x.1.id && lease.owner == x.1.owner)
    ensures Current(t, lease).value.id == lease.id != x.0
  {
    CurrentKeyed(t, lease);
    FindMember(t, lease.id, x.1);
  }

  /** A held lease outlives every call made before it expires, unless the call is
      entitled to it: nobody else can refresh, change, release or suspend it. */
  lemma HeldAgainstOthers(c: Config, h: History, call: Call, x: (string, Lease))
    requires Keyed(h.table) && x in h.table && !Entitled(call, x.1)
    requires !call.ReleaseCall? && !call.SuspendCall? ==> x.1.expiresAt > call.now
    ensures x in Apply(c, h, call).table
  {
    if call.ReleaseCall? || call.SuspendCall? {
      RemoveMember(h.table, call.lease.id);
      if Current(h.table, call.lease).Some? {
        CurrentOther(h.table, call.lease, x);
      }
    } else {
      PruneExact(h.table, call.now, call.accepts);
      PruneReplay(h.table, call.now, call.accepts);
      var p := Prune(h.table, call.now, call.accepts);
      match call
      case AcquireCall(req, id, now, accepts) => StoreOthers(p, NewLease(c, req, id, now), accepts, x);
      case RestoreCall(leases, now, accepts) => RestoreOthers(c.fold, p.table, leases, now, x);
      case GetCall(_, _, _) =>
      case RefreshCall(lease, now, accepts) =>
        if Current(p.table, lease).Some? {
          CurrentOther(p.table, lease, x);
          StoreOthers(p, Renewed(c, Current(p.table, lease).value, now), accepts, x);
        }
      case SnapshotCall(lease, snap, now, accepts) =>
        if Current(p.table, lease).Some? {
          CurrentOther(p.table, lease, x);
          StoreOthers(p, Resnapped(Current(p.table, lease).value, snap), accepts, x);
        }
    }
  }

  // ---------------------------------------------------------------- resources

  /** In every run a runtime resource has at most one holder per workspace. */
  lemma ResourceHeldOncePerWorkspace(c: Config, calls: seq<Call>, a: Lease, b: Lease, r: string)
    requires var t := Run(c, calls).table; Find(t, a.id) == Some(a) && Find(t, b.id) == Some(b)
    requires a.workspace == b.workspace && r in a.resources && r in b.resources
    ensures a == b
  {
    RunSafe(c, calls);
    var t := Run(c, calls).table;
    FindMember(t, a.id, a);
    FindMember(t, b.id, b);
    assert Shares(a.resources, b.resources);
  }

  /** No resource is held by two leases, of whatever workspaces. */
  ghost predicate Exclusive(t: Table) {
    forall x, y :: x in t && y in t && x.0 != y.0 ==> !Shares(x.1.resources, y.1.resources)
  }

  /** The check `restore` omits: no lease of another workspace holds one of these resources. */
  ghost predicate ClearElsewhere(t: Table, lease: Lease) {
    forall x :: x in t && x.0 != lease.id && x.1.workspace != lease.workspace ==>
      !Shares(x.1.resources, lease.resources)
  }

  lemma PutExclusiveIff(f: CaseFold, t: Table, lease: Lease, now: real)
    requires Safe(f, t) && Exclusive(t) && Accepted(f, t, lease, now)
    ensures Exclusive(Put(t, lease.id, lease)) <==> ClearElsewhere(t, lease)
  {
    PutMember(t, lease.id, lease);
    var r := Put(t, lease.id, lease);
    if Exclusive(r) {
      forall x | x in t && x.0 != lease.id ensures !Shares(x.1.resources, lease.resources) {
        assert x in r && (lease.id, lease) in r;
      }
    }
  }

  /** Every stored restoration found its resources free in the other workspaces. */
  ghost predicate ClearRestore(f: CaseFold, t: Table, leases: seq<Lease>, now: real) {
    forall k :: 0 <= k < |leases| ==>
      var before := RestoreAll(f, t, leases[..k], now).0;
      Accepted(f, before, leases[k], now) ==> ClearElsewhere(before, leases[k])
  }

  /** The table was exclusive at every point inside a restore. */
  ghost predicate ExclusiveInside(f: CaseFold, t: Table, leases: seq<Lease>, now: real) {
    forall k :: 0 <= k <= |leases| ==> Exclusive(RestoreAll(f, t, leases[..k], now).0)
  }

  /** Storing lease `k` of a restore keeps the table exclusive exactly when it is clear elsewhere. */
  lemma RestoreTurnExclusive(f: CaseFold, t: Table, leases: seq<Lease>, now: real, k: nat)
    requires Safe(f, t) && k < |leases|
    requires Exclusive(RestoreAll(f, t, leases[..k], now).0)
    ensures var before := RestoreAll(f, t, leases[..k], now).0;
            Exclusive(RestoreAll(f, t, leases[..k + 1], now).0)
            <==> (Accepted(f, before, leases[k], now) ==> ClearElsewhere(before, leases[k]))
  {
    var before := RestoreAll(f, t, leases[..k], now).0;
    RestoreAllSafe(f, t, leases[..k], now);
    assert leases[..k + 1][..k] == leases[..k];
    if Accepted(f, before, leases[k], now) {
      PutExclusiveIff(f, before, leases[k], now);
    }
  }

  lemma {:induction false} ClearRestoreExclusive(f: CaseFold, t: Table, leases: seq<Lease>, now: real, k: nat)
    requires Safe(f, t) && Exclusive(t) && ClearRestore(f, t, leases, now) && k <= |leases|
    ensures Exclusive(RestoreAll(f, t, leases[..k], now).0)
  {
    if k > 0 {
      ClearRestoreExclusive(f, t, leases, now, k - 1);
      RestoreTurnExclusive(f, t, leases, now, k - 1);
    }
  }

  /** A restore keeps resources exclusive at every point if and only if each lease it
      stores is clear of the leases held in other workspaces. */
  lemma RestoreExclusiveIff(f: CaseFold, t: Table, leases: seq<Lease>, now: real)
    requires Safe(f, t) && Exclusive(t)
    ensures ExclusiveInside(f, t, leases, now) <==> ClearRestore(f, t, leases, now)
  {
    if ClearRestore(f, t, leases, now) {
      forall k | 0 <= k <= |leases| ensures Exclusive(RestoreAll(f, t, leases[..k], now).0) {
        ClearRestoreExclusive(f, t, leases, now, k);
      }
    }
    if ExclusiveInside(f, t, leases, now) {
      forall k | 0 <= k < |leases|
        ensures var before := RestoreAll(f, t, leases[..k], now).0;
                Accepted(f, before, leases[k], now) ==> ClearElsewhere(before, leases[k])
      {
        RestoreTurnExclusive(f, t, leases, now, k);
      }
    }
  }

  /** The restore of this call, if it is one that ran, stores only leases clear elsewhere. */
  ghost predicate ClearCall(c: Config, t: Table, call: Call) {
    call.RestoreCall? ==>
      var p := Prune(t, call.now, call.accepts);
      p.raised || ClearRestore(c.fold, p.table, call.leases, call.now)
  }

  /** Every point of the call, inside a restore too, leaves resources exclusive. */
  ghost predicate ExclusiveCall(c: Config, h: History, call: Call) {
    && Exclusive(Apply(c, h, call).table)
    && (call.RestoreCall? ==>
          var p := Prune(h.table, call.now, call.accepts);
          p.raised || ExclusiveInside(c.fold, p.table, call.leases, call.now))
  }

  lemma PruneExclusive(t: Table, now: real, accepts: Sink)
    requires Exclusive(t)
    ensures Exclusive(Prune(t, now, accepts).table)
  {
    PruneExact(t, now, accepts);
  }

  lemma StoreExclusive(t: Table, lease: Lease)
    requires Keyed(t) && Exclusive(t)
    requires forall x :: x in t && x.0 != lease.id ==> !Shares(x.1.resources, lease.resources)
    ensures Exclusive(Put(t, lease.id, lease))
  {
    PutMember(t, lease.id, lease);
  }

  lemma RenewExclusive(t: Table, lease: Lease, next: Lease)
    requires Keyed(t) && Exclusive(t) && Current(t, lease).Some?
    requires SameScope(next, Current(t, lease).value)
    ensures Exclusive(Put(t, next.id, next))
  {
    CurrentKeyed(t, lease);
    FindMember(t, lease.id, Current(t, lease).value);
    StoreExclusive(t, next);
  }

  lemma SweptExclusive(c: Config, t: Table, now: real, accepts: Sink)
    requires Safe(c.fold, t) && Exclusive(t)
    ensures var p := Prune(t, now, accepts); Keyed(p.table) && Exclusive(p.table)
  {
    PruneExclusive(t, now, accepts);
    PruneReplay(t, now, accepts);
  }

  lemma AcquireExclusive(c: Config, t: Table, req: Request, id: string, now: real, accepts: Sink)
    requires Safe(c.fold, t) && Exclusive(t)
    ensures Exclusive(Acquire(c, t, req, id, now, accepts).table)
  {
    SweptExclusive(c, t, now, accepts);
    var p := Prune(t, now, accepts);
    var lease := NewLease(c, req, id, now);
    FirstRefusalMeaning(c.fold, p.table, lease);
    if FirstRefusal(c.fold, p.table, lease).None? {
      StoreExclusive(p.table, lease);
    }
  }

  lemma RefreshExclusive(c: Config, t: Table, lease: Lease, now: real, accepts: Sink)
    requires Safe(c.fold, t) && Exclusive(t)
    ensures Exclusive(Refresh(c, t, lease, now, accepts).table)
  {
    SweptExclusive(c, t, now, accepts);
    var p := Prune(t, now, accepts);
    var current := Current(p.table, lease);
    if current.Some? {
      RenewExclusive(p.table, lease, Renewed(c, current.value, now));
    }
  }

  lemma SnapshotExclusive(c: Config, t: Table, lease: Lease, snap: Snapshot, now: real, accepts: Sink)
    requires Safe(c.fold, t) && Exclusive(t)
    ensures Exclusive(UpdateSnapshot(c, t, lease, snap, now, accepts).table)
  {
    SweptExclusive(c, t, now, accepts);
    var p := Prune(t, now, accepts);
    var current := Current(p.table, lease);
    if current.Some? {
      RenewExclusive(p.table, lease, Resnapped(current.value, snap));
    }
  }

  /** A restore that starts from an exclusive table stays exclusive, at its end as inside, iff clear. */
  lemma RestoredExclusiveIff(f: CaseFold, t: Table, leases: seq<Lease>, now: real, after: Table)
    requires Safe(f, t) && Exclusive(t) && after == RestoreAll(f, t, leases, now).0
    ensures Exclusive(after) && ExclusiveInside(f, t, leases, now) <==> ClearRestore(f, t, leases, now)
  {
    RestoreExclusiveIff(f, t, leases, now);
    assert leases[..|leases|] == leases;
  }

  lemma RestoreCallExclusiveIff(c: Config, h: History, call: Call)
    requires Safe(c.fold, h.table) && Exclusive(h.table) && call.RestoreCall?
    ensures ExclusiveCall(c, h, call) <==> ClearCall(c, h.table, call)
  {
    var p := Prune(h.table, call.now, call.accepts);
    SweptExclusive(c, h.table, call.now, call.accepts);
    if !p.raised {
      PruneSafe(c.fold, h.table, call.now, call.accepts);
      RestoredExclusiveIff(c.fold, p.table, call.leases, call.now, RestoreAll(c.fold, p.table, call.leases, call.now).0);
    }
  }

  lemma DropExclusive(t: Table, lease: Lease, change: Change, accepts: Sink)
    requires Keyed(t) && Exclusive(t)
    ensures Exclusive(Drop(t, lease, change, accepts).table)
  {
    RemoveMember(t, lease.id);
  }

  /** No call but a restore can give a resource a second holder. */
  lemma OtherCallExclusive(c: Config, h: History, call: Call, next: Table)
    requires Safe(c.fold, h.table) && Exclusive(h.table) && !call.RestoreCall? && next == Apply(c, h, call).table
    ensures Exclusive(next)
  {
    var t := h.table;
    match call
    case AcquireCall(req, id, now, accepts) => AcquireExclusive(c, t, req, id, now, accepts);
    case RefreshCall(lease, now, accepts) => RefreshExclusive(c, t, lease, now, accepts);
    case SnapshotCall(lease, snap, now, accepts) => SnapshotExclusive(c, t, lease, snap, now, accepts);
    case ReleaseCall(lease, accepts) => DropExclusive(t, lease, Released, accepts);
    case SuspendCall(lease, accepts) => DropExclusive(t, lease, Stale, accepts);
    case GetCall(id, now, accepts) => SweptExclusive(c, t, now, accepts);
  }

  /** One call keeps resources exclusive at all its points if and only if any restore
      it makes stores only leases clear elsewhere. */
  lemma CallExclusiveIff(c: Config, h: History, call: Call)
    requires Safe(c.fold, h.table) && Exclusive(h.table)
    ensures ExclusiveCall(c, h, call) <==> ClearCall(c, h.table, call)
  {
    if call.RestoreCall? {
      RestoreCallExclusiveIff(c, h, call);
    } else {
      OtherCallExclusive(c, h, call, Apply(c, h, call).table);
    }
  }

  ghost predicate ExclusiveRun(c: Config, calls: seq<Call>) {
    calls == [] ||
    var n := |calls| - 1;
    ExclusiveRun(c, calls[..n]) && ExclusiveCall(c, Run(c, calls[..n]), calls[n])
  }

  ghost predicate ClearRun(c: Config, calls: seq<Call>) {
    calls == [] ||
    var n := |calls| - 1;
    ClearRun(c, calls[..n]) && ClearCall(c, Run(c, calls[..n]).table, calls[n])
  }

  /** Over a whole run, a resource never has two holders anywhere, at any point,
      if and only if every restore stored only leases clear of other workspaces. */
  lemma {:induction false} RunExclusiveIff(c: Config, calls: seq<Call>)
    ensures ExclusiveRun(c, calls) <==> ClearRun(c, calls)
    ensures ExclusiveRun(c, calls) ==> Exclusive(Run(c, calls).table)
  {
    if calls != [] {
      var n := |calls| - 1;
      RunExclusiveIff(c, calls[..n]);
      if ExclusiveRun(c, calls[..n]) {
        RunSafe(c, calls[..n]);
        CallExclusiveIff(c, Run(c, calls[..n]), calls[n]);
      }
    }
  }

  lemma RestoredOne(c: Config, t: Table, lease: Lease, now: real, accepts: Sink)
    requires Prune(t, now, accepts).table == t && !Prune(t, now, accepts).raised && Accepted(c.fold, t, lease, now)
    ensures Restore(c, t, [lease], now, accepts).outcome.Ok?
    ensures Restore(c, t, [lease], now, accepts).table == Put(t, lease.id, lease)
  {
    assert [lease][..|[lease]| - 1] == [];
    assert RestoreAll(c.fold, t, [lease], now).0 == Put(t, lease.id, lease);
  }

  /** The condition is needed: from any single held lease with a resource, restoring a
      lease of another workspace gives that resource two holders. */
  lemma RestoreCanShareResource(c: Config, h: History, lease: Lease, now: real, accepts: Sink)
    requires h.table == [(lease.id, lease)] && lease.resources != [] && lease.expiresAt > now
    ensures exists other: Lease :: other.workspace != lease.workspace &&
                            !Exclusive(Apply(c, h, RestoreCall([other], now, accepts)).table)
  {
    var other := lease.(workspace := lease.workspace + "'", id := lease.id + "'");
    assert |other.workspace| != |lease.workspace| && |other.id| != |lease.id|;
    var t := h.table;
    assert t[1..] == [] && Prune(t, now, accepts).table == t;
    var after := Apply(c, h, RestoreCall([other], now, accepts)).table;
    assert Accepted(c.fold, t, other, now);
    RestoredOne(c, t, other, now, accepts);
    PutMember(t, other.id, other);
    assert t[0] in t && t[0] in after && (other.id, other) in after;
    assert lease.resources[0] in other.resources;
  }

  /** ... and such a history is reached by one call of `acquire`. */
  lemma AcquireReaches(c: Config, req: Request, id: string, now: real, accepts: Sink)
    requires ValidRequest(c.rules, req) && accepts(NewLease(c, req, id, now), Active)
    ensures Run(c, [AcquireCall(req, id, now, accepts)]).table == [(id, NewLease(c, req, id, now))]
  {
    var calls := [AcquireCall(req, id, now, accepts)];
    assert calls[..0] == [] && Run(c, []).table == [];
  }
}

/** `WriterLeaseManager`: the in-memory guard that updates the lease table in place,
    writing every change to the journal before it touches the table. */
module LeaseManager {
  import opened Wrappers
  import opened OrderedDict
  import opened LeasePaths
  import opened Leases
  import LeaseTerms

  class WriterLeaseManager {
    const config: Config
    var leases: Table
    ghost var base: Table
    ghost var journal: seq<Entry>

    ghost function State(): History
      reads this
    {
      History(leases, base, journal)
    }

    /** Each lease is stored once, under its own id. */
    ghost predicate Valid()
      reads this
    {
      Keyed(leases)
    }

    constructor (config: Config)
      requires 1.0 <= config.ttl <= 86400.0
      ensures Valid() && this.config == config && State() == History([], [], [])
    {
      this.config := config;
      leases, base, journal := [], [], [];
    }

    /** Sweep the expired leases, notifying each before it is dropped. */
    method Sweep(now: real, accepts: Sink) returns (raised: bool)
      requires Valid()
      modifies this`leases, this`journal
      ensures Valid()
      ensures var p := Prune(old(leases), now, accepts);
              leases == p.table && journal == old(journal) + p.entries && raised == p.raised
    {
      var expired := ExpiredIds(leases, now);
      ghost var done: seq<Entry> := [];
      var k := 0;
      while k < |expired|
        invariant k <= |expired| && expired[k..] == ExpiredIds(leases, now)
        invariant Keyed(leases)
        invariant journal == old(journal) + done
        invariant var all := Prune(old(leases), now, accepts);
                  var rest := Prune(leases, now, accepts);
                  all == Pruned(rest.table, done + rest.entries, rest.raised)
      {
        PruneTurn(leases, now, accepts);
        var lease := Find(leases, expired[k]);
        if !accepts(lease.value, Expired) {
          return true;
        }
        ghost var later := Prune(Remove(leases, expired[k]), now, accepts).entries;
        ghost var entry := [Entry(lease.value, Expired)];
        assert done + (entry + later) == (done + entry) + later;
        journal := journal + [Entry(lease.value, Expired)];
        done := done + entry;
        RemoveMember(leases, expired[k]);
        leases := Remove(leases, expired[k]);
        k := k + 1;
      }
      PruneTurn(leases, now, accepts);
      return false;
    }

    /** Notify "active", then write the table. */
    method Write(lease: Lease, accepts: Sink) returns (r: Result<Lease, Error>)
      requires Valid()
      modifies this`leases, this`journal
      ensures Valid()
      ensures var e := Store(Pruned(old(leases), [], false), lease, accepts);
              leases == e.table && r == e.outcome && journal == old(journal) + e.entries
    {
      if !accepts(lease, Active) {
        return Err(NotifyRaised);
      }
      journal := journal + [Entry(lease, Active)];
      PutMember(leases, lease.id, lease);
      leases := Put(leases, lease.id, lease);
      return Ok(lease);
    }

    /** The first held lease, in table order, that refuses the new one decides the error. */
    method Conflict(lease: Lease) returns (conflict: Option<Error>)
      ensures conflict == FirstRefusal(config.fold, leases, lease)
      ensures conflict.None? <==> forall x :: x in leases ==> Refusal(config.fold, x.1, lease).None?
    {
      FirstRefusalMeaning(config.fold, leases, lease);
      var i := 0;
      while i < |leases|
        invariant i <= |leases|
        invariant FirstRefusal(config.fold, leases, lease) == FirstRefusal(config.fold, leases[i..], lease)
      {
        var current := leases[i].1;
        if Shares(current.resources, lease.resources) {
          return Some(ResourceBusy);
        }
        if current.workspace == lease.workspace {
          if current.wide || lease.wide {
            return Some(WideBusy);
          }
          if current.tree == lease.tree && AnyOverlap(config.fold, current.paths, lease.paths) {
            return Some(PathsBusy);
          }
        }
        i := i + 1;
      }
      return None;
    }

    method Acquire(req: Request, id: string, now: real, accepts: Sink) returns (r: Result<Lease, Error>)
      requires Valid()
      modifies this`leases, this`journal
      ensures Valid()
      ensures var e := Leases.Acquire(config, old(leases), req, id, now, accepts);
              State() == Logged(old(State()), e) && r == e.outcome
      ensures r.Ok? ==> LeaseTerms.Terms(config.ttl, req, id, now, r.value)
    {
      ghost var e := Leases.Acquire(config, leases, req, id, now, accepts);
      if !ValidRequest(config.rules, req) {
        return Err(Invalid);
      }
      var raised := Sweep(now, accepts);
      if raised {
        return Err(NotifyRaised);
      }
      var lease := NewLease(config, req, id, now);
      LeaseTerms.NewLeaseTerms(config, req, id, now);
      var conflict := Conflict(lease);
      if conflict.Some? {
        return Err(conflict.value);
      }
      assert e == Store(Prune(old(leases), now, accepts), lease, accepts);
      r := Write(lease, accepts);
    }

    method Refresh(lease: Lease, now: real, accepts: Sink) returns (r: Result<Lease, Error>)
      requires Valid()
      modifies this`leases, this`journal
      ensures Valid()
      ensures var e := Leases.Refresh(config, old(leases), lease, now, accepts);
              State() == Logged(old(State()), e) && r == e.outcome
    {
      ghost var e := Leases.Refresh(config, leases, lease, now, accepts);
      var raised := Sweep(now, accepts);
      if raised {
        return Err(NotifyRaised);
      }
      var current := Find(leases, lease.id);
      if current.None? || current.value.owner != lease.owner {
        return Err(NotCurrent);
      }
      var refreshed := Renewed(config, current.value, now);
      assert e == Store(Prune(old(leases), now, accepts), refreshed, accepts);
      r := Write(refreshed, accepts);
    }

    method UpdateSnapshot(lease: Lease, snap: Snapshot, now: real, accepts: Sink) returns (r: Result<Lease, Error>)
      requires Valid()
      modifies this`leases, this`journal
      ensures Valid()
      ensures var e := Leases.UpdateSnapshot(config, old(leases), lease, snap, now, accepts);
              State() == Logged(old(State()), e) && r == e.outcome
    {
      ghost var e := Leases.UpdateSnapshot(config, leases, lease, snap, now, accepts);
      if !ValidSnapshot(config.rules, lease, snap) {
        return Err(Invalid);
      }
      var raised := Sweep(now, accepts);
      if raised {
        return Err(NotifyRaised);
      }
      var current := Find(leases, lease.id);
      if current.None? || current.value.owner != lease.owner {
        return Err(NotCurrent);
      }
      var updated := Resnapped(current.value, snap);
      assert e == Store(Prune(old(leases), now, accepts), updated, accepts);
      r := Write(updated, accepts);
    }

    /** Drop one held lease: "released" for `release`, "stale" for `suspend`. */
    method Discard(lease: Lease, change: Change, accepts: Sink) returns (r: Result<Lease, Error>)
      requires Valid()
      modifies this`leases, this`journal
      ensures Valid()
      ensures var e := Drop(old(leases), lease, change, accepts);
              State() == Logged(old(State()), e) && r == e.outcome
    {
      var current := Find(leases, lease.id);
      if current.None? || current.value.owner != lease.owner {
        return Err(NotCurrent);
      }
      if !accepts(current.value, change) {
        return Err(NotifyRaised);
      }
      journal := journal + [Entry(current.value, change)];
      RemoveMember(leases, lease.id);
      leases := Remove(leases, lease.id);
      return Ok(current.value);
    }

    method Release(lease: Lease, accepts: Sink) returns (r: Result<Lease, Error>)
      requires Valid()
      modifies this`leases, this`journal
      ensures Valid()
      ensures var e := Drop(old(leases), lease, Released, accepts);
              State() == Logged(old(State()), e) && r == e.outcome
    {
      r := Discard(lease, Released, accepts);
    }

    method Suspend(lease: Lease, accepts: Sink) returns (r: Result<Lease, Error>)
      requires Valid()
      modifies this`leases, this`journal
      ensures Valid()
      ensures var e := Drop(old(leases), lease, Stale, accepts);
              State() == Logged(old(State()), e) && r == e.outcome
    {
      r := Discard(lease, Stale, accepts);
    }

    /** Whether some held lease refuses the restoration of `lease`. */
    method Blocked(lease: Lease) returns (conflict: bool)
      ensures conflict <==> exists x :: x in leases && RestoreRefused(config.fold, x.1, lease)
    {
      var i := 0;
      while i < |leases|
        invariant i <= |leases|
        invariant forall j :: 0 <= j < i ==> !RestoreRefused(config.fold, leases[j].1, lease)
      {
        var active := leases[i].1;
        if active.workspace == lease.workspace {
          if active.wide || lease.wide || AnyOverlap(config.fold, active.paths, lease.paths)
             || Shares(active.resources, lease.resources)
          {
            assert leases[i] in leases;
            return true;
          }
        }
        i := i + 1;
      }
      return false;
    }

    method Restore(incoming: seq<Lease>, now: real, accepts: Sink) returns (r: Result<seq<Lease>, Error>)
      requires Valid()
      modifies this
      ensures Valid()
      ensures State() == Apply(config, old(State()), RestoreCall(incoming, now, accepts))
      ensures r == Leases.Restore(config, old(leases), incoming, now, accepts).outcome
    {
      var raised := Sweep(now, accepts);
      if raised {
        return Err(NotifyRaised);
      }
      ghost var swept := leases;
      var restored := [];
      var i := 0;
      while i < |incoming|
        invariant i <= |incoming|
        invariant Keyed(leases)
        invariant (leases, restored) == RestoreAll(config.fold, swept, incoming[..i], now)
      {
        var lease := incoming[i];
        assert incoming[..i + 1][..i] == incoming[..i];
        if lease.expiresAt > now {
          var conflict := Blocked(lease);
          if !conflict {
            PutMember(leases, lease.id, lease);
            leases := Put(leases, lease.id, lease);
            restored := restored + [lease];
          }
        }
        i := i + 1;
      }
      assert incoming[..i] == incoming;
      base, journal := leases, [];
      return Ok(restored);
    }

    method Get(id: string, now: real, accepts: Sink) returns (r: Result<Option<Lease>, Error>)
      requires Valid()
      modifies this`leases, this`journal
      ensures Valid()
      ensures var e := Leases.Get(config, old(leases), id, now, accepts);
              State() == Logged(old(State()), e) && r == e.outcome
    {
      if !config.rules.identifier(id) {
        return Err(Invalid);
      }
      var raised := Sweep(now, accepts);
      if raised {
        return Err(NotifyRaised);
      }
      return Ok(Find(leases, id));
    }
  }
}

/** `CapabilityPreflightStore` and the gateways that share it: the steps each takes under the store's lock. */
module StableGateway {
  import opened Wrappers
  import opened OrderedDict
  import opened Sorting
  import opened Gateway
  import GatewayRuns
  import GatewayTerms

  class PreflightStore {
    var preflights: Dict<Receipt>
    var consumed: Dict<real>

    function Contents(): Store
      reads this
    {
      Store(preflights, consumed)
    }

    ghost predicate Valid()
      reads this
    {
      GatewayRuns.Keyed(preflights) && Distinct(consumed)
    }

    constructor ()
      ensures Valid() && Contents() == Store([], [])
    {
      preflights, consumed := [], [];
    }

    /** Remove one by one the entries of `d` that are not live. */
    static method Sweep<V(!new)>(d: Dict<V>, live: V -> bool) returns (r: Dict<V>)
      requires Distinct(d)
      ensures r == DropExpired(d, live) && Distinct(r)
    {
      r := d;
      var i := 0;
      assert d[..0] == [];
      while i < |d|
        invariant i <= |d| && Distinct(r)
        invariant r == DropExpired(d[..i], live) + d[i..]
      {
        SweepTurn(d, i, live);
        if !live(d[i].1) {
          RemoveMember(r, d[i].0);
          r := Remove(r, d[i].0);
        }
        i := i + 1;
      }
      assert d[..i] == d;
    }

    static method Evict(d: Dict<Receipt>, victims: seq<(string, Receipt)>) returns (r: Dict<Receipt>)
      ensures r == RemoveAll(d, victims)
    {
      r := d;
      var i := 0;
      while i < |victims|
        invariant i <= |victims| && r == RemoveAll(d, victims[..i])
      {
        assert victims[..i + 1][..i] == victims[..i];
        r := Remove(r, victims[i].1.id);
        i := i + 1;
      }
      assert victims[..i] == victims;
    }

    /** `_prune_locked`: expired receipts, expired replay marks, then the oldest receipts beyond the limit. */
    method PruneLocked(now: real, maxPreflights: nat)
      requires Valid()
      modifies this
      ensures Valid() && Contents() == Pruned(old(Contents()), now, maxPreflights)
    {
      ghost var pruned := Pruned(Contents(), now, maxPreflights);
      assert GatewayRuns.Keyed(pruned.preflights) by {
        GatewayRuns.PrunedExact(Contents(), now, maxPreflights);
      }
      var live := Sweep(preflights, Usable(now));
      consumed := Sweep(consumed, Remembered(now));
      var excess := if |live| > maxPreflights then |live| - maxPreflights else 0;
      preflights := Evict(live, SortBy(OlderFirst, live)[..excess]);
    }

    method Look(id: string, now: real) returns (r: Result<Receipt, Error>)
      requires Valid()
      modifies this`preflights
      ensures Valid() && r == Lookup(old(Contents()), id, now) && Contents() == Looked(old(Contents()), id, now)
    {
      if Has(consumed, id) {
        return Err(Replay);
      }
      var found := Find(preflights, id);
      if found.None? {
        return Err(NotFound);
      }
      if now >= found.value.expiresAt {
        RemoveMember(preflights, id);
        preflights := Remove(preflights, id);
        return Err(ExpiredReceipt);
      }
      return Ok(found.value);
    }

    /** Turn a receipt into a replay mark, and prune. */
    method Spend(id: string, until: real, now: real, maxPreflights: nat)
      requires Valid()
      modifies this
      ensures Valid()
      ensures Contents() == Spent(old(Contents()), id, until, now, maxPreflights)
    {
      RemoveMember(preflights, id);
      PutMember(consumed, id, until);
      preflights := Remove(preflights, id);
      consumed := Put(consumed, id, until);
      PruneLocked(now, maxPreflights);
    }

    method Consume(id: string, check: Receipt -> Result<Ticket, Error>, until: real, now: real, maxPreflights: nat)
      returns (r: Result<Ticket, Error>)
      requires Valid()
      modifies this
      ensures Valid()
      ensures r == Examined(old(Contents()), id, now, check)
      ensures Contents() == Settled(old(Contents()), id, r.Ok?, until, now, maxPreflights)
    {
      var found := Look(id, now);
      if found.Err? {
        return Err(found.error);
      }
      r := check(found.value);
      if r.Ok? {
        Spend(id, until, now, maxPreflights);
      }
    }
  }

  lemma {:induction false} DropExpiredNext<V(!new)>(a: Dict<V>, x: (string, V), live: V -> bool)
    ensures DropExpired(a + [x], live) == DropExpired(a, live) + if live(x.1) then [x] else []
  {
    if a == [] {
      assert a + [x] == [x];
    } else {
      var head := if live(a[0].1) then [a[0]] else [];
      var last := if live(x.1) then [x] else [];
      assert (a + [x])[0] == a[0] && (a + [x])[1..] == a[1..] + [x];
      DropExpiredNext(a[1..], x, live);
      assert head + (DropExpired(a[1..], live) + last) == (head + DropExpired(a[1..], live)) + last;
    }
  }

  /** Removing a key that first occurs after `a` removes it there. */
  lemma RemoveMiddle<V>(a: Dict<V>, x: (string, V), b: Dict<V>)
    requires forall y :: y in a ==> y.0 != x.0
    ensures Remove(a + [x] + b, x.0) == a + b
  {
    var d := a + [x] + b;
    var i := IndexOf(d, x.0);
    assert d[|a|] == x && a == d[..|a|];
    assert forall j :: 0 <= j < |a| ==> d[j] in a;
    assert i == |a|;
    assert d[..i] == a && d[i + 1..] == b;
  }

  lemma KeptBefore<V(!new)>(d: Dict<V>, i: nat, live: V -> bool, y: (string, V))
    requires Distinct(d) && i < |d| && y in DropExpired(d[..i], live)
    ensures y.0 != d[i].0
  {
    assert y in d[..i];
    var j :| 0 <= j < i && d[j] == y;
  }

  lemma SweepTurn<V(!new)>(d: Dict<V>, i: nat, live: V -> bool)
    requires Distinct(d) && i < |d|
    ensures var r := DropExpired(d[..i], live) + d[i..];
            DropExpired(d[..i + 1], live) + d[i + 1..] == if live(d[i].1) then r else Remove(r, d[i].0)
  {
    var kept, rest := DropExpired(d[..i], live), d[i + 1..];
    assert d[..i + 1] == d[..i] + [d[i]];
    DropExpiredNext(d[..i], d[i], live);
    assert d[i..] == [d[i]] + rest;
    assert kept + ([d[i]] + rest) == kept + [d[i]] + rest;
    forall y | y in kept ensures y.0 != d[i].0 {
      KeptBefore(d, i, live, y);
    }
    RemoveMiddle(kept, d[i], rest);
  }

  class StableGateway {
    const store: PreflightStore
    const ttl: nat
    const maxPreflights: nat
    var handlers: map<string, Handler>
    var delegated: Option<set<string>>

    function State(): GatewayState
      reads this
    {
      GatewayState(ttl, maxPreflights, handlers, delegated)
    }

    ghost predicate Valid()
      reads this
    {
      WellRegistered(State())
    }

    constructor (store: PreflightStore, ttl: nat, maxPreflights: nat, delegating: bool)
      requires 60 <= ttl <= 1800 && 16 <= maxPreflights <= 4096
      ensures Valid() && this.store == store
      ensures State() == GatewayState(ttl, maxPreflights, map[], if delegating then Some({}) else None)
    {
      this.store, this.ttl, this.maxPreflights := store, ttl, maxPreflights;
      handlers := map[];
      delegated := if delegating then Some({}) else None;
    }

    method RegisterHandler(handler: Handler, replace: bool) returns (r: Result<(), Error>)
      requires Valid()
      modifies this`handlers
      ensures Valid()
      ensures var next := Registered(old(State()), handler, replace);
              && r == (if next.Ok? then Ok(()) else Err(next.error))
              && State() == if next.Ok? then next.value else old(State())
    {
      if handler.id == "" || handler.version == "" {
        return Err(HandlerInvalid);
      }
      if handler.id in handlers && !replace {
        return Err(HandlerDuplicate);
      }
      handlers := handlers[handler.id := handler];
      return Ok(());
    }

    /** A handler whose own tool keeps the authority; only the delegated gateway has this method. */
    method RegisterDelegatedHandler(handler: Handler, replace: bool) returns (r: Result<(), Error>)
      requires Valid() && delegated.Some?
      modifies this`handlers, this`delegated
      ensures Valid()
      ensures var next := RegisteredDelegated(old(State()), handler, replace);
              && r == (if next.Ok? then Ok(()) else Err(next.error))
              && State() == if next.Ok? then next.value else old(State())
    {
      r := RegisterHandler(handler, replace);
      if r.Ok? {
        delegated := Some(delegated.value + {handler.id});
      }
    }

    /** The part of `preflight` before the handler's own preflight. */
    method BeginPreflight(reg: Registry, capability: string, params: string, c: Context, now: real)
      returns (r: Result<Draft, Error>)
      requires store.Valid()
      modifies store
      ensures store.Valid() && r == Validated(State(), reg, capability, params, c)
      ensures store.Contents() == if r.Ok? then Pruned(old(store.Contents()), now, maxPreflights) else old(store.Contents())
    {
      r := Validated(State(), reg, capability, params, c);
      if r.Ok? {
        store.PruneLocked(now, maxPreflights);
      }
    }

    /** The rest of `preflight`: decide on approval, then insert the receipt and prune. */
    method FinishPreflight(d: Draft, id: string, token: string, handlerState: string, now: real)
      returns (r: Result<Receipt, Error>)
      requires store.Valid()
      modifies store
      ensures store.Valid() && r == Issued(State(), d, id, token, handlerState, now)
      ensures r.Ok? ==> GatewayTerms.Issues(ttl, d, r.value)
      ensures store.Contents() == if r.Ok? then Inserted(State(), old(store.Contents()), r.value) else old(store.Contents())
    {
      r := Issued(State(), d, id, token, handlerState, now);
      GatewayTerms.IssuedExactly(State(), d, id, token, handlerState, now);
      if r.Ok? {
        PutMember(store.preflights, id, r.value);
        store.preflights := Put(store.preflights, id, r.value);
        store.PruneLocked(now, maxPreflights);
      }
    }

    /** The part of `execute` under the store's lock: check and consume before the handler runs. */
    method CheckAndConsume(reg: Registry, id: string, capability: string, params: string,
                           c: Context, confirmation: string, now: real) returns (r: Result<Ticket, Error>)
      requires store.Valid()
      modifies store
      ensures store.Valid()
      ensures r == Examined(old(store.Contents()), id, now, Check(State(), reg, capability, params, c, confirmation, now))
      ensures store.Contents() == Settled(old(store.Contents()), id, r.Ok?, ReplayUntil(ttl, now), now, maxPreflights)
      ensures r.Ok? ==> GatewayTerms.PinnedAs(r.value.receipt.pinned, c) && GatewayRuns.Meets(r.value.spec, c)
    {
      ghost var g := State();
      r := store.Consume(id, Check(State(), reg, capability, params, c, confirmation, now),
                         ReplayUntil(ttl, now), now, maxPreflights);
      assert State() == g;
      if r.Ok? {
        var receipt := Lookup(old(store.Contents()), id, now).value;
        GatewayTerms.CheckedExactly(g, reg, receipt, capability, params, c, confirmation, now);
      }
    }
  }
}

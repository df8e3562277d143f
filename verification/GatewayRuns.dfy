/** Any number of gateways over one preflight store, their atomic steps interleaved freely. */
module GatewayRuns {
  import opened Wrappers
  import opened OrderedDict
  import opened Sorting
  import opened Gateway

  datatype Event =
    | Register(gateway: nat, handler: Handler)
    | RegisterDelegated(gateway: nat, handler: Handler)
    | Issue(gateway: nat, receipt: Receipt, draft: Draft)
    | Spend(gateway: nat, ticket: Ticket)
    | Execute(ticket: Ticket)

  /** Gateways, the shared store, preflights and executions in progress, and the trace. */
  datatype System = System(
    gateways: map<nat, GatewayState>, store: Store, drafts: seq<(nat, Draft)>,
    tickets: seq<Ticket>, trace: seq<Event>)

  /** The atomic steps: between two of them any other gateway may take one, handlers may be
      registered, and the registry may change. */
  datatype Step =
    | Open(gateway: nat, ttl: nat, maxPreflights: nat, delegating: bool)
    | AddHandler(gateway: nat, handler: Handler, replace: bool)
    | AddDelegatedHandler(gateway: nat, handler: Handler, replace: bool)
    | Begin(gateway: nat, registry: Registry, capability: string, params: string, context: Context, now: real)
    | Insert(draft: nat, id: string, token: string, handlerState: string, now: real)
    | Abandon(draft: nat)
    | Consume(gateway: nat, registry: Registry, id: string, capability: string, params: string,
              context: Context, confirmation: string, now: real)
    | RunHandler(ticket: nat)

  function Without<T>(s: seq<T>, i: nat): seq<T>
    requires i < |s|
  {
    s[..i] + s[i + 1..]
  }

  /** The locked part of `execute`: a passed check consumes the receipt. */
  function Consumed(sys: System, g: nat, id: string, check: Receipt -> Result<Ticket, Error>, until: real, now: real,
                    maxPreflights: nat): System
  {
    var ticket := Examined(sys.store, id, now, check);
    var settled := sys.(store := Settled(sys.store, id, ticket.Ok?, until, now, maxPreflights));
    if ticket.Err? then settled
    else settled.(tickets := sys.tickets + [ticket.value], trace := sys.trace + [Spend(g, ticket.value)])
  }

  /** The outcome of a registration, if it did not raise, goes with its trace event. */
  function Registering(sys: System, g: nat, state: Result<GatewayState, Error>, e: Event): System {
    if state.Err? then sys else sys.(gateways := sys.gateways[g := state.value], trace := sys.trace + [e])
  }

  function Apply(sys: System, step: Step): (r: System) {
    match step
    case Open(g, ttl, maxPreflights, delegating) =>
      if g in sys.gateways || !(60 <= ttl <= 1800) || !(16 <= maxPreflights <= 4096) then sys
      else
        sys.(gateways := sys.gateways[g := GatewayState(ttl, maxPreflights, map[], if delegating then Some({}) else None)])
    case AddHandler(g, h, replace) =>
      if g !in sys.gateways then sys
      else Registering(sys, g, Registered(sys.gateways[g], h, replace), Register(g, h))
    case AddDelegatedHandler(g, h, replace) =>
      if g !in sys.gateways || sys.gateways[g].delegated.None? then sys
      else Registering(sys, g, RegisteredDelegated(sys.gateways[g], h, replace), RegisterDelegated(g, h))
    case Begin(g, reg, capability, params, context, now) =>
      if g !in sys.gateways then sys
      else
        var d := Validated(sys.gateways[g], reg, capability, params, context);
        if d.Err? then sys
        else sys.(store := Pruned(sys.store, now, sys.gateways[g].maxPreflights), drafts := sys.drafts + [(g, d.value)])
    case Insert(i, id, token, handlerState, now) =>
      if i >= |sys.drafts| || sys.drafts[i].0 !in sys.gateways then sys
      else
        var (g, d) := sys.drafts[i];
        var receipt := Issued(sys.gateways[g], d, id, token, handlerState, now);
        if receipt.Err? then sys.(drafts := Without(sys.drafts, i))
        else
          System(sys.gateways, Inserted(sys.gateways[g], sys.store, receipt.value), Without(sys.drafts, i),
                 sys.tickets, sys.trace + [Issue(g, receipt.value, d)])
    case Abandon(i) => if i < |sys.drafts| then sys.(drafts := Without(sys.drafts, i)) else sys
    case Consume(g, reg, id, capability, params, context, confirmation, now) =>
      if g !in sys.gateways then sys
      else
        var gs := sys.gateways[g];
        Consumed(sys, g, id, Check(gs, reg, capability, params, context, confirmation, now),
                 ReplayUntil(gs.ttl, now), now, gs.maxPreflights)
    case RunHandler(i) =>
      if i >= |sys.tickets| then sys
      else sys.(tickets := Without(sys.tickets, i), trace := sys.trace + [Execute(sys.tickets[i])])
  }

  function Run(steps: seq<Step>): (sys: System) {
    if steps == [] then System(map[], Store([], []), [], [], [])
    else Apply(Run(steps[..|steps| - 1]), steps[|steps| - 1])
  }

  ghost predicate IssuedId(trace: seq<Event>, id: string) {
    exists e :: e in trace && e.Issue? && e.receipt.id == id
  }

  /** Random preflight ids are new: no insertion repeats an id already issued. */
  ghost predicate FreshIds(steps: seq<Step>) {
    steps == [] ||
    var n := |steps| - 1;
    && FreshIds(steps[..n])
    && (steps[n].Insert? ==> !IssuedId(Run(steps[..n]).trace, steps[n].id))
  }

  // ---------------------------------------------------------------- the store

  ghost predicate Keyed(d: Dict<Receipt>) {
    Distinct(d) && forall x :: x in d ==> x.0 == x.1.id
  }

  lemma {:induction false} DropExpiredKeyed(d: Dict<Receipt>, live: Receipt -> bool)
    requires Keyed(d)
    ensures Keyed(DropExpired(d, live)) && |DropExpired(d, live)| <= |d|
  {
    if d != [] {
      assert d == [d[0]] + d[1..];
      DropExpiredKeyed(d[1..], live);
      var rest := DropExpired(d[1..], live);
      forall x | x in rest ensures x.0 != d[0].0 {
        var j :| 0 <= j < |d[1..]| && d[1..][j] == x;
      }
    }
  }

  lemma KeyedMember(d: Dict<Receipt>, x: (string, Receipt), y: (string, Receipt))
    requires Keyed(d) && x in d && y in d && x.0 == y.0
    ensures x == y
  {
    FindMember(d, x.0, x.1);
    FindMember(d, y.0, y.1);
  }

  lemma RemoveVictim(d: Dict<Receipt>, before: Dict<Receipt>, gone: seq<(string, Receipt)>, last: (string, Receipt))
    requires Keyed(d) && Keyed(before) && last in d && last !in gone
    requires forall x :: x in before <==> x in d && x !in gone
    ensures var r := Remove(before, last.1.id);
            Keyed(r) && |r| == |before| - 1 && forall x :: x in r <==> x in d && x !in gone && x != last
  {
    HasMember(before, last);
    RemoveMember(before, last.0);
    forall x | x in d && x.0 == last.0 ensures x == last {
      KeyedMember(d, x, last);
    }
  }

  lemma LastVictim(d: Dict<Receipt>, victims: seq<(string, Receipt)>, init: seq<(string, Receipt)>, last: (string, Receipt))
    requires victims == init + [last] && NoDuplicates(victims) && forall v :: v in victims ==> v in d
    ensures NoDuplicates(init) && (forall v :: v in init ==> v in d) && last in d && last !in init
    ensures forall x :: x in victims <==> x in init || x == last
  {
    assert victims[..|init|] == init && victims[|init|] == last;
    assert forall i :: 0 <= i < |init| ==> victims[i] == init[i];
  }

  lemma {:induction false} RemoveAllExact(d: Dict<Receipt>, victims: seq<(string, Receipt)>)
    requires Keyed(d) && NoDuplicates(victims) && forall v :: v in victims ==> v in d
    ensures var r := RemoveAll(d, victims);
            Keyed(r) && |r| == |d| - |victims| && forall x :: x in r <==> x in d && x !in victims
  {
    if victims != [] {
      var init, last := victims[..|victims| - 1], victims[|victims| - 1];
      LastVictim(d, victims, init, last);
      RemoveAllExact(d, init);
      RemoveVictim(d, RemoveAll(d, init), init, last);
    }
  }

  lemma SortDistinct(d: Dict<Receipt>)
    requires Keyed(d)
    ensures NoDuplicates(SortBy(OlderFirst, d))
  {
    assert NoDuplicates(d);
    NoDuplicatesPermute(d, SortBy(OlderFirst, d));
  }

  lemma PrefixDistinct<T>(s: seq<T>, k: nat)
    requires NoDuplicates(s) && k <= |s|
    ensures NoDuplicates(s[..k])
  {
  }

  lemma SortPrefixMember(d: Dict<Receipt>, k: nat, v: (string, Receipt))
    requires k <= |d| && v in SortBy(OlderFirst, d)[..k]
    ensures v in d
  {
    SplitMember(SortBy(OlderFirst, d), k, v);
    SameElements(d, SortBy(OlderFirst, d));
  }

  lemma SortPrefixOldest(d: Dict<Receipt>, k: nat, x: (string, Receipt), y: (string, Receipt))
    requires k <= |d| && x in SortBy(OlderFirst, d)[..k] && y in d && y !in SortBy(OlderFirst, d)[..k]
    ensures x.1.createdAt <= y.1.createdAt
  {
    var s := SortBy(OlderFirst, d);
    SameElements(d, s);
    SortBySorted(OlderFirst, d);
    SplitMember(s, k, y);
    CutSorted(OlderFirst, s, k, x, y);
  }

  /** Removing the oldest receipts beyond the limit leaves the limit, all at least as new. */
  lemma EvictExact(live: Dict<Receipt>, k: nat)
    requires Keyed(live) && k <= |live|
    ensures var r := RemoveAll(live, SortBy(OlderFirst, live)[..k]);
            && Keyed(r) && |r| == |live| - k && (forall x :: x in r ==> x in live)
            && (forall x, y :: x in live && x !in r && y in r ==> x.1.createdAt <= y.1.createdAt)
  {
    var victims := SortBy(OlderFirst, live)[..k];
    SortDistinct(live);
    PrefixDistinct(SortBy(OlderFirst, live), k);
    forall v | v in victims ensures v in live {
      SortPrefixMember(live, k, v);
    }
    RemoveAllExact(live, victims);
    var r := RemoveAll(live, victims);
    forall x, y | x in live && x !in r && y in r ensures x.1.createdAt <= y.1.createdAt {
      SortPrefixOldest(live, k, x, y);
    }
  }

  /** Pruning keeps only unexpired receipts and at most the limit; an unexpired receipt
      is dropped only when the limit is full of receipts at least as new. */
  lemma PrunedExact(s: Store, now: real, maxPreflights: nat)
    requires Keyed(s.preflights)
    ensures var r := Pruned(s, now, maxPreflights).preflights;
            && Keyed(r) && |r| <= maxPreflights
            && (forall x :: x in r ==> x in s.preflights && now < x.1.expiresAt)
            && (forall x :: x in s.preflights && now < x.1.expiresAt && x !in r ==>
                  |r| == maxPreflights && forall y :: y in r ==> x.1.createdAt <= y.1.createdAt)
  {
    var alive := Usable(now);
    var live := DropExpired(s.preflights, alive);
    DropExpiredKeyed(s.preflights, alive);
    if |live| > maxPreflights {
      EvictExact(live, |live| - maxPreflights);
    } else {
      assert SortBy(OlderFirst, live)[..0] == [];
    }
  }

  lemma PrunedKeeps(s: Store, now: real, maxPreflights: nat)
    requires Keyed(s.preflights)
    ensures Keyed(Pruned(s, now, maxPreflights).preflights)
    ensures forall x :: x in Pruned(s, now, maxPreflights).preflights ==> x in s.preflights
  {
    PrunedExact(s, now, maxPreflights);
  }

  /** Looking up drops at most the expired receipt it found. */
  lemma LookedExact(s: Store, id: string, now: real)
    requires Keyed(s.preflights)
    ensures var s' := Looked(s, id, now);
            && s'.consumed == s.consumed && Keyed(s'.preflights)
            && (Lookup(s, id, now) != Err(ExpiredReceipt) ==> s' == s)
            && (forall x :: x in s'.preflights ==> x in s.preflights)
            && (forall x :: x in s.preflights && (x.0 != id || now < x.1.expiresAt) ==> x in s'.preflights)
  {
    RemoveMember(s.preflights, id);
    forall x | x in s.preflights && x.0 == id ensures Find(s.preflights, id) == Some(x.1) {
      FindMember(s.preflights, id, x.1);
    }
  }

  /** A held, unexpired receipt is honoured when the execution repeats its preflight with
      the exact confirmation and nothing has changed in between. */
  lemma PreflightThenExecute(g: GatewayState, reg: Registry, s: Store, capability: string, params: string,
                             c: Context, id: string, token: string, handlerState: string, issuedAt: real, now: real)
    requires forall k :: k in reg.specs ==> reg.specs[k].id == k
    requires WellRegistered(g)
    requires Validated(g, reg, capability, params, c).Ok?
    requires Issued(g, Validated(g, reg, capability, params, c).value, id, token, handlerState, issuedAt).Ok?
    requires var r := Issued(g, Validated(g, reg, capability, params, c).value, id, token, handlerState, issuedAt).value;
             Find(s.preflights, id) == Some(r) && now < r.expiresAt && !Has(s.consumed, id)
    ensures var r := Issued(g, Validated(g, reg, capability, params, c).value, id, token, handlerState, issuedAt).value;
            var ticket := Examined(s, id, now, Check(g, reg, capability, params, c, r.confirmation, now));
            ticket.Ok? && ticket.value.receipt == r
  {
    var d := Validated(g, reg, capability, params, c).value;
    var r := Issued(g, d, id, token, handlerState, issuedAt).value;
    assert Recalled(reg, r, capability, params) == Ok((d.spec, d.argsHash));
    assert Rebound(g, r, d.spec, c) == Ok(d.handler);
    assert Unapproved(g, r, d.spec, c, r.confirmation).None?;
    assert Lookup(s, id, now) == Ok(r);
  }

  // ---------------------------------------------------------------- executions

  /** The context has all that the spec demands. */
  ghost predicate Meets(spec: Spec, c: Context) {
    && spec.binding != UnknownBinding && (spec.binding == Required ==> c.workspace != "" && c.tree != "")
    && (spec.sessionRequired ==> c.session != "") && (spec.leaseRequired ==> c.leaseId != "")
    && c.policyRevision != "" && IsSha256(c.policyDigest)
    && (forall g :: g in spec.credentials ==> g in c.grants) && "" !in c.grants
    && (spec.networkRequired ==> c.network) && c.trust != UnknownTrust
    && (spec.policy == TrustedSessionGrant ==> c.trustedGrant != "")
  }

  /** The execution repeats what its receipt pinned, before the receipt expires, and
      with the exact confirmation where the receipt asks for one; its context still
      has what the spec demands. */
  ghost predicate Matches(t: Ticket) {
    && Meets(t.spec, t.context)
    && t.capability == t.receipt.capability && t.spec.version == t.receipt.version
    && t.argsHash == t.receipt.argsHash && Pin(t.context) == t.receipt.pinned
    && t.handler.id == t.receipt.handler
    && t.handler.version == t.spec.handlerVersion == t.receipt.handlerVersion
    && t.spec.policy == t.receipt.policy && t.at < t.receipt.expiresAt
    && (t.receipt.approvalRequired ==> t.confirmation == t.receipt.confirmation)
  }

  ghost predicate Confirmed(t: Ticket) {
    t.receipt.approvalRequired && t.confirmation == t.receipt.confirmation != ""
  }

  /** Who may run without an exact confirmation. */
  ghost predicate Authorized(t: Ticket) {
    && (t.spec.risk == R3 && !Confirmed(t) ==> t.spec.policy == Delegated && t.delegated)
    && (t.spec.risk == R2 && !Confirmed(t) ==>
          || (t.spec.policy == Delegated && t.delegated)
          || (t.spec.policy == TrustedSessionGrant && t.receipt.pinned.trustedGrant != "")
          || (t.spec.policy == WorkspaceTrust && t.receipt.pinned.trust == TrustedDevelopment))
    && (t.spec.policy == Delegated ==> t.delegated) && t.spec.risk != UnknownRisk
  }

  ghost predicate WellIssued(r: Receipt) {
    r.approvalRequired ==> r.confirmation != ""
  }

  lemma CheckedMatches(g: GatewayState, reg: Registry, r: Receipt, capability: string, params: string,
                       c: Context, confirmation: string, now: real)
    requires WellIssued(r) && now < r.expiresAt
    requires Checked(g, reg, r, capability, params, c, confirmation, now).Ok?
    ensures var t := Checked(g, reg, r, capability, params, c, confirmation, now).value;
            t.receipt == r && Matches(t) && Authorized(t)
  {
  }

  // ---------------------------------------------------------------- runs

  ghost predicate WasIssued(trace: seq<Event>, r: Receipt) {
    exists e :: e in trace && e.Issue? && e.receipt == r
  }

  /** A ticket is matched, authorized, and backed by an issued receipt that is gone from the store. */
  ghost predicate Backed(trace: seq<Event>, preflights: Dict<Receipt>, t: Ticket) {
    && Matches(t) && Authorized(t) && WasIssued(trace, t.receipt)
    && forall x :: x in preflights ==> x.0 != t.receipt.id
  }

  ghost predicate StoreBacked(sys: System) {
    && Keyed(sys.store.preflights)
    && forall x :: x in sys.store.preflights ==> WasIssued(sys.trace, x.1) && WellIssued(x.1)
  }

  ghost predicate TicketsBacked(sys: System) {
    && (forall t :: t in sys.tickets ==> Backed(sys.trace, sys.store.preflights, t))
    && (forall e :: e in sys.trace && e.Execute? ==> Backed(sys.trace, sys.store.preflights, e.ticket))
  }

  /** No receipt id is spent twice, in a pending or a finished execution. */
  ghost predicate SpentOnce(sys: System) {
    && (forall i, j :: 0 <= i < j < |sys.tickets| ==> sys.tickets[i].receipt.id != sys.tickets[j].receipt.id)
    && (forall i, j :: 0 <= i < j < |sys.trace| && sys.trace[i].Execute? && sys.trace[j].Execute? ==>
          sys.trace[i].ticket.receipt.id != sys.trace[j].ticket.receipt.id)
    && (forall t, e :: t in sys.tickets && e in sys.trace && e.Execute? ==> t.receipt.id != e.ticket.receipt.id)
  }

  /** Every execution comes after the issuing of its receipt. */
  ghost predicate IssuedFirst(trace: seq<Event>) {
    forall j :: 0 <= j < |trace| && trace[j].Execute? ==> WasIssued(trace[..j], trace[j].ticket.receipt)
  }

  ghost predicate Inv(sys: System) {
    StoreBacked(sys) && TicketsBacked(sys) && SpentOnce(sys) && IssuedFirst(sys.trace)
  }

  lemma TraceGrows(trace: seq<Event>, e: Event, r: Receipt)
    requires WasIssued(trace, r)
    ensures WasIssued(trace + [e], r)
  {
    var x :| x in trace && x.Issue? && x.receipt == r;
    assert x in trace + [e];
  }

  /** A step that only drops receipts from the store keeps the invariant. */
  lemma FewerReceipts(sys: System, next: System)
    requires Inv(sys) && next.trace == sys.trace && next.tickets == sys.tickets
    requires Keyed(next.store.preflights)
    requires forall x :: x in next.store.preflights ==> x in sys.store.preflights
    ensures Inv(next)
  {
    assert StoreBacked(next);
    assert TicketsBacked(next) by {
      forall t | t in sys.tickets ensures Backed(next.trace, next.store.preflights, t) {
        FewerBacked(sys.trace, sys.store.preflights, next.store.preflights, t);
      }
      forall e | e in sys.trace && e.Execute? ensures Backed(next.trace, next.store.preflights, e.ticket) {
        FewerBacked(sys.trace, sys.store.preflights, next.store.preflights, e.ticket);
      }
    }
    assert SpentOnce(next);
  }

  lemma FewerBacked(trace: seq<Event>, before: Dict<Receipt>, after: Dict<Receipt>, t: Ticket)
    requires Backed(trace, before, t) && forall x :: x in after ==> x in before
    ensures Backed(trace, after, t)
  {
  }

  lemma WasIssuedId(trace: seq<Event>, r: Receipt)
    requires WasIssued(trace, r)
    ensures IssuedId(trace, r.id)
  {
  }

  lemma PutBacked(trace: seq<Event>, d: Dict<Receipt>, e: Event, r: Receipt, t: Ticket)
    requires Backed(trace, d, t) && !IssuedId(trace, r.id) && Distinct(d)
    ensures Backed(trace + [e], Put(d, r.id, r), t)
  {
    WasIssuedId(trace, t.receipt);
    TraceGrows(trace, e, t.receipt);
    PutMember(d, r.id, r);
  }

  lemma IssueStore(sys: System, g: nat, r: Receipt, d: Draft, next: System)
    requires StoreBacked(sys) && WellIssued(r)
    requires next.trace == sys.trace + [Issue(g, r, d)] && next.store.preflights == Put(sys.store.preflights, r.id, r)
    ensures StoreBacked(next)
  {
    PutMember(sys.store.preflights, r.id, r);
    assert Issue(g, r, d) in next.trace;
    forall x | x in next.store.preflights ensures WasIssued(next.trace, x.1) && WellIssued(x.1) {
      if x in sys.store.preflights {
        TraceGrows(sys.trace, Issue(g, r, d), x.1);
      }
    }
  }

  lemma IssueTickets(sys: System, g: nat, r: Receipt, d: Draft, next: System)
    requires TicketsBacked(sys) && Keyed(sys.store.preflights) && !IssuedId(sys.trace, r.id)
    requires next.trace == sys.trace + [Issue(g, r, d)] && next.tickets == sys.tickets
    requires next.store.preflights == Put(sys.store.preflights, r.id, r)
    ensures TicketsBacked(next)
  {
    forall t | t in next.tickets ensures Backed(next.trace, next.store.preflights, t) {
      PutBacked(sys.trace, sys.store.preflights, Issue(g, r, d), r, t);
    }
    forall e | e in next.trace && e.Execute? ensures Backed(next.trace, next.store.preflights, e.ticket) {
      assert e in sys.trace;
      PutBacked(sys.trace, sys.store.preflights, Issue(g, r, d), r, e.ticket);
    }
  }

  lemma IssuedFirstNext(trace: seq<Event>, e: Event)
    requires IssuedFirst(trace) && (e.Execute? ==> WasIssued(trace, e.ticket.receipt))
    ensures IssuedFirst(trace + [e])
  {
    var next := trace + [e];
    forall j | 0 <= j < |next| && next[j].Execute? ensures WasIssued(next[..j], next[j].ticket.receipt) {
      if j < |trace| {
        assert next[..j] == trace[..j] && next[j] == trace[j];
      } else {
        assert next[..j] == trace;
      }
    }
  }

  lemma IssueSpent(sys: System, e: Event, next: System)
    requires SpentOnce(sys) && e.Issue?
    requires next.trace == sys.trace + [e] && next.tickets == sys.tickets
    ensures SpentOnce(next)
  {
    assert forall x :: x in next.trace && x.Execute? ==> x in sys.trace;
  }

  lemma InsertKeeps(sys: System, g: nat, gs: GatewayState, d: Draft, id: string, token: string,
                    handlerState: string, now: real, drafts: seq<(nat, Draft)>)
    requires Inv(sys) && !IssuedId(sys.trace, id)
    requires Issued(gs, d, id, token, handlerState, now).Ok?
    ensures var r := Issued(gs, d, id, token, handlerState, now).value;
            Inv(System(sys.gateways, Inserted(gs, sys.store, r), drafts, sys.tickets, sys.trace + [Issue(g, r, d)]))
  {
    var r := Issued(gs, d, id, token, handlerState, now).value;
    var put := sys.store.(preflights := Put(sys.store.preflights, id, r));
    var mid := System(sys.gateways, put, drafts, sys.tickets, sys.trace + [Issue(g, r, d)]);
    IssueStore(sys, g, r, d, mid);
    IssueTickets(sys, g, r, d, mid);
    IssueSpent(sys, Issue(g, r, d), mid);
    IssuedFirstNext(sys.trace, Issue(g, r, d));
    PrunedExact(put, now, gs.maxPreflights);
    FewerReceipts(mid, mid.(store := Pruned(put, now, gs.maxPreflights)));
  }

  lemma LookupExact(s: Store, id: string, now: real)
    requires Keyed(s.preflights)
    ensures Lookup(s, id, now).Ok? ==>
              (id, Lookup(s, id, now).value) in s.preflights && now < Lookup(s, id, now).value.expiresAt
    ensures Keyed(Looked(s, id, now).preflights)
    ensures forall x :: x in Looked(s, id, now).preflights ==> x in s.preflights
  {
    RemoveMember(s.preflights, id);
    if Has(s.preflights, id) {
      FindMember(s.preflights, id, Find(s.preflights, id).value);
    }
  }

  lemma RemoveKeyed(d: Dict<Receipt>, id: string)
    requires Keyed(d)
    ensures Keyed(Remove(d, id))
    ensures forall x :: x in Remove(d, id) ==> x in d && x.0 != id
  {
    RemoveMember(d, id);
  }

  lemma SpentExact(s: Store, id: string, until: real, now: real, maxPreflights: nat)
    requires Keyed(s.preflights)
    ensures Keyed(Spent(s, id, until, now, maxPreflights).preflights)
    ensures forall x :: x in Spent(s, id, until, now, maxPreflights).preflights ==> x in s.preflights && x.0 != id
  {
    RemoveKeyed(s.preflights, id);
    PrunedKeeps(Store(Remove(s.preflights, id), Put(s.consumed, id, until)), now, maxPreflights);
  }

  lemma SettleKeeps(sys: System, id: string, t: Ticket, store: Store)
    requires Inv(sys) && (id, t.receipt) in sys.store.preflights && Matches(t) && Authorized(t)
    requires Keyed(store.preflights) && forall x :: x in store.preflights ==> x in sys.store.preflights && x.0 != id
    ensures Inv(sys.(store := store, tickets := sys.tickets + [t]))
  {
    assert t.receipt.id == id;
    FewerReceipts(sys, sys.(store := store));
    TicketAdded(sys, store, t);
  }

  /** Whatever a check passes is matched and authorized. */
  ghost predicate Strict(check: Receipt -> Result<Ticket, Error>, now: real) {
    forall r :: WellIssued(r) && now < r.expiresAt && check(r).Ok? ==>
      check(r).value.receipt == r && Matches(check(r).value) && Authorized(check(r).value)
  }

  lemma CheckStrict(g: GatewayState, reg: Registry, capability: string, params: string, c: Context,
                    confirmation: string, now: real)
    ensures Strict(Check(g, reg, capability, params, c, confirmation, now), now)
  {
    var check := Check(g, reg, capability, params, c, confirmation, now);
    forall r | WellIssued(r) && now < r.expiresAt && check(r).Ok?
      ensures check(r).value.receipt == r && Matches(check(r).value) && Authorized(check(r).value)
    {
      CheckedMatches(g, reg, r, capability, params, c, confirmation, now);
    }
  }

  /** An event that neither issues nor executes keeps the invariant. */
  lemma OtherEventKeeps(sys: System, e: Event, next: System)
    requires Inv(sys) && !e.Issue? && !e.Execute?
    requires next.trace == sys.trace + [e] && next.tickets == sys.tickets && next.store == sys.store
    ensures Inv(next)
  {
    forall x | x in sys.store.preflights ensures WasIssued(next.trace, x.1) {
      TraceGrows(sys.trace, e, x.1);
    }
    forall t | t in sys.tickets ensures Backed(next.trace, next.store.preflights, t) {
      GrownBacked(sys.trace, sys.store.preflights, e, t);
    }
    forall x | x in next.trace && x.Execute? ensures Backed(next.trace, next.store.preflights, x.ticket) {
      assert x in sys.trace;
      GrownBacked(sys.trace, sys.store.preflights, e, x.ticket);
    }
    assert forall x :: x in next.trace && x.Execute? ==> x in sys.trace;
    IssuedFirstNext(sys.trace, e);
  }

  lemma ConsumeKeeps(sys: System, g: nat, id: string, check: Receipt -> Result<Ticket, Error>, until: real, now: real, maxPreflights: nat)
    requires Inv(sys) && Strict(check, now)
    ensures Inv(Consumed(sys, g, id, check, until, now, maxPreflights))
  {
    var ticket := Examined(sys.store, id, now, check);
    LookupExact(sys.store, id, now);
    if ticket.Ok? {
      assert (id, Lookup(sys.store, id, now).value) in sys.store.preflights;
      SpentExact(sys.store, id, until, now, maxPreflights);
      var spent := Spent(sys.store, id, until, now, maxPreflights);
      SettleKeeps(sys, id, ticket.value, spent);
      OtherEventKeeps(sys.(store := spent, tickets := sys.tickets + [ticket.value]), Spend(g, ticket.value),
                      Consumed(sys, g, id, check, until, now, maxPreflights));
    } else {
      FewerReceipts(sys, sys.(store := Looked(sys.store, id, now)));
    }
  }

  lemma TicketAdded(sys: System, store: Store, t: Ticket)
    requires Inv(sys) && Inv(sys.(store := store))
    requires (t.receipt.id, t.receipt) in sys.store.preflights && Matches(t) && Authorized(t)
    requires forall x :: x in store.preflights ==> x.0 != t.receipt.id
    ensures Inv(sys.(store := store, tickets := sys.tickets + [t]))
  {
    var next := sys.(store := store, tickets := sys.tickets + [t]);
    assert Backed(sys.trace, store.preflights, t);
    assert TicketsBacked(next);
    TicketSpent(sys, next, t);
  }

  lemma TicketSpent(sys: System, next: System, t: Ticket)
    requires SpentOnce(sys) && TicketsBacked(sys) && next.trace == sys.trace && next.tickets == sys.tickets + [t]
    requires (t.receipt.id, t.receipt) in sys.store.preflights
    ensures SpentOnce(next)
  {
    assert forall i :: 0 <= i < |sys.tickets| ==> sys.tickets[i] in sys.tickets;
    assert forall x :: x in sys.tickets ==> x.receipt.id != t.receipt.id;
    assert forall e :: e in sys.trace && e.Execute? ==> e.ticket.receipt.id != t.receipt.id;
  }

  lemma WithoutMembers(tickets: seq<Ticket>, i: nat)
    requires i < |tickets|
    requires forall j, k :: 0 <= j < k < |tickets| ==> tickets[j].receipt.id != tickets[k].receipt.id
    ensures var rest := Without(tickets, i);
            && (forall x :: x in rest ==> x in tickets && x.receipt.id != tickets[i].receipt.id)
            && (forall j, k :: 0 <= j < k < |rest| ==> rest[j].receipt.id != rest[k].receipt.id)
  {
    var rest := Without(tickets, i);
    assert forall k :: 0 <= k < |rest| ==> rest[k] == if k < i then tickets[k] else tickets[k + 1];
  }

  lemma RunHandlerSpent(sys: System, i: nat, next: System)
    requires SpentOnce(sys) && i < |sys.tickets|
    requires next.tickets == Without(sys.tickets, i) && next.trace == sys.trace + [Execute(sys.tickets[i])]
    ensures SpentOnce(next)
  {
    WithoutMembers(sys.tickets, i);
    assert sys.tickets[i] in sys.tickets;
    assert forall k :: 0 <= k < |sys.trace| ==> sys.trace[k] in sys.trace;
  }

  lemma GrownBacked(trace: seq<Event>, d: Dict<Receipt>, e: Event, t: Ticket)
    requires Backed(trace, d, t)
    ensures Backed(trace + [e], d, t)
  {
    TraceGrows(trace, e, t.receipt);
  }

  lemma RunHandlerBacked(sys: System, i: nat, next: System)
    requires SpentOnce(sys) && StoreBacked(sys) && TicketsBacked(sys) && i < |sys.tickets| && next.store == sys.store
    requires next.tickets == Without(sys.tickets, i) && next.trace == sys.trace + [Execute(sys.tickets[i])]
    ensures StoreBacked(next) && TicketsBacked(next)
  {
    var e := Execute(sys.tickets[i]);
    WithoutMembers(sys.tickets, i);
    assert sys.tickets[i] in sys.tickets;
    forall x | x in sys.store.preflights ensures WasIssued(next.trace, x.1) {
      TraceGrows(sys.trace, e, x.1);
    }
    forall t | t in sys.tickets ensures Backed(next.trace, next.store.preflights, t) {
      GrownBacked(sys.trace, sys.store.preflights, e, t);
    }
    forall x | x in next.trace && x.Execute? ensures Backed(next.trace, next.store.preflights, x.ticket) {
      if x in sys.trace {
        GrownBacked(sys.trace, sys.store.preflights, e, x.ticket);
      }
    }
  }

  lemma RunHandlerKeeps(sys: System, i: nat)
    requires Inv(sys) && i < |sys.tickets|
    ensures Inv(sys.(tickets := Without(sys.tickets, i), trace := sys.trace + [Execute(sys.tickets[i])]))
  {
    var next := sys.(tickets := Without(sys.tickets, i), trace := sys.trace + [Execute(sys.tickets[i])]);
    assert sys.tickets[i] in sys.tickets;
    RunHandlerSpent(sys, i, next);
    RunHandlerBacked(sys, i, next);
    IssuedFirstNext(sys.trace, Execute(sys.tickets[i]));
  }

  lemma ApplyKeeps(sys: System, step: Step)
    requires Inv(sys) && (step.Insert? ==> !IssuedId(sys.trace, step.id))
    ensures Inv(Apply(sys, step))
  {
    match step
    case Open(g, ttl, maxPreflights, delegating) =>
    case AddHandler(g, h, replace) =>
      if Apply(sys, step) != sys {
        OtherEventKeeps(sys, Register(g, h), Apply(sys, step));
      }
    case AddDelegatedHandler(g, h, replace) =>
      if Apply(sys, step) != sys {
        OtherEventKeeps(sys, RegisterDelegated(g, h), Apply(sys, step));
      }
    case Begin(g, reg, capability, params, context, now) =>
      if g in sys.gateways {
        PrunedExact(sys.store, now, sys.gateways[g].maxPreflights);
        FewerReceipts(sys, Apply(sys, step));
      }
    case Insert(i, id, token, handlerState, now) =>
      if i < |sys.drafts| && sys.drafts[i].0 in sys.gateways {
        var (g, d) := sys.drafts[i];
        if Issued(sys.gateways[g], d, id, token, handlerState, now).Ok? {
          InsertKeeps(sys, g, sys.gateways[g], d, id, token, handlerState, now, Without(sys.drafts, i));
        }
      }
    case Abandon(i) =>
    case Consume(g, reg, id, capability, params, context, confirmation, now) =>
      if g in sys.gateways {
        CheckStrict(sys.gateways[g], reg, capability, params, context, confirmation, now);
        ConsumeKeeps(sys, g, id, Check(sys.gateways[g], reg, capability, params, context, confirmation, now),
                     ReplayUntil(sys.gateways[g].ttl, now), now, sys.gateways[g].maxPreflights);
      }
    case RunHandler(i) =>
      if i < |sys.tickets| {
        RunHandlerKeeps(sys, i);
      }
  }

  lemma {:induction false} RunInv(steps: seq<Step>)
    requires FreshIds(steps)
    ensures Inv(Run(steps))
  {
    if steps != [] {
      var n := |steps| - 1;
      RunInv(steps[..n]);
      ApplyKeeps(Run(steps[..n]), steps[n]);
    }
  }

  /** In every interleaving, a preflight id leads to at most one handler execution. */
  lemma AtMostOneExecution(steps: seq<Step>, i: nat, j: nat)
    requires FreshIds(steps)
    requires var trace := Run(steps).trace;
             i < |trace| && j < |trace| && trace[i].Execute? && trace[j].Execute?
             && trace[i].ticket.receipt.id == trace[j].ticket.receipt.id
    ensures i == j
  {
    RunInv(steps);
  }

  /** In every interleaving, each execution repeats an earlier preflight exactly, in time
      and confirmed where required, and is authorized for its risk class. */
  lemma ExecutionsMatched(steps: seq<Step>, j: nat)
    requires FreshIds(steps)
    requires j < |Run(steps).trace| && Run(steps).trace[j].Execute?
    ensures var trace := Run(steps).trace;
            var t := trace[j].ticket;
            && Matches(t) && Authorized(t)
            && exists i :: 0 <= i < j && trace[i].Issue? && trace[i].receipt == t.receipt
  {
    RunInv(steps);
    var trace := Run(steps).trace;
    var e :| e in trace[..j] && e.Issue? && e.receipt == trace[j].ticket.receipt;
    var i :| 0 <= i < j && trace[i] == e;
  }
}

/** Where the authority of a delegated execution comes from: the registrations of the run. */
module GatewayAuthority {
  import opened Wrappers
  import opened OrderedDict
  import opened Sorting
  import opened Gateway
  import opened GatewayRuns

  /** The event registers a handler, delegated or not, under the id on the gateway. */
  predicate Registers(e: Event, g: nat, id: string) {
    (e.Register? || e.RegisterDelegated?) && e.gateway == g && e.handler.id == id
  }

  /** One more than the position of the last registration of the id; 0 when there is none. */
  function LastRegistration(trace: seq<Event>, g: nat, id: string): (r: nat)
    ensures r <= |trace|
    ensures r > 0 ==> Registers(trace[r - 1], g, id)
    ensures forall i :: r <= i < |trace| ==> !Registers(trace[i], g, id)
  {
    if trace == [] then 0
    else if Registers(trace[|trace| - 1], g, id) then |trace|
    else LastRegistration(trace[..|trace| - 1], g, id)
  }

  ghost predicate DelegatedAt(trace: seq<Event>, i: int, g: nat, id: string) {
    0 <= i < |trace| && trace[i].RegisterDelegated? && Registers(trace[i], g, id)
  }

  ghost predicate EverDelegated(trace: seq<Event>, g: nat, id: string) {
    exists i :: DelegatedAt(trace, i, g, id)
  }

  /** Under the id the gateway holds the handler registered last, and counts it as delegated if it
      was ever registered so. */
  ghost predicate AccountsFor(gs: GatewayState, trace: seq<Event>, g: nat, id: string) {
    var last := LastRegistration(trace, g, id);
    && (id in gs.handlers <==> last > 0)
    && (id in gs.handlers ==> gs.handlers[id] == trace[last - 1].handler)
    && (EverDelegated(trace, g, id) <==> gs.delegated.Some? && id in gs.delegated.value)
  }

  ghost predicate Accounts(gs: GatewayState, trace: seq<Event>, g: nat) {
    forall id :: AccountsFor(gs, trace, g, id)
  }

  /** At its consumption an execution's handler was the one registered last under its id, and it
      counted as delegated exactly if that id was ever registered so. */
  ghost predicate Grounded(before: seq<Event>, g: nat, t: Ticket) {
    var last := LastRegistration(before, g, t.spec.handler);
    && last > 0 && before[last - 1].handler == t.handler && t.handler.id == t.spec.handler
    && (t.delegated <==> EverDelegated(before, g, t.spec.handler))
  }

  ghost predicate SpentAt(trace: seq<Event>, k: int, t: Ticket) {
    0 <= k < |trace| && trace[k].Spend? && trace[k].ticket == t && Grounded(trace[..k], trace[k].gateway, t)
  }

  ghost predicate WasSpent(trace: seq<Event>, t: Ticket) {
    exists k :: SpentAt(trace, k, t)
  }

  ghost predicate Authority(sys: System) {
    && (forall g :: g in sys.gateways ==> Accounts(sys.gateways[g], sys.trace, g))
    && (forall i :: 0 <= i < |sys.trace| && (sys.trace[i].Register? || sys.trace[i].RegisterDelegated?) ==>
          sys.trace[i].gateway in sys.gateways)
    && (forall t :: t in sys.tickets ==> WasSpent(sys.trace, t))
    && (forall j :: 0 <= j < |sys.trace| && sys.trace[j].Execute? ==> WasSpent(sys.trace[..j], sys.trace[j].ticket))
  }

  // ---------------------------------------------------------------- longer traces

  lemma LastNext(trace: seq<Event>, e: Event, g: nat, id: string)
    ensures LastRegistration(trace + [e], g, id)
            == if Registers(e, g, id) then |trace| + 1 else LastRegistration(trace, g, id)
  {
    assert (trace + [e])[..|trace|] == trace;
  }

  lemma EverNext(trace: seq<Event>, e: Event, g: nat, id: string)
    ensures EverDelegated(trace + [e], g, id)
            <==> EverDelegated(trace, g, id) || (e.RegisterDelegated? && Registers(e, g, id))
  {
    var next := trace + [e];
    assert next[|trace|] == e;
    if EverDelegated(trace, g, id) {
      var i :| DelegatedAt(trace, i, g, id);
      assert DelegatedAt(next, i, g, id);
    }
    if EverDelegated(next, g, id) {
      var i :| DelegatedAt(next, i, g, id);
      assert i < |trace| ==> DelegatedAt(trace, i, g, id);
    }
    if e.RegisterDelegated? && Registers(e, g, id) {
      assert DelegatedAt(next, |trace|, g, id);
    }
  }

  lemma SpentGrows(trace: seq<Event>, e: Event, t: Ticket)
    requires WasSpent(trace, t)
    ensures WasSpent(trace + [e], t)
  {
    var k :| SpentAt(trace, k, t);
    assert (trace + [e])[..k] == trace[..k];
    assert SpentAt(trace + [e], k, t);
  }

  /** An event that does not register this id on this gateway leaves its account as it was. */
  lemma AccountKept(gs: GatewayState, trace: seq<Event>, e: Event, g: nat, id: string, next: GatewayState)
    requires AccountsFor(gs, trace, g, id) && !Registers(e, g, id)
    requires id in next.handlers <==> id in gs.handlers
    requires id in gs.handlers ==> next.handlers[id] == gs.handlers[id]
    requires next.delegated.Some? && id in next.delegated.value <==> gs.delegated.Some? && id in gs.delegated.value
    ensures AccountsFor(next, trace + [e], g, id)
  {
    LastNext(trace, e, g, id);
    EverNext(trace, e, g, id);
  }

  lemma AccountsKept(gs: GatewayState, trace: seq<Event>, e: Event, g: nat)
    requires Accounts(gs, trace, g) && (e.Register? || e.RegisterDelegated? ==> e.gateway != g)
    ensures Accounts(gs, trace + [e], g)
  {
    forall id ensures AccountsFor(gs, trace + [e], g, id) {
      assert AccountsFor(gs, trace, g, id);
      AccountKept(gs, trace, e, g, id, gs);
    }
  }

  /** The state after the registration that an event tells of. */
  ghost predicate Registered(gs: GatewayState, e: Event, next: GatewayState)
    requires e.Register? || e.RegisterDelegated?
  {
    && next.handlers == gs.handlers[e.handler.id := e.handler]
    && if e.Register? then next.delegated == gs.delegated
       else gs.delegated.Some? && next.delegated == Some(gs.delegated.value + {e.handler.id})
  }

  lemma AccountRegistered(gs: GatewayState, trace: seq<Event>, e: Event, g: nat, next: GatewayState)
    requires (e.Register? || e.RegisterDelegated?) && e.gateway == g && Registered(gs, e, next)
    requires AccountsFor(gs, trace, g, e.handler.id)
    ensures AccountsFor(next, trace + [e], g, e.handler.id)
  {
    LastNext(trace, e, g, e.handler.id);
    EverNext(trace, e, g, e.handler.id);
  }

  lemma AccountsRegistered(gs: GatewayState, trace: seq<Event>, e: Event, g: nat, next: GatewayState)
    requires Accounts(gs, trace, g) && (e.Register? || e.RegisterDelegated?) && e.gateway == g && Registered(gs, e, next)
    ensures Accounts(next, trace + [e], g)
  {
    forall id ensures AccountsFor(next, trace + [e], g, id) {
      assert AccountsFor(gs, trace, g, id);
      if id == e.handler.id {
        AccountRegistered(gs, trace, e, g, next);
      } else {
        AccountKept(gs, trace, e, g, id, next);
      }
    }
  }

  lemma SpendsKept(sys: System, e: Event, next: System)
    requires Authority(sys) && next.trace == sys.trace + [e]
    requires forall t :: t in next.tickets ==> t in sys.tickets || SpentAt(next.trace, |sys.trace|, t)
    requires e.Execute? ==> WasSpent(sys.trace, e.ticket)
    ensures forall t :: t in next.tickets ==> WasSpent(next.trace, t)
    ensures forall j :: 0 <= j < |next.trace| && next.trace[j].Execute? ==> WasSpent(next.trace[..j], next.trace[j].ticket)
  {
    forall t | t in next.tickets ensures WasSpent(next.trace, t) {
      if t in sys.tickets {
        SpentGrows(sys.trace, e, t);
      }
    }
    forall j | 0 <= j < |next.trace| && next.trace[j].Execute? ensures WasSpent(next.trace[..j], next.trace[j].ticket) {
      if j < |sys.trace| {
        assert next.trace[..j] == sys.trace[..j] && next.trace[j] == sys.trace[j];
      } else {
        assert next.trace[..j] == sys.trace;
      }
    }
  }

  // ---------------------------------------------------------------- the steps

  lemma QuietKeeps(sys: System, e: Event, next: System)
    requires Authority(sys) && !e.Register? && !e.RegisterDelegated?
    requires next.gateways == sys.gateways && next.trace == sys.trace + [e]
    requires forall t :: t in next.tickets ==> t in sys.tickets || SpentAt(next.trace, |sys.trace|, t)
    requires e.Execute? ==> WasSpent(sys.trace, e.ticket)
    ensures Authority(next)
  {
    SpendsKept(sys, e, next);
    forall g | g in next.gateways ensures Accounts(next.gateways[g], next.trace, g) {
      AccountsKept(sys.gateways[g], sys.trace, e, g);
    }
  }

  lemma RegisterKeeps(sys: System, e: Event, state: GatewayState, next: System)
    requires Authority(sys) && (e.Register? || e.RegisterDelegated?) && e.gateway in sys.gateways
    requires next == sys.(gateways := sys.gateways[e.gateway := state], trace := sys.trace + [e])
    requires Registered(sys.gateways[e.gateway], e, state)
    ensures Authority(next)
  {
    SpendsKept(sys, e, next);
    AccountsRegistered(sys.gateways[e.gateway], sys.trace, e, e.gateway, state);
    forall g | g in next.gateways && g != e.gateway ensures Accounts(next.gateways[g], next.trace, g) {
      AccountsKept(sys.gateways[g], sys.trace, e, g);
    }
  }

  lemma OpenKeeps(sys: System, g: nat, state: GatewayState)
    requires Authority(sys) && g !in sys.gateways
    requires state.handlers == map[] && (state.delegated == None || state.delegated == Some({}))
    ensures Authority(sys.(gateways := sys.gateways[g := state]))
  {
    forall id ensures AccountsFor(state, sys.trace, g, id) {
      assert forall i :: 0 <= i < |sys.trace| ==> !Registers(sys.trace[i], g, id);
    }
  }

  /** What a check takes from the gateway that makes it. */
  ghost predicate TakenFrom(t: Ticket, gs: GatewayState) {
    && t.spec.handler in gs.handlers && t.handler == gs.handlers[t.spec.handler]
    && (t.delegated <==> gs.delegated.Some? && t.spec.handler in gs.delegated.value)
  }

  lemma CheckedTaken(gs: GatewayState, reg: Registry, r: Receipt, capability: string, params: string,
                     c: Context, confirmation: string, now: real)
    requires Checked(gs, reg, r, capability, params, c, confirmation, now).Ok?
    ensures TakenFrom(Checked(gs, reg, r, capability, params, c, confirmation, now).value, gs)
  {
  }

  lemma TakenGrounded(gs: GatewayState, trace: seq<Event>, g: nat, t: Ticket)
    requires Accounts(gs, trace, g) && TakenFrom(t, gs)
    ensures Grounded(trace, g, t)
  {
    assert AccountsFor(gs, trace, g, t.spec.handler);
  }

  lemma SpentNow(trace: seq<Event>, g: nat, t: Ticket)
    requires Grounded(trace, g, t)
    ensures SpentAt(trace + [Spend(g, t)], |trace|, t)
  {
    assert (trace + [Spend(g, t)])[..|trace|] == trace;
  }

  lemma ConsumedKeeps(sys: System, g: nat, id: string, check: Receipt -> Result<Ticket, Error>, until: real, now: real, maxPreflights: nat)
    requires Authority(sys) && g in sys.gateways
    requires forall r :: check(r).Ok? ==> TakenFrom(check(r).value, sys.gateways[g])
    ensures Authority(Consumed(sys, g, id, check, until, now, maxPreflights))
  {
    var ticket, next := Examined(sys.store, id, now, check), Consumed(sys, g, id, check, until, now, maxPreflights);
    if ticket.Ok? {
      var t := ticket.value;
      assert TakenFrom(t, sys.gateways[g]);
      TakenGrounded(sys.gateways[g], sys.trace, g, t);
      SpentNow(sys.trace, g, t);
      QuietKeeps(sys, Spend(g, t), next);
    }
  }

  lemma ApplyKeepsAuthority(sys: System, step: Step)
    requires Authority(sys)
    ensures Authority(Apply(sys, step))
  {
    var next := Apply(sys, step);
    match step
    case Open(g, ttl, maxPreflights, delegating) =>
      if next != sys {
        OpenKeeps(sys, g, GatewayState(ttl, maxPreflights, map[], if delegating then Some({}) else None));
      }
    case AddHandler(g, h, replace) =>
      if g in sys.gateways && Gateway.Registered(sys.gateways[g], h, replace).Ok? {
        RegisterKeeps(sys, Register(g, h), Gateway.Registered(sys.gateways[g], h, replace).value, next);
      }
    case AddDelegatedHandler(g, h, replace) =>
      if g in sys.gateways && sys.gateways[g].delegated.Some? && RegisteredDelegated(sys.gateways[g], h, replace).Ok? {
        RegisterKeeps(sys, RegisterDelegated(g, h), RegisteredDelegated(sys.gateways[g], h, replace).value, next);
      }
    case Begin(g, reg, capability, params, context, now) =>
    case Insert(i, id, token, handlerState, now) =>
      if |next.trace| > |sys.trace| {
        QuietKeeps(sys, next.trace[|sys.trace|], next);
      }
    case Abandon(i) =>
    case Consume(g, reg, id, capability, params, context, confirmation, now) =>
      if g in sys.gateways {
        var check := Check(sys.gateways[g], reg, capability, params, context, confirmation, now);
        forall r | check(r).Ok? ensures TakenFrom(check(r).value, sys.gateways[g]) {
          CheckedTaken(sys.gateways[g], reg, r, capability, params, context, confirmation, now);
        }
        ConsumedKeeps(sys, g, id, check, ReplayUntil(sys.gateways[g].ttl, now), now, sys.gateways[g].maxPreflights);
      }
    case RunHandler(i) =>
      if i < |sys.tickets| {
        assert sys.tickets[i] in sys.tickets;
        QuietKeeps(sys, Execute(sys.tickets[i]), next);
      }
  }

  lemma {:induction false} RunAuthority(steps: seq<Step>)
    ensures Authority(Run(steps))
  {
    if steps != [] {
      var n := |steps| - 1;
      RunAuthority(steps[..n]);
      ApplyKeepsAuthority(Run(steps[..n]), steps[n]);
    }
  }

  /** Gateways are well registered at every point of every run. */
  lemma GatewaysWellRegistered(steps: seq<Step>, sys: System, g: nat)
    requires sys == Run(steps) && g in sys.gateways
    ensures WellRegistered(sys.gateways[g])
  {
    RunAuthority(steps);
    AccountsWellRegistered(sys.gateways[g], sys.trace, g);
  }

  lemma AccountsWellRegistered(gs: GatewayState, trace: seq<Event>, g: nat)
    requires Accounts(gs, trace, g)
    ensures WellRegistered(gs)
  {
    assert forall id :: id in gs.handlers ==> AccountsFor(gs, trace, g, id);
    if gs.delegated.Some? {
      forall id | id in gs.delegated.value ensures id in gs.handlers {
        assert AccountsFor(gs, trace, g, id);
        var i :| DelegatedAt(trace, i, g, id);
        assert Registers(trace[i], g, id);
      }
    }
  }

  // ---------------------------------------------------------------- theorems

  lemma SpentBefore(sys: System, j: nat) returns (k: nat)
    requires Authority(sys) && j < |sys.trace| && sys.trace[j].Execute?
    ensures k < j && SpentAt(sys.trace, k, sys.trace[j].ticket)
  {
    var before, t := sys.trace[..j], sys.trace[j].ticket;
    assert WasSpent(before, t);
    k :| SpentAt(before, k, t);
    assert before[..k] == sys.trace[..k];
  }

  /** Every execution under the delegated policy, the only one that runs R3 without its exact
      confirmation, follows a delegated registration of its handler's id on the gateway that admitted it. */
  lemma DelegationWasRegistered(steps: seq<Step>, sys: System, j: nat)
    requires FreshIds(steps) && sys == Run(steps) && j < |sys.trace| && sys.trace[j].Execute?
    requires var t := sys.trace[j].ticket; t.spec.policy == Delegated || (t.spec.risk == R3 && !Confirmed(t))
    ensures var t := sys.trace[j].ticket;
            exists i, k :: 0 <= i < k < j && SpentAt(sys.trace, k, t) && DelegatedAt(sys.trace, i, sys.trace[k].gateway, t.handler.id)
  {
    RunAuthority(steps);
    RunInv(steps);
    var t := sys.trace[j].ticket;
    assert sys.trace[j] in sys.trace;
    assert Authorized(t);
    var k := SpentBefore(sys, j);
    var g := sys.trace[k].gateway;
    var i :| DelegatedAt(sys.trace[..k], i, g, t.spec.handler);
    assert DelegatedAt(sys.trace, i, g, t.handler.id);
  }

  ghost predicate NoPlainAfter(before: seq<Event>, i: int, g: nat, id: string) {
    forall m :: i < m < |before| && 0 <= m && Registers(before[m], g, id) ==> !before[m].Register?
  }

  /** The id was registered as delegated and never plainly after that. */
  ghost predicate DelegatedSince(before: seq<Event>, g: nat, id: string) {
    exists i :: DelegatedAt(before, i, g, id) && NoPlainAfter(before, i, g, id)
  }

  lemma LastIsDelegatedIff(before: seq<Event>, g: nat, id: string)
    requires LastRegistration(before, g, id) > 0
    ensures before[LastRegistration(before, g, id) - 1].RegisterDelegated? <==> DelegatedSince(before, g, id)
  {
    var last := LastRegistration(before, g, id) - 1;
    if before[last].RegisterDelegated? {
      assert DelegatedAt(before, last, g, id) && NoPlainAfter(before, last, g, id);
    }
    if DelegatedSince(before, g, id) {
      var i :| DelegatedAt(before, i, g, id) && NoPlainAfter(before, i, g, id);
      assert i <= last;
    }
  }

  /** The registration at `last` put the execution's handler where its admission at `k` found it; it
      was a delegated one if and only if no plain registration of the id came after a delegated one. */
  ghost predicate RanFrom(trace: seq<Event>, k: int, last: int, t: Ticket) {
    && 0 <= last < k < |trace| && SpentAt(trace, k, t)
    && Registers(trace[last], trace[k].gateway, t.handler.id) && trace[last].handler == t.handler
    && (forall m :: last < m < k ==> !Registers(trace[m], trace[k].gateway, t.handler.id))
    && (trace[last].RegisterDelegated? <==> DelegatedSince(trace[..k], trace[k].gateway, t.handler.id))
  }

  /** The handler that an execution ran was itself registered as delegated if and only if, before the
      execution was admitted, its id was so registered and no plain registration replaced it since;
      otherwise it ran on the authority that an earlier handler of the id was given. */
  lemma HandlerItselfDelegatedIff(steps: seq<Step>, sys: System, j: nat)
    requires sys == Run(steps) && j < |sys.trace| && sys.trace[j].Execute?
    ensures exists k, last :: k < j && RanFrom(sys.trace, k, last, sys.trace[j].ticket)
  {
    RunAuthority(steps);
    var k := SpentBefore(sys, j);
    AdmittedFrom(sys.trace, k, sys.trace[j].ticket);
  }

  lemma AdmittedFrom(trace: seq<Event>, k: nat, t: Ticket)
    requires SpentAt(trace, k, t)
    ensures RanFrom(trace, k, LastRegistration(trace[..k], trace[k].gateway, t.handler.id) - 1, t)
  {
    var before, g := trace[..k], trace[k].gateway;
    var last := LastRegistration(before, g, t.handler.id) - 1;
    LastIsDelegatedIff(before, g, t.handler.id);
    assert trace[last] == before[last];
    assert forall m :: last < m < k ==> trace[m] == before[m];
  }

  // ---------------------------------------------------------------- inherited authority

  /** What one capability call repeats at preflight and execution. */
  datatype Call = Call(registry: Registry, capability: string, params: string, context: Context, id: string, now: real)

  /** An R3 capability under the delegated policy whose handler id and version are the handler's. */
  ghost predicate DelegatedCall(call: Call, handler: Handler) {
    && call.capability in call.registry.specs
    && var spec := call.registry.specs[call.capability];
    && spec.id == call.capability && spec.handler == handler.id && spec.handlerVersion == handler.version
    && spec.risk == R3 && spec.policy == Delegated
    && ContextError(spec, call.context).None? && call.registry.normalize(call.capability, call.params).Some?
  }

  /** A delegated registration, a plain one that replaces it, and one call through it. */
  function ReplacingRun(first: Handler, plain: Handler, call: Call): seq<Step> {
    [Open(0, 60, 16, true), AddDelegatedHandler(0, first, false), AddHandler(0, plain, true),
     Begin(0, call.registry, call.capability, call.params, call.context, call.now),
     Insert(0, call.id, "", "", call.now),
     Consume(0, call.registry, call.id, call.capability, call.params, call.context, "", call.now),
     RunHandler(0)]
  }

  /** Systems that the steps lead through, one after the other. */
  ghost predicate Chain(systems: seq<System>, steps: seq<Step>) {
    && |systems| == |steps| + 1 && systems[0] == Run([])
    && forall i :: 0 <= i < |steps| ==> Linked(systems, steps, i)
  }

  ghost predicate Linked(systems: seq<System>, steps: seq<Step>, i: nat)
    requires i < |steps| && i + 1 < |systems|
  {
    && systems[i + 1] == Apply(systems[i], steps[i])
    && (steps[i].Insert? ==> !IssuedId(systems[i].trace, steps[i].id))
  }

  lemma {:induction false} ChainRuns(systems: seq<System>, steps: seq<Step>, k: nat)
    requires Chain(systems, steps) && k <= |steps|
    ensures Run(steps[..k]) == systems[k] && FreshIds(steps[..k])
  {
    if k > 0 {
      ChainRuns(systems, steps, k - 1);
      assert steps[..k][..k - 1] == steps[..k - 1];
      assert Linked(systems, steps, k - 1);
    }
  }

  function Registrations(first: Handler, plain: Handler): System {
    System(map[0 := GatewayState(60, 16, map[plain.id := plain], Some({plain.id}))], Store([], []), [], [],
           [RegisterDelegated(0, first), Register(0, plain)])
  }

  function Empty(): System {
    System(map[], Store([], []), [], [], [])
  }

  function Opened(): System {
    Empty().(gateways := map[0 := GatewayState(60, 16, map[], Some({}))])
  }

  function FirstOnly(first: Handler): System {
    Empty().(gateways := map[0 := GatewayState(60, 16, map[first.id := first], Some({first.id}))],
             trace := [RegisterDelegated(0, first)])
  }

  lemma OpenApplied(first: Handler, plain: Handler, call: Call, step: Step)
    requires step == ReplacingRun(first, plain, call)[0]
    ensures Apply(Empty(), step) == Opened()
  {
  }

  lemma FirstApplied(first: Handler, plain: Handler, call: Call, step: Step)
    requires first.id != "" && first.version != "" && step == ReplacingRun(first, plain, call)[1]
    ensures Apply(Opened(), step) == FirstOnly(first)
  {
    assert {} + {first.id} == {first.id};
  }

  lemma PlainApplied(first: Handler, plain: Handler, call: Call, step: Step)
    requires first.id == plain.id != "" && plain.version != "" && step == ReplacingRun(first, plain, call)[2]
    ensures Apply(FirstOnly(first), step) == Registrations(first, plain)
  {
    assert map[first.id := first][plain.id := plain] == map[plain.id := plain];
  }

  lemma NothingPruned(d: Dict<Receipt>, now: real)
    requires d == [] || (|d| == 1 && now < d[0].1.expiresAt)
    ensures Pruned(Store(d, []), now, 16) == Store(d, [])
  {
    assert DropExpired(d, Usable(now)) == d by {
      assert d != [] ==> d[1..] == [] && [d[0]] + [] == d;
    }
    assert SortBy(OlderFirst, d)[..0] == [];
  }

  /** The receipt of a delegated call: no confirmation is asked for. */
  lemma DelegatedReceipt(plain: Handler, call: Call) returns (d: Draft, r: Receipt)
    requires DelegatedCall(call, plain)
    ensures Repeated(d, r, plain, call)
  {
    var gs := GatewayState(60, 16, map[plain.id := plain], Some({plain.id}));
    d := Validated(gs, call.registry, call.capability, call.params, call.context).value;
    r := Issued(gs, d, call.id, "", "", call.now).value;
    assert Recalled(call.registry, r, call.capability, call.params) == Ok((d.spec, d.argsHash));
    assert Rebound(gs, r, d.spec, call.context) == Ok(d.handler);
    assert Unapproved(gs, r, d.spec, call.context, "").None?;
  }

  /** The check passes, for an R3 capability without confirmation, and hands over this handler. */
  ghost predicate Unconfirmed(ticket: Result<Ticket, Error>, r: Receipt, handler: Handler) {
    && ticket.Ok? && ticket.value.receipt == r && ticket.value.handler == handler
    && ticket.value.spec.risk == R3 && !Confirmed(ticket.value)
  }

  ghost predicate Repeated(d: Draft, r: Receipt, plain: Handler, call: Call) {
    var gs := GatewayState(60, 16, map[plain.id := plain], Some({plain.id}));
    && Validated(gs, call.registry, call.capability, call.params, call.context) == Ok(d)
    && Issued(gs, d, call.id, "", "", call.now) == Ok(r)
    && r.id == call.id && call.now == r.createdAt < r.expiresAt
    && Unconfirmed(Checked(gs, call.registry, r, call.capability, call.params, call.context, "", call.now), r, plain)
  }

  function Held(s: System, call: Call, d: Draft, r: Receipt): System {
    System(s.gateways, Store([(call.id, r)], []), [], [], s.trace + [Issue(0, r, d)])
  }

  lemma BeginApplied(first: Handler, plain: Handler, call: Call, step: Step, d: Draft)
    requires step == ReplacingRun(first, plain, call)[3]
    requires var gs := Registrations(first, plain).gateways[0];
             Validated(gs, call.registry, call.capability, call.params, call.context) == Ok(d)
    ensures Apply(Registrations(first, plain), step) == Registrations(first, plain).(drafts := [(0, d)])
  {
    NothingPruned([], call.now);
  }

  lemma InsertApplied(first: Handler, plain: Handler, call: Call, step: Step, d: Draft, r: Receipt)
    requires step == ReplacingRun(first, plain, call)[4]
    requires Issued(Registrations(first, plain).gateways[0], d, call.id, "", "", call.now) == Ok(r)
    requires r.id == call.id && call.now == r.createdAt < r.expiresAt
    ensures Apply(Registrations(first, plain).(drafts := [(0, d)]), step) == Held(Registrations(first, plain), call, d, r)
  {
    NothingPruned([(call.id, r)], call.now);
    assert Put([], call.id, r) == [(call.id, r)];
  }

  lemma ConsumeApplied(first: Handler, plain: Handler, call: Call, step: Step, d: Draft, r: Receipt) returns (t: Ticket, next: System)
    requires step == ReplacingRun(first, plain, call)[5] && Repeated(d, r, plain, call)
    ensures var s5 := Held(Registrations(first, plain), call, d, r);
            next == Apply(s5, step) && next.tickets == [t] && next.trace == s5.trace + [Spend(0, t)]
    ensures t.handler == plain && t.spec.risk == R3 && !Confirmed(t)
  {
    var s5 := Held(Registrations(first, plain), call, d, r);
    var check := Check(s5.gateways[0], call.registry, call.capability, call.params, call.context, "", call.now);
    assert Find(s5.store.preflights, call.id) == Some(r) && !Has(s5.store.consumed, call.id);
    t := check(r).value;
    assert Examined(s5.store, call.id, call.now, check) == Ok(t);
    next := Apply(s5, step);
  }

  /** The systems of the run, given its receipt and its last two. */
  function Systems(first: Handler, plain: Handler, call: Call, d: Draft, r: Receipt, s6: System, s7: System): seq<System> {
    var s3 := Registrations(first, plain);
    [Empty(), Opened(), FirstOnly(first), s3, s3.(drafts := [(0, d)]), Held(s3, call, d, r), s6, s7]
  }

  lemma RegistrationsLinked(first: Handler, plain: Handler, call: Call, steps: seq<Step>, systems: seq<System>, i: nat)
    requires first.id == plain.id != "" && first.version != "" && plain.version != ""
    requires steps == ReplacingRun(first, plain, call) && |systems| == 8 && i < 3
    requires systems[0] == Empty() && systems[1] == Opened() && systems[2] == FirstOnly(first)
    requires systems[3] == Registrations(first, plain)
    ensures Linked(systems, steps, i)
  {
    if i == 0 {
      OpenApplied(first, plain, call, steps[0]);
    } else if i == 1 {
      FirstApplied(first, plain, call, steps[1]);
    } else {
      PlainApplied(first, plain, call, steps[2]);
    }
  }

  lemma PreflightLinked(first: Handler, plain: Handler, call: Call, steps: seq<Step>, d: Draft, r: Receipt, systems: seq<System>, i: nat)
    requires steps == ReplacingRun(first, plain, call) && Repeated(d, r, plain, call) && |systems| == 8 && 3 <= i < 5
    requires systems[3] == Registrations(first, plain) && systems[4] == systems[3].(drafts := [(0, d)])
    requires systems[5] == Held(systems[3], call, d, r)
    ensures Linked(systems, steps, i)
  {
    if i == 3 {
      BeginApplied(first, plain, call, steps[3], d);
    } else {
      InsertApplied(first, plain, call, steps[4], d, r);
    }
  }

  lemma SystemsLinked(first: Handler, plain: Handler, call: Call, steps: seq<Step>, d: Draft, r: Receipt, systems: seq<System>, i: nat)
    requires first.id == plain.id != "" && first.version != "" && plain.version != ""
    requires steps == ReplacingRun(first, plain, call) && Repeated(d, r, plain, call) && |systems| == 8 && i < 7
    requires systems == Systems(first, plain, call, d, r, systems[6], systems[7])
    requires systems[6] == Apply(systems[5], steps[5]) && systems[7] == Apply(systems[6], steps[6])
    ensures Linked(systems, steps, i)
  {
    if i < 3 {
      RegistrationsLinked(first, plain, call, steps, systems, i);
    } else if i < 5 {
      PreflightLinked(first, plain, call, steps, d, r, systems, i);
    }
  }

  lemma SystemsChain(first: Handler, plain: Handler, call: Call, steps: seq<Step>, d: Draft, r: Receipt, systems: seq<System>)
    requires first.id == plain.id != "" && first.version != "" && plain.version != ""
    requires steps == ReplacingRun(first, plain, call) && Repeated(d, r, plain, call) && |systems| == 8
    requires systems == Systems(first, plain, call, d, r, systems[6], systems[7])
    requires systems[6] == Apply(systems[5], steps[5]) && systems[7] == Apply(systems[6], steps[6])
    ensures Chain(systems, steps)
  {
    forall i | 0 <= i < |steps| ensures Linked(systems, steps, i) {
      SystemsLinked(first, plain, call, steps, d, r, systems, i);
    }
  }

  lemma ReplacingChain(first: Handler, plain: Handler, call: Call, steps: seq<Step>) returns (t: Ticket, systems: seq<System>)
    requires first.id == plain.id != "" && first.version != "" && plain.version != ""
    requires DelegatedCall(call, plain) && steps == ReplacingRun(first, plain, call)
    ensures Chain(systems, steps) && |systems[7].trace| == 5 && systems[7].trace[4] == Execute(t)
    ensures t.handler == plain && t.spec.risk == R3 && !Confirmed(t)
  {
    var d, r := DelegatedReceipt(plain, call);
    var ticket, s6 := ConsumeApplied(first, plain, call, steps[5], d, r);
    t := ticket;
    systems := Systems(first, plain, call, d, r, s6, Apply(s6, steps[6]));
    SystemsChain(first, plain, call, steps, d, r, systems);
  }

  /** Replacing a delegated handler by a plain registration leaves its id delegated: the plain
      handler, never registered as delegated, then runs R3 without a confirmation. */
  lemma PlainHandlerInherits(first: Handler, plain: Handler, call: Call, steps: seq<Step>, last: System)
    requires first.id == plain.id != "" && first.version != "" && plain.version != ""
    requires DelegatedCall(call, plain) && steps == ReplacingRun(first, plain, call) && last == Run(steps)
    ensures FreshIds(steps) && |last.trace| == 5 && last.trace[4].Execute?
    ensures var t := last.trace[4].ticket; t.handler == plain && t.spec.risk == R3 && !Confirmed(t)
  {
    var t, systems := ReplacingChain(first, plain, call, steps);
    ChainEnds(systems, steps);
  }

  lemma ChainEnds(systems: seq<System>, steps: seq<Step>)
    requires Chain(systems, steps)
    ensures Run(steps) == systems[|steps|] && FreshIds(steps)
  {
    ChainRuns(systems, steps, |steps|);
    assert steps[..|steps|] == steps;
  }
}

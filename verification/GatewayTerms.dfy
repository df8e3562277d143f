/** What a receipt pins, what an execution repeats of its preflight, and how long a spent
    receipt is remembered, each written out field by field. */
module GatewayTerms {
  import opened Wrappers
  import opened OrderedDict
  import opened Sorting
  import opened Gateway
  import opened GatewayRuns

  // ---------------------------------------------------------------- contexts and demands

  /** The twelve context fields agree; grants as sets. */
  ghost predicate SameContext(a: Context, b: Context) {
    && a.workspace == b.workspace && a.tree == b.tree && a.session == b.session
    && a.owner == b.owner && a.task == b.task
    && a.policyRevision == b.policyRevision && a.policyDigest == b.policyDigest
    && a.leaseId == b.leaseId && (forall g :: g in a.grants <==> g in b.grants)
    && a.network == b.network && a.trustedGrant == b.trustedGrant && a.trust == b.trust
  }

  /** Two contexts are pinned alike if and only if all twelve fields agree. */
  lemma PinsExactly(a: Context, b: Context)
    ensures Pin(a) == Pin(b) <==> SameContext(a, b)
  {
    if Pin(a) == Pin(b) {
      forall g ensures g in a.grants <==> g in b.grants {
        assert g in GrantSet(a.grants) <==> g in a.grants;
      }
    }
    if SameContext(a, b) {
      assert GrantSet(a.grants) == GrantSet(b.grants);
    }
  }

  /** A context passes exactly when it meets every demand of the spec. */
  lemma MeetsExactly(spec: Spec, c: Context)
    ensures ContextError(spec, c).None? <==> Meets(spec, c)
  {
  }

  /** Which demand refuses a context: the first it misses, in this order. */
  lemma ContextRefused(spec: Spec, c: Context)
    ensures var r := ContextError(spec, c);
            var placed := spec.binding != UnknownBinding && (spec.binding == Required ==> c.workspace != "" && c.tree != "");
            var bound := placed && (spec.sessionRequired ==> c.session != "");
            var ruled := bound && c.policyRevision != "" && IsSha256(c.policyDigest);
            var leased := ruled && (spec.leaseRequired ==> c.leaseId != "");
            var named := leased && "" !in c.grants;
            var granted := named && forall g :: g in spec.credentials ==> g in c.grants;
            var connected := granted && (spec.networkRequired ==> c.network);
            && (r == Some(WorkspacePolicyInvalid) <==> spec.binding == UnknownBinding)
            && (r == Some(WorkspaceRequired) <==> spec.binding == Required && !placed)
            && (r == Some(SessionRequired) <==> placed && !bound)
            && (r == Some(PolicyContextInvalid) <==> bound && !ruled)
            && (r == Some(LeaseRequired) <==> ruled && !leased)
            && (r == Some(CredentialInvalid) <==> leased && !named)
            && (r == Some(CredentialRequired) <==> named && !granted)
            && (r == Some(NetworkRequired) <==> granted && !connected)
            && (r == Some(TrustInvalid) <==> connected && c.trust == UnknownTrust)
            && (r == Some(TrustedGrantRequired) <==>
                  connected && c.trust != UnknownTrust && spec.policy == TrustedSessionGrant && c.trustedGrant == "")
  {
  }

  lemma HexDigit(c: char)
    ensures c in "0123456789abcdef" <==> '0' <= c <= '9' || 'a' <= c <= 'f'
  {
    var digits := "0123456789abcdef";
    if '0' <= c <= '9' {
      assert digits[c as int - '0' as int] == c;
    }
    if 'a' <= c <= 'f' {
      assert digits[c as int - 'a' as int + 10] == c;
    }
  }

  /** A policy digest has 64 hexadecimal digits, in lower case. */
  lemma DigestExactly(s: string)
    ensures IsSha256(s) <==> |s| == 64 && forall i :: 0 <= i < |s| ==> s[i] in "0123456789abcdef"
  {
    forall c: char ensures c in "0123456789abcdef" <==> '0' <= c <= '9' || 'a' <= c <= 'f' {
      HexDigit(c);
    }
  }

  // ---------------------------------------------------------------- registration

  /** Handlers need an id and a version, and an id is taken over only with `replace`; no other handler
      changes, and the delegated ids only by a delegated registration, which adds its own. */
  lemma RegisteredExactly(g: GatewayState, h: Handler, replace: bool)
    ensures var r := Gateway.Registered(g, h, replace);
            && (r == Err(HandlerInvalid) <==> h.id == "" || h.version == "")
            && (r == Err(HandlerDuplicate) <==> h.id != "" && h.version != "" && h.id in g.handlers && !replace)
            && (r.Err? ==> r.error in {HandlerInvalid, HandlerDuplicate})
            && (r.Ok? ==> Takes(g, h, r.value) && r.value.delegated == g.delegated)
    ensures g.delegated.Some? ==>
              var r := RegisteredDelegated(g, h, replace);
              && (r.Ok? <==> Gateway.Registered(g, h, replace).Ok?)
              && (r.Err? ==> r.error == Gateway.Registered(g, h, replace).error)
              && (r.Ok? ==> Takes(g, h, r.value) && r.value.delegated.Some?
                            && forall k :: k in r.value.delegated.value <==> k in g.delegated.value || k == h.id)
  {
  }

  ghost predicate Takes(g: GatewayState, h: Handler, next: GatewayState) {
    && next.ttl == g.ttl && next.maxPreflights == g.maxPreflights
    && (forall k :: k in next.handlers <==> k in g.handlers || k == h.id)
    && (forall k :: k in next.handlers ==> next.handlers[k] == if k == h.id then h else g.handlers[k])
  }

  // ---------------------------------------------------------------- approval

  /** Which capabilities run without a confirmation. */
  ghost predicate Unconfirmed(g: GatewayState, spec: Spec, c: Context) {
    || (spec.policy in {NoApproval, Automatic} && spec.risk in {R0, R1})
    || (spec.policy == TrustedSessionGrant && spec.risk == R2)
    || (spec.policy == WorkspaceTrust && spec.risk in {R1, R2} && c.trust == TrustedDevelopment)
    || (spec.policy == Delegated && spec.risk in {R1, R2, R3} && g.delegated.Some? && spec.handler in g.delegated.value)
  }

  /** Which capabilities run with one. */
  ghost predicate Confirmable(spec: Spec, c: Context) {
    || (spec.policy in {Human, Explicit} && spec.risk != UnknownRisk)
    || (spec.policy == WorkspaceTrust && spec.risk in {R1, R2} && c.trust == Standard)
  }

  /** Everything else is refused. */
  lemma ApprovalExactly(g: GatewayState, spec: Spec, c: Context)
    ensures ApprovalInContext(g, spec, c) == Ok(false) <==> Unconfirmed(g, spec, c)
    ensures ApprovalInContext(g, spec, c) == Ok(true) <==> Confirmable(spec, c)
  {
  }

  /** Why a capability may not run at all: its policy, its risk class, or the trust it names. */
  lemma ApprovalRefused(g: GatewayState, spec: Spec, c: Context)
    ensures var r := ApprovalInContext(g, spec, c);
            var trusting := spec.policy == WorkspaceTrust;
            var delegating := spec.policy == Delegated && g.delegated.Some?;
            var plain := !trusting && !delegating;
            && (r == Err(RiskInvalid) <==> plain && spec.risk == UnknownRisk)
            && (r == Err(TrustInvalid) <==> trusting && spec.risk in {R1, R2} && c.trust == UnknownTrust)
            && (r == Err(DelegationInvalid) <==>
                  delegating && spec.risk in {R1, R2, R3} && spec.handler !in g.delegated.value)
            && (r == Err(ApprovalPolicyInvalid) <==>
                  plain && spec.risk != UnknownRisk && (spec.policy == UnknownPolicy || spec.policy == Delegated))
            && (r == Err(RiskPolicyInvalid) <==>
                  || (trusting && spec.risk !in {R1, R2}) || (delegating && spec.risk !in {R1, R2, R3})
                  || (spec.policy in {NoApproval, Automatic} && spec.risk in {R2, R3})
                  || (spec.policy == TrustedSessionGrant && spec.risk in {R0, R1, R3}))
  {
  }

  // ---------------------------------------------------------------- preflight

  /** What a preflight accepts: a registered capability with valid arguments, a context that
      meets its demands, and a registered handler of the version it names. */
  lemma ValidatedExactly(g: GatewayState, reg: Registry, capability: string, params: string, c: Context)
    ensures Validated(g, reg, capability, params, c).Ok?
            <==> && capability in reg.specs && reg.normalize(capability, params).Some?
                 && var spec := reg.specs[capability];
                 && Meets(spec, c) && spec.handler in g.handlers && g.handlers[spec.handler].version == spec.handlerVersion
    ensures Validated(g, reg, capability, params, c).Ok? ==>
              var d := Validated(g, reg, capability, params, c).value;
              && d.capability == capability && d.spec == reg.specs[capability] && d.context == c
              && d.argsHash == Sha256(reg.normalize(capability, params).value)
              && d.handler == g.handlers[d.spec.handler]
  {
  }

  lemma HandlerForExactly(g: GatewayState, spec: Spec)
    ensures HandlerFor(g, spec) == Err(HandlerUnavailable) <==> spec.handler !in g.handlers
    ensures HandlerFor(g, spec) == Err(HandlerVersionChanged)
            <==> spec.handler in g.handlers && g.handlers[spec.handler].version != spec.handlerVersion
    ensures HandlerFor(g, spec).Ok? ==> spec.handler in g.handlers && HandlerFor(g, spec).value == g.handlers[spec.handler]
    ensures HandlerFor(g, spec).Err? ==> HandlerFor(g, spec).error in {HandlerUnavailable, HandlerVersionChanged}
  {
  }

  /** Why a preflight is refused: the capability, its arguments, the context, the handler, in this order. */
  lemma ValidatedRefused(g: GatewayState, reg: Registry, capability: string, params: string, c: Context)
    requires Validated(g, reg, capability, params, c).Err?
    ensures var error := Validated(g, reg, capability, params, c).error;
            if capability !in reg.specs then error == UnknownCapability
            else if reg.normalize(capability, params).None? then error == BadParams
            else if !Meets(reg.specs[capability], c) then ContextError(reg.specs[capability], c) == Some(error)
            else HandlerFor(g, reg.specs[capability]) == Err(error)
  {
    if capability in reg.specs {
      MeetsExactly(reg.specs[capability], c);
    }
  }

  /** What a receipt says of the preflight it was issued for. */
  ghost predicate Issues(ttl: nat, d: Draft, r: Receipt) {
    && r.capability == d.spec.id && r.version == d.spec.version && r.argsHash == d.argsHash
    && (forall c :: Pin(c) == r.pinned <==> SameContext(c, d.context))
    && r.handler == d.spec.handler && r.handlerVersion == d.handler.version
    && r.risk == d.spec.risk && r.policy == d.spec.policy
    && (r.approvalRequired ==> "EXECUTE_CAPABILITY:" + d.capability + ":" <= r.confirmation)
    && (!r.approvalRequired ==> r.confirmation == "")
    && r.expiresAt == r.createdAt + ttl as real
  }

  /** A receipt is issued exactly when the capability may run with or without a confirmation. */
  lemma IssuedExactly(g: GatewayState, d: Draft, id: string, token: string, handlerState: string, now: real)
    ensures Issued(g, d, id, token, handlerState, now).Ok?
            <==> Unconfirmed(g, d.spec, d.context) || Confirmable(d.spec, d.context)
    ensures Issued(g, d, id, token, handlerState, now).Ok? ==>
              var r := Issued(g, d, id, token, handlerState, now).value;
              && Issues(g.ttl, d, r) && r.id == id && r.createdAt == now && r.handlerState == handlerState
              && (r.approvalRequired <==> Confirmable(d.spec, d.context))
              && (r.approvalRequired ==> r.confirmation == "EXECUTE_CAPABILITY:" + d.capability + ":" + token)
  {
    ApprovalExactly(g, d.spec, d.context);
    if Issued(g, d, id, token, handlerState, now).Ok? {
      var r := Issued(g, d, id, token, handlerState, now).value;
      forall c ensures Pin(c) == r.pinned <==> SameContext(c, d.context) {
        PinsExactly(c, d.context);
      }
    }
  }

  // ---------------------------------------------------------------- execute

  /** The pinned fields are those of the context. */
  ghost predicate PinnedAs(p: Pinned, c: Context) {
    && p.workspace == c.workspace && p.tree == c.tree && p.session == c.session
    && p.owner == c.owner && p.task == c.task
    && p.policyRevision == c.policyRevision && p.policyDigest == c.policyDigest
    && p.leaseId == c.leaseId && (forall g :: g in p.grants <==> g in c.grants)
    && p.network == c.network && p.trustedGrant == c.trustedGrant && p.trust == c.trust
  }

  lemma PinnedExactly(p: Pinned, c: Context)
    ensures Pin(c) == p <==> PinnedAs(p, c)
  {
    if PinnedAs(p, c) {
      assert GrantSet(c.grants) == p.grants;
    }
  }

  /** The capability and its arguments are still those of the receipt. */
  ghost predicate SameCall(reg: Registry, r: Receipt, capability: string, params: string) {
    && capability == r.capability && capability in reg.specs && reg.specs[capability].version == r.version
    && reg.normalize(capability, params).Some? && Sha256(reg.normalize(capability, params).value) == r.argsHash
  }

  /** The handler now registered is still the receipt's. */
  ghost predicate SameHandler(g: GatewayState, r: Receipt, spec: Spec) {
    && spec.handler in g.handlers && g.handlers[spec.handler].id == r.handler
    && g.handlers[spec.handler].version == spec.handlerVersion == r.handlerVersion
  }

  /** The same approval is called for as at the preflight, and it was given. */
  ghost predicate Approved(g: GatewayState, r: Receipt, spec: Spec, c: Context, confirmation: string) {
    && spec.policy == r.policy
    && if r.approvalRequired then Confirmable(spec, c) && confirmation == r.confirmation else Unconfirmed(g, spec, c)
  }

  lemma RecalledExactly(reg: Registry, r: Receipt, capability: string, params: string)
    ensures Recalled(reg, r, capability, params).Ok? <==> SameCall(reg, r, capability, params)
    ensures Recalled(reg, r, capability, params).Ok? ==>
              Recalled(reg, r, capability, params).value == (reg.specs[capability], r.argsHash)
  {
  }

  lemma ReboundExactly(g: GatewayState, r: Receipt, spec: Spec, c: Context)
    ensures Rebound(g, r, spec, c).Ok? <==> Meets(spec, c) && PinnedAs(r.pinned, c) && SameHandler(g, r, spec)
    ensures Rebound(g, r, spec, c).Ok? ==> Rebound(g, r, spec, c).value == g.handlers[spec.handler]
  {
    MeetsExactly(spec, c);
    PinnedExactly(r.pinned, c);
  }

  lemma ApprovedExactly(g: GatewayState, r: Receipt, spec: Spec, c: Context, confirmation: string)
    ensures Unapproved(g, r, spec, c, confirmation).None? <==> Approved(g, r, spec, c, confirmation)
  {
    ApprovalExactly(g, spec, c);
  }

  /** The checks of an execution pass exactly when the call, the context, the handler and the
      approval are the receipt's; the ticket is of this call. */
  lemma CheckedExactly(g: GatewayState, reg: Registry, r: Receipt, capability: string, params: string,
                       c: Context, confirmation: string, now: real)
    ensures Checked(g, reg, r, capability, params, c, confirmation, now).Ok?
            <==> && SameCall(reg, r, capability, params)
                 && var spec := reg.specs[capability];
                 && Meets(spec, c) && PinnedAs(r.pinned, c) && SameHandler(g, r, spec)
                 && Approved(g, r, spec, c, confirmation)
    ensures Checked(g, reg, r, capability, params, c, confirmation, now).Ok? ==>
              var spec := reg.specs[capability];
              Checked(g, reg, r, capability, params, c, confirmation, now).value
              == Ticket(r, capability, spec, r.argsHash, c, g.handlers[spec.handler],
                        g.delegated.Some? && spec.handler in g.delegated.value, confirmation, now)
  {
    RecalledExactly(reg, r, capability, params);
    if SameCall(reg, r, capability, params) {
      ReboundExactly(g, r, reg.specs[capability], c);
      ApprovedExactly(g, r, reg.specs[capability], c, confirmation);
    }
  }

  /** Why a call is not the receipt's. */
  lemma RecalledRefused(reg: Registry, r: Receipt, capability: string, params: string)
    ensures var e := Recalled(reg, r, capability, params);
            var same := capability == r.capability;
            var known := same && capability in reg.specs;
            var valid := known && reg.normalize(capability, params).Some?;
            && (e == Err(CapabilityChanged) <==> !same) && (e == Err(UnknownCapability) <==> same && !known)
            && (e == Err(BadParams) <==> known && !valid)
            && (e == Err(VersionChanged) <==> valid && reg.specs[capability].version != r.version)
            && (e == Err(ArgsChanged) <==>
                  valid && reg.specs[capability].version == r.version
                  && Sha256(reg.normalize(capability, params).value) != r.argsHash)
  {
  }

  /** Why context or handler are not the receipt's. */
  lemma ReboundRefused(g: GatewayState, r: Receipt, spec: Spec, c: Context)
    requires Rebound(g, r, spec, c).Err?
    ensures var error := Rebound(g, r, spec, c).error;
            if !Meets(spec, c) then ContextError(spec, c) == Some(error)
            else if !PinnedAs(r.pinned, c) then error == ContextChanged
            else if spec.handler !in g.handlers then error == HandlerUnavailable
            else if g.handlers[spec.handler].version != spec.handlerVersion || spec.handlerVersion != r.handlerVersion then
              error == HandlerVersionChanged
            else error == HandlerChanged
  {
    MeetsExactly(spec, c);
    PinnedExactly(r.pinned, c);
    HandlerForExactly(g, spec);
  }

  /** Why an execution is refused: the call, then context and handler, then the approval. */
  lemma CheckedRefused(g: GatewayState, reg: Registry, r: Receipt, capability: string, params: string,
                       c: Context, confirmation: string, now: real)
    requires Checked(g, reg, r, capability, params, c, confirmation, now).Err?
    ensures var error := Checked(g, reg, r, capability, params, c, confirmation, now).error;
            if !SameCall(reg, r, capability, params) then Recalled(reg, r, capability, params) == Err(error)
            else
              var spec := reg.specs[capability];
              if Rebound(g, r, spec, c).Err? then Rebound(g, r, spec, c) == Err(error)
              else if ApprovalInContext(g, spec, c).Err? then ApprovalInContext(g, spec, c) == Err(error)
              else if ApprovalInContext(g, spec, c) != Ok(r.approvalRequired) || spec.policy != r.policy then error == PolicyChanged
              else error == ApprovalRequired
  {
    RecalledExactly(reg, r, capability, params);
  }

  // ---------------------------------------------------------------- every receipt of a run

  /** What a preflight had validated when it was drafted. */
  ghost predicate Sane(d: Draft) {
    Meets(d.spec, d.context) && d.handler.version == d.spec.handlerVersion
  }

  ghost predicate IssueTermed(gateways: map<nat, GatewayState>, e: Event) {
    e.Issue? ==>
      && e.gateway in gateways && Issues(gateways[e.gateway].ttl, e.draft, e.receipt) && Sane(e.draft)
      && 60 <= gateways[e.gateway].ttl <= 1800
  }

  ghost predicate Termed(sys: System) {
    && (forall g :: g in sys.gateways ==> 60 <= sys.gateways[g].ttl <= 1800)
    && (forall i :: 0 <= i < |sys.drafts| ==> sys.drafts[i].0 in sys.gateways && Sane(sys.drafts[i].1))
    && (forall i :: 0 <= i < |sys.trace| ==> IssueTermed(sys.gateways, sys.trace[i]))
  }

  /** No gateway goes away or changes its lifetime of receipts. */
  ghost predicate SameTtls(sys: System, next: System) {
    && (forall g :: g in sys.gateways ==> g in next.gateways && next.gateways[g].ttl == sys.gateways[g].ttl)
    && (forall g :: g in next.gateways ==> 60 <= next.gateways[g].ttl <= 1800)
  }

  lemma GrowsTermed(sys: System, next: System, events: seq<Event>)
    requires Termed(sys) && SameTtls(sys, next) && next.trace == sys.trace + events
    requires forall i :: 0 <= i < |events| ==> IssueTermed(next.gateways, events[i])
    requires forall i :: 0 <= i < |next.drafts| ==> next.drafts[i].0 in next.gateways && Sane(next.drafts[i].1)
    ensures Termed(next)
  {
    forall i | 0 <= i < |next.trace| ensures IssueTermed(next.gateways, next.trace[i]) {
      if i < |sys.trace| {
        assert IssueTermed(sys.gateways, sys.trace[i]) && next.trace[i] == sys.trace[i];
      } else {
        assert next.trace[i] == events[i - |sys.trace|];
      }
    }
  }

  lemma WithoutSane(drafts: seq<(nat, Draft)>, gateways: map<nat, GatewayState>, i: nat)
    requires i < |drafts| && forall k :: 0 <= k < |drafts| ==> drafts[k].0 in gateways && Sane(drafts[k].1)
    ensures var rest := Without(drafts, i);
            forall k :: 0 <= k < |rest| ==> rest[k].0 in gateways && Sane(rest[k].1)
  {
    var rest := Without(drafts, i);
    assert forall k :: 0 <= k < |rest| ==> rest[k] == if k < i then drafts[k] else drafts[k + 1];
  }

  lemma RegisterTermed(sys: System, next: System, g: nat, state: Result<GatewayState, Error>, e: Event)
    requires Termed(sys) && g in sys.gateways && !e.Issue? && next == Registering(sys, g, state, e)
    requires state.Ok? ==> state.value.ttl == sys.gateways[g].ttl
    ensures Termed(next)
  {
    if state.Ok? {
      GrowsTermed(sys, next, [e]);
    }
  }

  lemma InsertTermed(sys: System, i: nat, id: string, token: string, handlerState: string, now: real, next: System)
    requires Termed(sys) && next == Apply(sys, Insert(i, id, token, handlerState, now))
    ensures Termed(next)
  {
    if i < |sys.drafts| {
      var (g, d) := sys.drafts[i];
      var r := Issued(sys.gateways[g], d, id, token, handlerState, now);
      WithoutSane(sys.drafts, sys.gateways, i);
      IssuedExactly(sys.gateways[g], d, id, token, handlerState, now);
      GrowsTermed(sys, next, if r.Ok? then [Issue(g, r.value, d)] else []);
    }
  }

  lemma BeginTermed(sys: System, g: nat, reg: Registry, capability: string, params: string, c: Context, now: real, next: System)
    requires Termed(sys) && next == Apply(sys, Begin(g, reg, capability, params, c, now))
    ensures Termed(next)
  {
    if g in sys.gateways {
      ValidatedExactly(sys.gateways[g], reg, capability, params, c);
      GrowsTermed(sys, next, []);
    }
  }

  lemma ConsumeTermed(sys: System, g: nat, id: string, check: Receipt -> Result<Ticket, Error>, until: real, now: real,
                      maxPreflights: nat, next: System)
    requires Termed(sys) && next == Consumed(sys, g, id, check, until, now, maxPreflights)
    ensures Termed(next)
  {
    var ticket := Examined(sys.store, id, now, check);
    GrowsTermed(sys, next, if ticket.Ok? then [Spend(g, ticket.value)] else []);
  }

  lemma ApplyTermed(sys: System, step: Step, next: System)
    requires Termed(sys) && next == Apply(sys, step)
    ensures Termed(next)
  {
    match step
    case Open(g, ttl, maxPreflights, delegating) => GrowsTermed(sys, next, []);
    case AddHandler(g, h, replace) =>
      if g in sys.gateways {
        RegisterTermed(sys, next, g, Gateway.Registered(sys.gateways[g], h, replace), Register(g, h));
      }
    case AddDelegatedHandler(g, h, replace) =>
      if g in sys.gateways && sys.gateways[g].delegated.Some? {
        RegisterTermed(sys, next, g, RegisteredDelegated(sys.gateways[g], h, replace), RegisterDelegated(g, h));
      }
    case Begin(g, reg, capability, params, context, now) => BeginTermed(sys, g, reg, capability, params, context, now, next);
    case Insert(i, id, token, handlerState, now) => InsertTermed(sys, i, id, token, handlerState, now, next);
    case Abandon(i) =>
      if i < |sys.drafts| {
        WithoutSane(sys.drafts, sys.gateways, i);
        GrowsTermed(sys, next, []);
      }
    case Consume(g, reg, id, capability, params, context, confirmation, now) =>
      if g in sys.gateways {
        var gs := sys.gateways[g];
        ConsumeTermed(sys, g, id, Check(gs, reg, capability, params, context, confirmation, now),
                      ReplayUntil(gs.ttl, now), now, gs.maxPreflights, next);
      }
    case RunHandler(i) =>
      if i < |sys.tickets| {
        GrowsTermed(sys, next, [Execute(sys.tickets[i])]);
      }
  }

  lemma {:induction false} RunTermed(steps: seq<Step>, sys: System)
    requires sys == Run(steps)
    ensures Termed(sys)
  {
    if steps != [] {
      var n := |steps| - 1;
      RunTermed(steps[..n], Run(steps[..n]));
      ApplyTermed(Run(steps[..n]), steps[n], sys);
    }
  }

  /** The execution repeats its preflight: the capability and its version, the arguments, the twelve
      context fields, the handler and its version, and the approval policy; it comes before the
      receipt's lifetime ends, confirmed where that was asked for; and the capability's demands are met. */
  ghost predicate Repeats(ttl: nat, d: Draft, r: Receipt, t: Ticket) {
    && t.receipt == r && t.capability == d.spec.id && t.spec.version == d.spec.version && t.argsHash == d.argsHash
    && SameContext(t.context, d.context)
    && t.handler.id == d.spec.handler && t.handler.version == t.spec.handlerVersion == d.handler.version
    && t.spec.policy == d.spec.policy && t.at < r.createdAt + ttl as real
    && (r.approvalRequired ==> t.confirmation == r.confirmation && "EXECUTE_CAPABILITY:" + d.capability + ":" <= t.confirmation)
    && Meets(t.spec, t.context) && Meets(d.spec, d.context)
  }

  /** In every interleaving, each execution repeats an earlier preflight of the trace, field by field. */
  lemma ExecutionRepeatsPreflight(steps: seq<Step>, sys: System, j: nat)
    requires FreshIds(steps) && sys == Run(steps) && j < |sys.trace| && sys.trace[j].Execute?
    ensures exists i :: 0 <= i < j && sys.trace[i].Issue? && sys.trace[i].gateway in sys.gateways
              && Repeats(sys.gateways[sys.trace[i].gateway].ttl, sys.trace[i].draft, sys.trace[i].receipt, sys.trace[j].ticket)
  {
    RunTermed(steps, sys);
    ExecutionsMatched(steps, j);
    var t := sys.trace[j].ticket;
    var i :| 0 <= i < j && sys.trace[i].Issue? && sys.trace[i].receipt == t.receipt;
    var e := sys.trace[i];
    assert IssueTermed(sys.gateways, e);
    assert Repeats(sys.gateways[e.gateway].ttl, e.draft, e.receipt, t);
  }

  // ---------------------------------------------------------------- replay

  ghost predicate Marked(s: Store, id: string, until: real) {
    (id, until) in s.consumed
  }

  /** The clock that a step reads, if it prunes, shows a time before the deadline. */
  ghost predicate Before(step: Step, deadline: real) {
    && (step.Begin? ==> step.now < deadline) && (step.Insert? ==> step.now < deadline)
    && (step.Consume? ==> step.now < deadline)
  }

  lemma PutKeeps<V>(d: Dict<V>, k: string, v: V, x: (string, V))
    requires x in d && x.0 != k
    ensures x in Put(d, k, v)
  {
    var j :| 0 <= j < |d| && d[j] == x;
    assert Put(d, k, v)[j] == x;
  }

  lemma PutStored<V>(d: Dict<V>, k: string, v: V)
    ensures (k, v) in Put(d, k, v)
  {
    assert Put(d, k, v)[IndexOf(d, k)] == (k, v);
  }

  /** Pruning forgets exactly the replay marks whose time has come. */
  lemma PrunedMarks(s: Store, now: real, maxPreflights: nat)
    ensures forall x :: x in Pruned(s, now, maxPreflights).consumed <==> x in s.consumed && now < x.1
  {
  }

  lemma MarkedIsReplay(s: Store, id: string, until: real, now: real)
    requires Marked(s, id, until)
    ensures Lookup(s, id, now) == Err(Replay)
  {
    HasMember(s.consumed, (id, until));
  }

  lemma ConsumeKeepsMark(sys: System, g: nat, id: string, check: Receipt -> Result<Ticket, Error>, until: real, now: real,
                         maxPreflights: nat, spent: string, deadline: real)
    requires Marked(sys.store, spent, deadline) && now < deadline
    ensures Marked(Consumed(sys, g, id, check, until, now, maxPreflights).store, spent, deadline)
  {
    MarkedIsReplay(sys.store, spent, deadline, now);
    if id != spent {
      PutKeeps(sys.store.consumed, id, until, (spent, deadline));
      PrunedMarks(Store(Remove(sys.store.preflights, id), Put(sys.store.consumed, id, until)), now, maxPreflights);
    }
  }

  lemma ApplyKeepsMark(sys: System, step: Step, next: System, id: string, deadline: real)
    requires Marked(sys.store, id, deadline) && Before(step, deadline) && next == Apply(sys, step)
    ensures Marked(next.store, id, deadline)
  {
    match step
    case Begin(g, reg, capability, params, context, now) =>
      if g in sys.gateways {
        PrunedMarks(sys.store, now, sys.gateways[g].maxPreflights);
      }
    case Insert(i, newId, token, handlerState, now) =>
      if i < |sys.drafts| && sys.drafts[i].0 in sys.gateways {
        var (g, d) := sys.drafts[i];
        var r := Issued(sys.gateways[g], d, newId, token, handlerState, now);
        if r.Ok? {
          PrunedMarks(sys.store.(preflights := Put(sys.store.preflights, newId, r.value)), now, sys.gateways[g].maxPreflights);
        }
      }
    case Consume(g, reg, other, capability, params, context, confirmation, now) =>
      if g in sys.gateways {
        var gs := sys.gateways[g];
        ConsumeKeepsMark(sys, g, other, Check(gs, reg, capability, params, context, confirmation, now),
                         ReplayUntil(gs.ttl, now), now, gs.maxPreflights, id, deadline);
      }
    case _ =>
  }

  lemma {:induction false} RunKeepsMark(before: seq<Step>, later: seq<Step>, id: string, deadline: real)
    requires Marked(Run(before).store, id, deadline) && forall i :: 0 <= i < |later| ==> Before(later[i], deadline)
    ensures Marked(Run(before + later).store, id, deadline)
    decreases |later|
  {
    if later == [] {
      assert before + later == before;
    } else {
      var n := |later| - 1;
      var init := before + later[..n];
      assert before + later == init + [later[n]];
      RunKeepsMark(before, later[..n], id, deadline);
      RunNext(init, later[n], before + later);
      ApplyKeepsMark(Run(init), later[n], Run(before + later), id, deadline);
    }
  }

  /** How long a spent receipt is remembered: twice the lifetime of receipts, at least ten minutes. */
  ghost predicate RememberedUntil(ttl: nat, now: real, deadline: real) {
    && deadline >= now + 600.0 && deadline >= now + 2.0 * ttl as real
    && (deadline == now + 600.0 || deadline == now + 2.0 * ttl as real)
  }

  lemma ReplayUntilExactly(ttl: nat, now: real, deadline: real)
    ensures RememberedUntil(ttl, now, deadline) <==> deadline == ReplayUntil(ttl, now)
  {
  }

  lemma SpentIsMarked(sys: System, g: nat, id: string, check: Receipt -> Result<Ticket, Error>, until: real, now: real, maxPreflights: nat)
    requires Examined(sys.store, id, now, check).Ok? && now < until
    ensures Marked(Consumed(sys, g, id, check, until, now, maxPreflights).store, id, until)
  {
    PutStored(sys.store.consumed, id, until);
    PrunedMarks(Store(Remove(sys.store.preflights, id), Put(sys.store.consumed, id, until)), now, maxPreflights);
  }

  /** The attempt passes every check, and its receipt is to be remembered until the deadline. */
  ghost predicate Passes(sys: System, step: Step, deadline: real) {
    && step.Consume? && step.gateway in sys.gateways
    && var gs := sys.gateways[step.gateway];
    && RememberedUntil(gs.ttl, step.now, deadline)
    && Examined(sys.store, step.id, step.now,
                Check(gs, step.registry, step.capability, step.params, step.context, step.confirmation, step.now)).Ok?
  }

  lemma PassedIsMarked(sys: System, step: Step, deadline: real, next: System)
    requires Passes(sys, step, deadline) && next == Apply(sys, step)
    ensures Marked(next.store, step.id, deadline)
  {
    var gs := sys.gateways[step.gateway];
    ReplayUntilExactly(gs.ttl, step.now, deadline);
    SpentIsMarked(sys, step.gateway, step.id,
                  Check(gs, step.registry, step.capability, step.params, step.context, step.confirmation, step.now),
                  deadline, step.now, gs.maxPreflights);
  }

  lemma RunNext(steps: seq<Step>, step: Step, all: seq<Step>)
    requires all == steps + [step]
    ensures Run(all) == Apply(Run(steps), step)
  {
    assert all[..|all| - 1] == steps;
  }

  /** In every run, a receipt once spent is answered as a replay by every gateway of the store, as
      long as no step in between reads a clock at or past the time until which it is remembered. */
  lemma ReplayIsRefused(before: seq<Step>, step: Step, later: seq<Step>, deadline: real, now: real)
    requires Passes(Run(before), step, deadline)
    requires forall i :: 0 <= i < |later| ==> Before(later[i], deadline)
    ensures Lookup(Run(before + [step] + later).store, step.id, now) == Err(Replay)
  {
    var first := before + [step];
    RunNext(before, step, first);
    PassedIsMarked(Run(before), step, deadline, Run(first));
    RunKeepsMark(first, later, step.id, deadline);
    MarkedIsReplay(Run(first + later).store, step.id, deadline, now);
  }

  /** A receipt is found exactly when it is held, unspent and before its end. */
  lemma LookupExactly(s: Store, id: string, now: real, r: Receipt)
    requires GatewayRuns.Keyed(s.preflights)
    ensures Lookup(s, id, now) == Ok(r)
            <==> (id, r) in s.preflights && now < r.expiresAt && forall x :: x in s.consumed ==> x.0 != id
    ensures Lookup(s, id, now) == Err(Replay) <==> exists x :: x in s.consumed && x.0 == id
    ensures Lookup(s, id, now) == Err(ExpiredReceipt) && (id, r) in s.preflights ==> r.expiresAt <= now
    ensures Lookup(s, id, now) == Err(NotFound) ==> forall x :: x in s.preflights ==> x.0 != id
    ensures Lookup(s, id, now).Err? ==> Lookup(s, id, now).error in {Replay, ExpiredReceipt, NotFound}
  {
    if Find(s.preflights, id).None? {
      forall x | x in s.preflights ensures x.0 != id {
        HasMember(s.preflights, x);
      }
    }
    FindMember(s.preflights, id, r);
    if Has(s.consumed, id) {
      assert s.consumed[IndexOf(s.consumed, id)] in s.consumed;
    } else {
      forall x | x in s.consumed ensures x.0 != id {
        HasMember(s.consumed, x);
      }
    }
  }
}

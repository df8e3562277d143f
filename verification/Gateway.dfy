/** The capability gateway as values: receipts, the shared preflight store, the checks of
    preflight and execute, and the approval policy of the plain and delegated gateways. */
module Gateway {
  import opened Wrappers
  import opened OrderedDict
  import opened Sorting

  datatype Risk = R0 | R1 | R2 | R3 | UnknownRisk

  datatype Policy =
    | NoApproval | Automatic | Human | Explicit | TrustedSessionGrant
    | WorkspaceTrust | Delegated | UnknownPolicy

  datatype Trust = Standard | TrustedDevelopment | UnknownTrust

  datatype Binding = Unbound | Required | UnknownBinding

  datatype Spec = Spec(
    id: string, version: string, handler: string, handlerVersion: string, risk: Risk,
    policy: Policy, binding: Binding, sessionRequired: bool, leaseRequired: bool,
    credentials: set<string>, networkRequired: bool)

  /** The registry as one call finds it: specs by id, and the normal form of valid params. */
  datatype Registry = Registry(specs: map<string, Spec>, normalize: (string, string) -> Option<string>)

  datatype Context = Context(
    workspace: string, tree: string, session: string, owner: string, task: string,
    policyRevision: string, policyDigest: string, leaseId: string, grants: seq<string>,
    network: bool, trustedGrant: string, trust: Trust)

  /** A handler object: its id, its version, and the code that it runs. */
  datatype Handler = Handler(id: string, version: string, code: string)

  /** A gateway's own state; `delegated` is absent on the plain gateway. */
  datatype GatewayState = GatewayState(
    ttl: nat, maxPreflights: nat, handlers: map<string, Handler>, delegated: Option<set<string>>)

  /** SHA-256 of normalized params, taken as injective. */
  datatype Hash = Sha256(params: string)

  /** The context fields that a receipt pins; grants as the sorted set the source keeps. */
  datatype Pinned = Pinned(
    workspace: string, tree: string, session: string, owner: string, task: string,
    policyRevision: string, policyDigest: string, leaseId: string, grants: set<string>,
    network: bool, trustedGrant: string, trust: Trust)

  datatype Receipt = Receipt(
    id: string, capability: string, version: string, argsHash: Hash, pinned: Pinned,
    handler: string, handlerVersion: string, risk: Risk, policy: Policy,
    approvalRequired: bool, confirmation: string, handlerState: string,
    createdAt: real, expiresAt: real)

  datatype Store = Store(preflights: Dict<Receipt>, consumed: Dict<real>)

  datatype Error =
    | Replay | NotFound | ExpiredReceipt | CapabilityChanged | UnknownCapability | BadParams
    | VersionChanged | ArgsChanged | BadContext | WorkspacePolicyInvalid | WorkspaceRequired
    | SessionRequired | PolicyContextInvalid | LeaseRequired | CredentialInvalid | CredentialRequired
    | NetworkRequired | TrustInvalid | TrustedGrantRequired | ContextChanged
    | HandlerUnavailable | HandlerVersionChanged | HandlerChanged | PolicyChanged
    | RiskInvalid | RiskPolicyInvalid | ApprovalPolicyInvalid | DelegationInvalid | ApprovalRequired
    | HandlerInvalid | HandlerDuplicate

  // ---------------------------------------------------------------- checks

  predicate IsSha256(s: string) {
    |s| == 64 && forall i :: 0 <= i < 64 ==> '0' <= s[i] <= '9' || 'a' <= s[i] <= 'f'
  }

  function GrantSet(grants: seq<string>): set<string> {
    set g | g in grants
  }

  function Pin(c: Context): Pinned {
    Pinned(c.workspace, c.tree, c.session, c.owner, c.task, c.policyRevision, c.policyDigest,
           c.leaseId, GrantSet(c.grants), c.network, c.trustedGrant, c.trust)
  }

  /** `_validate_context`: the first requirement of the spec that the context misses. */
  function ContextError(spec: Spec, c: Context): (r: Option<Error>) {
    if spec.binding == UnknownBinding then Some(WorkspacePolicyInvalid)
    else if spec.binding == Required && (c.workspace == "" || c.tree == "") then Some(WorkspaceRequired)
    else if spec.sessionRequired && c.session == "" then Some(SessionRequired)
    else if c.policyRevision == "" || !IsSha256(c.policyDigest) then Some(PolicyContextInvalid)
    else if spec.leaseRequired && c.leaseId == "" then Some(LeaseRequired)
    else if "" in c.grants then Some(CredentialInvalid)
    else if !(spec.credentials <= GrantSet(c.grants)) then Some(CredentialRequired)
    else if spec.networkRequired && !c.network then Some(NetworkRequired)
    else if c.trust == UnknownTrust then Some(TrustInvalid)
    else if spec.policy == TrustedSessionGrant && c.trustedGrant == "" then Some(TrustedGrantRequired)
    else None
  }

  /** `_approval_required` of the plain gateway. */
  function PlainApproval(spec: Spec): (r: Result<bool, Error>) {
    if spec.risk == UnknownRisk then Err(RiskInvalid)
    else
      match spec.policy
      case NoApproval => if spec.risk in {R2, R3} then Err(RiskPolicyInvalid) else Ok(false)
      case Automatic => if spec.risk in {R2, R3} then Err(RiskPolicyInvalid) else Ok(false)
      case Human => Ok(true)
      case Explicit => Ok(true)
      case TrustedSessionGrant => if spec.risk != R2 then Err(RiskPolicyInvalid) else Ok(false)
      case _ => Err(ApprovalPolicyInvalid)
  }

  /** The delegated gateway lets a registered handler's own tool decide. */
  function Approval(g: GatewayState, spec: Spec): (r: Result<bool, Error>) {
    if g.delegated.None? || spec.policy != Delegated then PlainApproval(spec)
    else if spec.risk !in {R1, R2, R3} then Err(RiskPolicyInvalid)
    else if spec.handler !in g.delegated.value then Err(DelegationInvalid)
    else Ok(false)
  }

  function ApprovalInContext(g: GatewayState, spec: Spec, c: Context): (r: Result<bool, Error>) {
    if spec.policy != WorkspaceTrust then Approval(g, spec)
    else if spec.risk !in {R1, R2} then Err(RiskPolicyInvalid)
    else if c.trust == UnknownTrust then Err(TrustInvalid)
    else Ok(c.trust != TrustedDevelopment)
  }

  /** Handlers are kept under their own ids, and only registered ids are delegated. */
  ghost predicate WellRegistered(g: GatewayState) {
    && (forall k :: k in g.handlers ==> g.handlers[k].id == k)
    && (g.delegated.Some? ==> forall k :: k in g.delegated.value ==> k in g.handlers)
  }

  /** `register_handler`: it never touches the delegated ids, also when it replaces a handler. */
  function Registered(g: GatewayState, h: Handler, replace: bool): (r: Result<GatewayState, Error>) {
    if h.id == "" || h.version == "" then Err(HandlerInvalid)
    else if h.id in g.handlers && !replace then Err(HandlerDuplicate)
    else Ok(g.(handlers := g.handlers[h.id := h]))
  }

  /** `register_delegated_handler`. */
  function RegisteredDelegated(g: GatewayState, h: Handler, replace: bool): (r: Result<GatewayState, Error>)
    requires g.delegated.Some?
  {
    var r := Registered(g, h, replace);
    if r.Err? then r else Ok(r.value.(delegated := Some(g.delegated.value + {h.id})))
  }

  function HandlerFor(g: GatewayState, spec: Spec): (r: Result<Handler, Error>) {
    if spec.handler !in g.handlers then Err(HandlerUnavailable)
    else if g.handlers[spec.handler].version != spec.handlerVersion then Err(HandlerVersionChanged)
    else Ok(g.handlers[spec.handler])
  }

  // ---------------------------------------------------------------- preflight

  /** What a preflight has validated before its handler's own preflight runs. */
  datatype Draft = Draft(capability: string, spec: Spec, argsHash: Hash, context: Context, handler: Handler)

  function Validated(g: GatewayState, reg: Registry, capability: string, params: string, c: Context): (r: Result<Draft, Error>) {
    if capability !in reg.specs then Err(UnknownCapability)
    else
      var spec := reg.specs[capability];
      var normal := reg.normalize(capability, params);
      var problem := ContextError(spec, c);
      var handler := HandlerFor(g, spec);
      if normal.None? then Err(BadParams)
      else if problem.Some? then Err(problem.value)
      else if handler.Err? then Err(handler.error)
      else Ok(Draft(capability, spec, Sha256(normal.value), c, handler.value))
  }

  /** The receipt of a draft; `token` is the random part of an exact confirmation. */
  function Issued(g: GatewayState, d: Draft, id: string, token: string, handlerState: string, now: real): (r: Result<Receipt, Error>) {
    var approval := ApprovalInContext(g, d.spec, d.context);
    if approval.Err? then Err(approval.error)
    else
      Ok(Receipt(id, d.spec.id, d.spec.version, d.argsHash, Pin(d.context), d.spec.handler,
                 d.handler.version, d.spec.risk, d.spec.policy, approval.value,
                 if approval.value then "EXECUTE_CAPABILITY:" + d.capability + ":" + token else "",
                 handlerState, now, now + g.ttl as real))
  }

  function DropExpired<V(!new)>(d: Dict<V>, live: V -> bool): (r: Dict<V>)
    ensures forall x :: x in r <==> x in d && live(x.1)
  {
    if d == [] then []
    else
      assert d == [d[0]] + d[1..];
      (if live(d[0].1) then [d[0]] else []) + DropExpired(d[1..], live)
  }

  predicate OlderFirst(a: (string, Receipt), b: (string, Receipt)) {
    a.1.createdAt <= b.1.createdAt
  }

  function RemoveAll(d: Dict<Receipt>, victims: seq<(string, Receipt)>): (r: Dict<Receipt>) {
    if victims == [] then d
    else Remove(RemoveAll(d, victims[..|victims| - 1]), victims[|victims| - 1].1.id)
  }

  function Usable(now: real): Receipt -> bool {
    (r: Receipt) => now < r.expiresAt
  }

  function Remembered(now: real): real -> bool {
    (until: real) => now < until
  }

  /** Drop what has expired, then the oldest receipts beyond the limit. */
  function Pruned(s: Store, now: real, maxPreflights: nat): (r: Store) {
    var live := DropExpired(s.preflights, Usable(now));
    var excess := if |live| > maxPreflights then |live| - maxPreflights else 0;
    Store(RemoveAll(live, SortBy(OlderFirst, live)[..excess]),
          DropExpired(s.consumed, Remembered(now)))
  }

  function Inserted(g: GatewayState, s: Store, r: Receipt): (s': Store) {
    Pruned(s.(preflights := Put(s.preflights, r.id, r)), r.createdAt, g.maxPreflights)
  }

  // ---------------------------------------------------------------- execute

  /** A consumed receipt on its way to the handler. */
  datatype Ticket = Ticket(
    receipt: Receipt, capability: string, spec: Spec, argsHash: Hash, context: Context, handler: Handler,
    delegated: bool, confirmation: string, at: real)

  /** The capability, its version and the arguments are the receipt's. */
  function Recalled(reg: Registry, receipt: Receipt, capability: string, params: string): (r: Result<(Spec, Hash), Error>) {
    if capability != receipt.capability then Err(CapabilityChanged)
    else if capability !in reg.specs then Err(UnknownCapability)
    else
      var spec := reg.specs[capability];
      var normal := reg.normalize(capability, params);
      if normal.None? then Err(BadParams)
      else if spec.version != receipt.version then Err(VersionChanged)
      else if Sha256(normal.value) != receipt.argsHash then Err(ArgsChanged)
      else Ok((spec, Sha256(normal.value)))
  }

  /** The context suits the spec and is the pinned one; the handler is the receipt's. */
  function Rebound(g: GatewayState, receipt: Receipt, spec: Spec, c: Context): (r: Result<Handler, Error>) {
    var problem := ContextError(spec, c);
    var handler := HandlerFor(g, spec);
    if problem.Some? then Err(problem.value)
    else if Pin(c) != receipt.pinned then Err(ContextChanged)
    else if handler.Err? then handler
    else if handler.value.version != receipt.handlerVersion || spec.handlerVersion != receipt.handlerVersion then
      Err(HandlerVersionChanged)
    else if handler.value.id != receipt.handler then Err(HandlerChanged)
    else handler
  }

  /** The approval now called for is the receipt's, and it was given. */
  function Unapproved(g: GatewayState, receipt: Receipt, spec: Spec, c: Context, confirmation: string): (r: Option<Error>) {
    var approval := ApprovalInContext(g, spec, c);
    if approval.Err? then Some(approval.error)
    else if approval.value != receipt.approvalRequired || spec.policy != receipt.policy then Some(PolicyChanged)
    else if receipt.approvalRequired && confirmation != receipt.confirmation then Some(ApprovalRequired)
    else None
  }

  /** The checks of `execute` on a found, unexpired receipt, in the source's order. */
  function Checked(g: GatewayState, reg: Registry, receipt: Receipt, capability: string, params: string,
                   c: Context, confirmation: string, now: real): (r: Result<Ticket, Error>)
  {
    var recalled := Recalled(reg, receipt, capability, params);
    if recalled.Err? then Err(recalled.error)
    else
      var (spec, argsHash) := recalled.value;
      var handler := Rebound(g, receipt, spec, c);
      if handler.Err? then Err(handler.error)
      else
        var refused := Unapproved(g, receipt, spec, c, confirmation);
        if refused.Some? then Err(refused.value)
        else
          Ok(Ticket(receipt, capability, spec, argsHash, c, handler.value,
                    g.delegated.Some? && spec.handler in g.delegated.value, confirmation, now))
  }

  /** How long a consumed id is remembered. */
  function ReplayUntil(ttl: nat, now: real): real {
    now + if ttl * 2 > 600 then (ttl * 2) as real else 600.0
  }

  /** The usable receipt of an id, or why there is none. */
  function Lookup(s: Store, id: string, now: real): (r: Result<Receipt, Error>) {
    var found := Find(s.preflights, id);
    if Has(s.consumed, id) then Err(Replay)
    else if found.None? then Err(NotFound)
    else if now >= found.value.expiresAt then Err(ExpiredReceipt)
    else Ok(found.value)
  }

  /** Looking up an expired receipt drops it. */
  function Looked(s: Store, id: string, now: real): (r: Store) {
    if Lookup(s, id, now) == Err(ExpiredReceipt) then s.(preflights := Remove(s.preflights, id)) else s
  }

  /** The receipt becomes a replay mark, and the store is pruned. */
  function Spent(s: Store, id: string, until: real, now: real, maxPreflights: nat): (r: Store) {
    Pruned(Store(Remove(s.preflights, id), Put(s.consumed, id, until)), now, maxPreflights)
  }

  /** The checks of one call of `execute`, as a function of the receipt it finds. */
  function Check(g: GatewayState, reg: Registry, capability: string, params: string,
                 c: Context, confirmation: string, now: real): Receipt -> Result<Ticket, Error>
  {
    (receipt: Receipt) => Checked(g, reg, receipt, capability, params, c, confirmation, now)
  }

  /** The outcome of the atomic part of `execute`: look up, then check. */
  function Examined(s: Store, id: string, now: real, check: Receipt -> Result<Ticket, Error>): (r: Result<Ticket, Error>) {
    var found := Lookup(s, id, now);
    if found.Err? then Err(found.error) else check(found.value)
  }

  /** The store after the atomic part of `execute`: the receipt is consumed only by a success. */
  function Settled(s: Store, id: string, passed: bool, until: real, now: real, maxPreflights: nat): (r: Store) {
    if passed then Spent(s, id, until, now, maxPreflights) else Looked(s, id, now)
  }
}

/** The bounded development loop: a pure state machine over events, with history. */
module DevelopmentLoop {
  import opened Wrappers

  datatype Phase = IMPLEMENT | FAST_VERIFY | REMEDIATE | QA | REVIEW | FULL_VERIFY | READY | BLOCKED | FAILED

  datatype Budgets = Budgets(
    maxIterations: nat, maxWallSeconds: nat, maxChangedFiles: nat,
    maxDiffBytes: nat, maxRepeatedFailure: nat, maxNoProgress: nat)

  /** The event kinds that the transition table and the stop rules name; any other text is `Other`. */
  datatype Kind =
    | ImplementationComplete | ImplementationFailed | VerificationPassed | VerificationFailed
    | RemediationComplete | RemediationFailed | QaPassed | QaFailed
    | ReviewPassed | ReviewBlocking | ReviewFailed | DeliveryFailed
    | BlockedEvent | FatalEvent | Other(text: string)

  /** Why a history entry was made: the event itself, or a limit it met. */
  datatype Reason =
    | IterationBudget | WallTimeBudget | ChangedFileBudget | DiffByteBudget
    | RepeatedFailureLimit | NoProgressLimit | Because(kind: Kind)

  datatype Stop = Running | Stopped(reason: Reason)

  datatype Event = Event(
    id: string, kind: Kind, at: real, failure: string, progress: string,
    changedFiles: nat, diffBytes: nat)

  /** The SHA-256 fingerprint of an event, taken as injective. */
  datatype Fingerprint = Sha256(payload: Event)

  datatype Entry = Entry(id: string, fingerprint: Fingerprint, from: Phase, to: Phase, reason: Reason, at: real)

  datatype State = State(
    budgets: Budgets, startedAt: real, phase: Phase, history: seq<Entry>,
    repeatedFailures: nat, lastFailure: string, noProgress: nat, lastProgress: string,
    stop: Stop)

  datatype Error = Rebound | Terminal | Predates | BadKind | NotReopenable | BadEvidence | Replaced

  function Terminals(): set<Phase> {
    {READY, BLOCKED, FAILED}
  }

  /** The phase that an event kind leads to, where it is valid. */
  function Next(phase: Phase, kind: Kind): (r: Option<Phase>) {
    match (phase, kind)
    case (IMPLEMENT, ImplementationComplete) => Some(FAST_VERIFY)
    case (IMPLEMENT, ImplementationFailed) => Some(REMEDIATE)
    case (FAST_VERIFY, VerificationPassed) => Some(QA)
    case (FAST_VERIFY, VerificationFailed) => Some(REMEDIATE)
    case (REMEDIATE, RemediationComplete) => Some(FAST_VERIFY)
    case (REMEDIATE, RemediationFailed) => Some(FAILED)
    case (QA, QaPassed) => Some(REVIEW)
    case (QA, QaFailed) => Some(REMEDIATE)
    case (REVIEW, ReviewPassed) => Some(FULL_VERIFY)
    case (REVIEW, ReviewBlocking) => Some(REMEDIATE)
    case (REVIEW, ReviewFailed) => Some(REMEDIATE)
    case (FULL_VERIFY, VerificationPassed) => Some(READY)
    case (FULL_VERIFY, VerificationFailed) => Some(REMEDIATE)
    case (READY, DeliveryFailed) => Some(REMEDIATE)
    case _ => None
  }

  function Create(budgets: Budgets, startedAt: real): (s: State) {
    State(budgets, startedAt, IMPLEMENT, [], 0, "", 0, "", Running)
  }

  function Append(s: State, e: Event, to: Phase, reason: Reason, stop: Stop): (r: State) {
    s.(phase := to, history := s.history + [Entry(e.id, Sha256(e), s.phase, to, reason, e.at)], stop := stop)
  }

  /** The two stagnation counters after an accepted event. */
  function Counted(s: State, e: Event): (r: State) {
    var p :=
      if e.progress == "" then s
      else if e.progress == s.lastProgress then s.(noProgress := s.noProgress + 1)
      else s.(noProgress := 0, lastProgress := e.progress);
    if e.failure == "" then p
    else if e.failure == p.lastFailure then p.(repeatedFailures := p.repeatedFailures + 1)
    else p.(repeatedFailures := 1, lastFailure := e.failure)
  }

  /** The first history entry with this event id. */
  function Seen(history: seq<Entry>, id: string): (r: Option<Entry>)
    ensures r.Some? <==> exists h :: h in history && h.id == id
    ensures r.Some? ==> r.value in history && r.value.id == id
  {
    if history == [] then None
    else
      assert history == [history[0]] + history[1..];
      if history[0].id == id then Some(history[0]) else Seen(history[1..], id)
  }

  /** What happens to an event that no history entry and no phase rule stops. */
  function Accepted(s: State, e: Event): (r: Result<State, Error>) {
    var wall := e.at - s.startedAt;
    var c := Counted(s, e);
    if |s.history| + 1 > s.budgets.maxIterations then Ok(Halt(s, e, FAILED, IterationBudget))
    else if wall > s.budgets.maxWallSeconds as real then Ok(Halt(s, e, BLOCKED, WallTimeBudget))
    else if e.changedFiles > s.budgets.maxChangedFiles then Ok(Halt(s, e, BLOCKED, ChangedFileBudget))
    else if e.diffBytes > s.budgets.maxDiffBytes then Ok(Halt(s, e, BLOCKED, DiffByteBudget))
    else if c.repeatedFailures >= s.budgets.maxRepeatedFailure then Ok(Halt(c, e, FAILED, RepeatedFailureLimit))
    else if c.noProgress >= s.budgets.maxNoProgress then Ok(Halt(c, e, FAILED, NoProgressLimit))
    else if e.kind == BlockedEvent then Ok(Halt(c, e, BLOCKED, Because(e.kind)))
    else if e.kind == FatalEvent then Ok(Halt(c, e, FAILED, Because(e.kind)))
    else
      var next := Next(s.phase, e.kind);
      if next.None? then Err(BadKind)
      else if next.value in {BLOCKED, FAILED} then Ok(Halt(c, e, next.value, Because(e.kind)))
      else Ok(Append(c, e, next.value, Because(e.kind), Running))
  }

  function Halt(s: State, e: Event, to: Phase, reason: Reason): (r: State) {
    Append(s, e, to, reason, Stopped(reason))
  }

  function Advance(s: State, e: Event): (r: Result<State, Error>) {
    var seen := Seen(s.history, e.id);
    if seen.Some? then
      if seen.value.fingerprint == Sha256(e) then Ok(s) else Err(Rebound)
    else if s.phase in Terminals() && !(s.phase == READY && e.kind == DeliveryFailed) then Err(Terminal)
    else if e.at < s.startedAt then Err(Predates)
    else Accepted(s, e)
  }

  /** A hexadecimal digest of a text. */
  type Digest = h: string -> string | forall s :: |h(s)| == 64 witness s => seq(64, i => '0')

  predicate ValidEvidence(ref: string) {
    0 < |ref| <= 256 && '\0' !in ref
  }

  function DeliveryEvent(sha: Digest, ref: string, at: real): (e: Event) {
    Event("delivery:" + sha(ref)[..32], DeliveryFailed, at, sha(ref), ref, 0, 0)
  }

  function ApplyDeliveryFailure(sha: Digest, s: State, ref: string, at: real): (r: Result<State, Error>) {
    if s.phase != READY && s.phase != REMEDIATE then Err(NotReopenable)
    else if !ValidEvidence(ref) then Err(BadEvidence)
    else
      var e := DeliveryEvent(sha, ref, at);
      if s.phase == REMEDIATE then
        if exists h :: h in s.history && h.id == e.id && h.fingerprint == Sha256(e) then Ok(s) else Err(Replaced)
      else Advance(s, e)
  }

  // ---------------------------------------------------------------- streams

  /** Feed a stream of events, stopping at the first that raises. */
  function Run(s: State, events: seq<Event>): (r: Result<State, Error>) {
    if events == [] then Ok(s)
    else
      var before := Run(s, events[..|events| - 1]);
      if before.Err? then before else Advance(before.value, events[|events| - 1])
  }

  ghost predicate ValidBudgets(b: Budgets) {
    && 1 <= b.maxIterations <= 1000 && 1 <= b.maxWallSeconds <= 86400
    && 1 <= b.maxChangedFiles <= 10000 && 1 <= b.maxDiffBytes <= 67108864
    && 1 <= b.maxRepeatedFailure <= 100 && 1 <= b.maxNoProgress <= 100
  }

  /** A loop state that some stream of events leads to from its creation. */
  ghost predicate Reached(s: State, budgets: Budgets, startedAt: real, events: seq<Event>) {
    ValidBudgets(budgets) && Run(Create(budgets, startedAt), events) == Ok(s)
  }
}

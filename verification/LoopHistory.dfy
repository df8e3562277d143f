/** What every reachable development loop shows in its history. */
module LoopHistory {
  import opened Wrappers
  import opened DevelopmentLoop

  predicate Closed(p: Phase) {
    p == BLOCKED || p == FAILED
  }

  // ------------------------------------------------- the moves, listed

  /** The kinds that send a loop to remediation, phase by phase. */
  predicate Fails(phase: Phase, kind: Kind) {
    || (phase == IMPLEMENT && kind == ImplementationFailed)
    || (phase == FAST_VERIFY && kind == VerificationFailed)
    || (phase == QA && kind == QaFailed)
    || (phase == REVIEW && (kind == ReviewBlocking || kind == ReviewFailed))
    || (phase == FULL_VERIFY && kind == VerificationFailed)
    || (phase == READY && kind == DeliveryFailed)
  }

  /** The kinds that a phase answers at all. */
  predicate Answers(phase: Phase, kind: Kind) {
    || Fails(phase, kind)
    || (phase == IMPLEMENT && kind == ImplementationComplete)
    || (phase == FAST_VERIFY && kind == VerificationPassed)
    || (phase == REMEDIATE && (kind == RemediationComplete || kind == RemediationFailed))
    || (phase == QA && kind == QaPassed)
    || (phase == REVIEW && kind == ReviewPassed)
    || (phase == FULL_VERIFY && kind == VerificationPassed)
  }

  /** The moves, by the phase they lead to. */
  predicate Edge(from: Phase, kind: Kind, to: Phase) {
    || (to == REMEDIATE && Fails(from, kind))
    || (to == FAST_VERIFY && from == IMPLEMENT && kind == ImplementationComplete)
    || (to == FAST_VERIFY && from == REMEDIATE && kind == RemediationComplete)
    || (to == QA && from == FAST_VERIFY && kind == VerificationPassed)
    || (to == REVIEW && from == QA && kind == QaPassed)
    || (to == FULL_VERIFY && from == REVIEW && kind == ReviewPassed)
    || (to == READY && from == FULL_VERIFY && kind == VerificationPassed)
    || (to == FAILED && from == REMEDIATE && kind == RemediationFailed)
  }

  lemma MovesExactly(from: Phase, kind: Kind, to: Phase)
    ensures Next(from, kind) == Some(to) <==> Edge(from, kind, to)
    ensures Next(from, kind).Some? <==> Answers(from, kind)
  {
  }

  // ------------------------------------------------- counters, recomputed

  /** The non-empty failure fingerprints of the recorded events, in order. */
  function Failures(history: seq<Entry>): seq<string> {
    if history == [] then []
    else
      var f := history[|history| - 1].fingerprint.payload.failure;
      Failures(history[..|history| - 1]) + if f == "" then [] else [f]
  }

  /** The non-empty progress tokens of the recorded events, in order. */
  function Tokens(history: seq<Entry>): seq<string> {
    if history == [] then []
    else
      var p := history[|history| - 1].fingerprint.payload.progress;
      Tokens(history[..|history| - 1]) + if p == "" then [] else [p]
  }

  /** The length of the longest run of equal values at the end. */
  function TrailingRun(xs: seq<string>): nat {
    if xs == [] then 0
    else
      var n := |xs| - 1;
      if n > 0 && xs[n] == xs[n - 1] then TrailingRun(xs[..n]) + 1 else 1
  }

  function Last(xs: seq<string>): string {
    if xs == [] then "" else xs[|xs| - 1]
  }

  /** Repeats of the last progress token since it was first seen. */
  function Stagnation(history: seq<Entry>): nat {
    var run := TrailingRun(Tokens(history));
    if run == 0 then 0 else run - 1
  }

  /** Why the loop stopped at its last event, computed from the whole history at once. */
  function Cause(b: Budgets, startedAt: real, history: seq<Entry>): Stop
    requires history != []
  {
    var last := history[|history| - 1];
    var e := last.fingerprint.payload;
    if |history| > b.maxIterations then Stopped(IterationBudget)
    else if e.at - startedAt > b.maxWallSeconds as real then Stopped(WallTimeBudget)
    else if e.changedFiles > b.maxChangedFiles then Stopped(ChangedFileBudget)
    else if e.diffBytes > b.maxDiffBytes then Stopped(DiffByteBudget)
    else if TrailingRun(Failures(history)) >= b.maxRepeatedFailure then Stopped(RepeatedFailureLimit)
    else if Stagnation(history) >= b.maxNoProgress then Stopped(NoProgressLimit)
    else if e.kind in {BlockedEvent, FatalEvent} || (last.from == REMEDIATE && e.kind == RemediationFailed) then
      Stopped(Because(e.kind))
    else Running
  }

  function StopPhase(reason: Reason): Phase {
    match reason
    case WallTimeBudget => BLOCKED
    case ChangedFileBudget => BLOCKED
    case DiffByteBudget => BLOCKED
    case Because(BlockedEvent) => BLOCKED
    case _ => FAILED
  }

  // ------------------------------------------------- the invariant

  /** The history is one connected walk from IMPLEMENT to the current phase, along the
      listed moves, that only its last entry may close; no event id occurs twice. */
  ghost predicate Walk(history: seq<Entry>, phase: Phase) {
    && (if history == [] then phase == IMPLEMENT
        else history[0].from == IMPLEMENT && history[|history| - 1].to == phase)
    && (forall i :: 0 <= i < |history| - 1 ==> history[i].to == history[i + 1].from && !Closed(history[i].to))
    && (forall i :: 0 <= i < |history| && !Closed(history[i].to) ==>
          history[i].reason.Because? && Edge(history[i].from, history[i].reason.kind, history[i].to))
    && (forall i :: 0 <= i < |history| ==>
          var e := history[i].fingerprint.payload; e.id == history[i].id && e.at == history[i].at)
    && (forall i, j :: 0 <= i < j < |history| ==> history[i].id != history[j].id)
  }

  /** Budgets hold at every recorded event but one that closed the loop. */
  ghost predicate WithinBudgets(s: State) {
    && |s.history| <= s.budgets.maxIterations + 1
    && (|s.history| == s.budgets.maxIterations + 1 ==> s.phase == FAILED)
    && (forall h :: h in s.history ==> s.startedAt <= h.at)
    && (forall h :: h in s.history && !Closed(h.to) ==> h.at <= s.startedAt + s.budgets.maxWallSeconds as real)
  }

  /** In an open or READY loop the counters are the trailing runs of its history, below their limits. */
  ghost predicate Counting(s: State) {
    !Closed(s.phase) ==>
      && s.repeatedFailures == TrailingRun(Failures(s.history)) < s.budgets.maxRepeatedFailure
      && s.noProgress == Stagnation(s.history) < s.budgets.maxNoProgress
      && s.lastFailure == Last(Failures(s.history)) && s.lastProgress == Last(Tokens(s.history))
  }

  /** The stop reason is the one that the whole history calls for, and it decides the closing phase. */
  ghost predicate Explained(s: State) {
    if s.history == [] then s.stop == Running
    else
      && s.stop == Cause(s.budgets, s.startedAt, s.history)
      && (Closed(s.phase) <==> s.stop.Stopped?)
      && (Closed(s.phase) ==> s.phase == StopPhase(s.stop.reason))
  }

  ghost predicate Sound(s: State) {
    ValidBudgets(s.budgets) && Walk(s.history, s.phase) && WithinBudgets(s) && Counting(s) && Explained(s)
  }

  /** A state before an event that the loop accepts. */
  ghost predicate Accepting(s: State, e: Event) {
    Sound(s) && !Closed(s.phase) && Seen(s.history, e.id).None? && s.startedAt <= e.at && Accepted(s, e).Ok?
  }

  /** The first limit or stopping kind that an event meets, given the counters `c` after it. */
  function Limit(s: State, c: State, e: Event): Stop {
    if |s.history| + 1 > s.budgets.maxIterations then Stopped(IterationBudget)
    else if e.at - s.startedAt > s.budgets.maxWallSeconds as real then Stopped(WallTimeBudget)
    else if e.changedFiles > s.budgets.maxChangedFiles then Stopped(ChangedFileBudget)
    else if e.diffBytes > s.budgets.maxDiffBytes then Stopped(DiffByteBudget)
    else if c.repeatedFailures >= s.budgets.maxRepeatedFailure then Stopped(RepeatedFailureLimit)
    else if c.noProgress >= s.budgets.maxNoProgress then Stopped(NoProgressLimit)
    else if e.kind == BlockedEvent || e.kind == FatalEvent || (s.phase == REMEDIATE && e.kind == RemediationFailed) then Stopped(Because(e.kind))
    else Running
  }

  /** Accepting appends one entry for the event, from the current phase; a stop closes
      the loop, and otherwise it moves along an edge. */
  lemma AcceptedShape(s: State, e: Event)
    requires Accepted(s, e).Ok?
    ensures var t := Accepted(s, e).value;
            var c := Counted(s, e);
            && t.history == s.history + [Entry(e.id, Sha256(e), s.phase, t.phase, if t.stop.Stopped? then t.stop.reason else Because(e.kind), e.at)]
            && t.budgets == s.budgets && t.startedAt == s.startedAt
            && t.stop == Limit(s, c, e)
            && (if t.stop.Stopped? then t.phase == StopPhase(t.stop.reason)
                else Edge(s.phase, e.kind, t.phase) && !Closed(t.phase)
                     && t.repeatedFailures == c.repeatedFailures && t.lastFailure == c.lastFailure
                     && t.noProgress == c.noProgress && t.lastProgress == c.lastProgress)
  {
    var t := Accepted(s, e).value;
    var c := Counted(s, e);
    assert c.history == s.history && c.budgets == s.budgets && c.phase == s.phase && c.startedAt == s.startedAt;
  }

  lemma WalkStep(h: seq<Entry>, phase: Phase, x: Entry)
    requires Walk(h, phase) && !Closed(phase) && x.from == phase
    requires x.fingerprint.payload.id == x.id && x.fingerprint.payload.at == x.at
    requires forall y :: y in h ==> y.id != x.id
    requires Closed(x.to) || (x.reason.Because? && Edge(phase, x.reason.kind, x.to))
    ensures Walk(h + [x], x.to)
  {
    var r := h + [x];
    forall i | 0 <= i < |h| ensures r[i] == h[i] && h[i] in h {
    }
  }

  lemma StopCloses(reason: Reason)
    ensures Closed(StopPhase(reason))
  {
  }

  lemma AcceptedWalk(s: State, e: Event)
    requires Accepting(s, e)
    ensures var t := Accepted(s, e).value; Walk(t.history, t.phase)
  {
    AcceptedShape(s, e);
    var t := Accepted(s, e).value;
    if t.stop.Stopped? {
      StopCloses(t.stop.reason);
    }
    WalkStep(s.history, s.phase, t.history[|s.history|]);
  }

  lemma AcceptedBudgets(s: State, e: Event)
    requires Accepting(s, e)
    ensures WithinBudgets(Accepted(s, e).value)
  {
    AcceptedShape(s, e);
    var t := Accepted(s, e).value;
    if t.stop.Stopped? {
      StopCloses(t.stop.reason);
    }
    assert forall h :: h in t.history ==> h in s.history || h == t.history[|s.history|];
  }

  /** Counting one more event is counting the longer history. */
  lemma CountedRuns(s: State, e: Event, h: seq<Entry>)
    requires Counting(s) && !Closed(s.phase)
    requires |h| == |s.history| + 1 && h[..|h| - 1] == s.history && h[|h| - 1].fingerprint == Sha256(e)
    ensures var c := Counted(s, e);
            && c.repeatedFailures == TrailingRun(Failures(h)) && c.noProgress == Stagnation(h)
            && c.lastFailure == Last(Failures(h)) && c.lastProgress == Last(Tokens(h))
  {
    FailuresNext(s.history, h, e);
    TokensNext(s.history, h, e);
  }

  lemma FailuresNext(before: seq<Entry>, h: seq<Entry>, e: Event)
    requires |h| == |before| + 1 && h[..|h| - 1] == before && h[|h| - 1].fingerprint == Sha256(e)
    ensures if e.failure == "" then Failures(h) == Failures(before)
            else Last(Failures(h)) == e.failure
                 && TrailingRun(Failures(h)) == if e.failure == Last(Failures(before)) then TrailingRun(Failures(before)) + 1 else 1
  {
    NonEmptyFailures(before);
    TrailingNext(Failures(before), e.failure);
  }

  lemma TokensNext(before: seq<Entry>, h: seq<Entry>, e: Event)
    requires |h| == |before| + 1 && h[..|h| - 1] == before && h[|h| - 1].fingerprint == Sha256(e)
    ensures if e.progress == "" then Tokens(h) == Tokens(before)
            else Last(Tokens(h)) == e.progress
                 && Stagnation(h) == if e.progress == Last(Tokens(before)) then Stagnation(before) + 1 else 0
  {
    NonEmptyTokens(before);
    TrailingNext(Tokens(before), e.progress);
  }

  lemma TrailingNext(xs: seq<string>, x: string)
    ensures TrailingRun(xs + [x]) == if xs != [] && Last(xs) == x then TrailingRun(xs) + 1 else 1
    ensures xs != [] ==> TrailingRun(xs) >= 1
    ensures Last(xs + [x]) == x && xs + [] == xs
  {
    assert (xs + [x])[..|xs|] == xs;
  }

  lemma {:induction false} NonEmptyFailures(history: seq<Entry>)
    ensures Failures(history) != [] ==> Last(Failures(history)) != ""
  {
    if history != [] {
      NonEmptyFailures(history[..|history| - 1]);
    }
  }

  lemma {:induction false} NonEmptyTokens(history: seq<Entry>)
    ensures Tokens(history) != [] ==> Last(Tokens(history)) != ""
  {
    if history != [] {
      NonEmptyTokens(history[..|history| - 1]);
    }
  }

  /** The limit met with the running counters is the one the whole history shows. */
  lemma LimitIsCause(s: State, e: Event, h: seq<Entry>)
    requires Counting(s) && !Closed(s.phase)
    requires |h| == |s.history| + 1 && h[..|h| - 1] == s.history
    requires h[|h| - 1].fingerprint == Sha256(e) && h[|h| - 1].from == s.phase
    ensures Limit(s, Counted(s, e), e) == Cause(s.budgets, s.startedAt, h)
  {
    CountedRuns(s, e, h);
  }

  lemma AcceptedExplained(s: State, e: Event)
    requires Accepting(s, e)
    ensures Explained(Accepted(s, e).value)
  {
    AcceptedShape(s, e);
    var t := Accepted(s, e).value;
    assert t.history[..|t.history| - 1] == s.history;
    LimitIsCause(s, e, t.history);
    if t.stop.Stopped? {
      StopCloses(t.stop.reason);
    }
  }

  lemma AcceptedCounting(s: State, e: Event)
    requires Accepting(s, e)
    ensures Counting(Accepted(s, e).value)
  {
    AcceptedShape(s, e);
    var t := Accepted(s, e).value;
    assert t.history[..|t.history| - 1] == s.history;
    CountedRuns(s, e, t.history);
    if t.stop.Stopped? {
      StopCloses(t.stop.reason);
    }
  }

  /** One accepted event keeps the invariant. */
  lemma AcceptedSound(s: State, e: Event)
    requires Accepting(s, e)
    ensures Sound(Accepted(s, e).value)
  {
    AcceptedShape(s, e);
    AcceptedWalk(s, e);
    AcceptedBudgets(s, e);
    AcceptedExplained(s, e);
    AcceptedCounting(s, e);
  }

  lemma AdvanceSound(s: State, e: Event)
    requires Sound(s) && Advance(s, e).Ok?
    ensures var t := Advance(s, e).value;
            Sound(t) && t.budgets == s.budgets && t.startedAt == s.startedAt
  {
    if Seen(s.history, e.id).None? {
      AcceptedSound(s, e);
      AcceptedShape(s, e);
    }
  }

  lemma {:induction false} RunSound(s: State, events: seq<Event>)
    requires Sound(s) && Run(s, events).Ok?
    ensures var t := Run(s, events).value;
            Sound(t) && t.budgets == s.budgets && t.startedAt == s.startedAt
    decreases |events|
  {
    if events != [] {
      var n := |events| - 1;
      RunSound(s, events[..n]);
      AdvanceSound(Run(s, events[..n]).value, events[n]);
    }
  }

  /** Every reachable loop: a connected history with unique event ids, budgets kept,
      counters equal to the trailing runs, and a stop reason that the history explains. */
  lemma ReachedSound(s: State, budgets: Budgets, startedAt: real, events: seq<Event>)
    requires Reached(s, budgets, startedAt, events)
    ensures Sound(s) && s.budgets == budgets && s.startedAt == startedAt
  {
    RunSound(Create(budgets, startedAt), events);
  }

  ghost predicate EntryIs(h: Entry, from: Phase, kind: Kind, to: Phase) {
    h.from == from && h.reason == Because(kind) && h.to == to
  }

  /** The only way into each later verification phase. */
  predicate Gate(from: Phase, kind: Kind, to: Phase) {
    || (to == READY && from == FULL_VERIFY && kind == VerificationPassed)
    || (to == FULL_VERIFY && from == REVIEW && kind == ReviewPassed)
    || (to == REVIEW && from == QA && kind == QaPassed)
    || (to == QA && from == FAST_VERIFY && kind == VerificationPassed)
  }

  lemma GateIsOnlyWay(from: Phase, kind: Kind, to: Phase, phase: Phase, other: Kind)
    requires Gate(from, kind, to) && Edge(phase, other, to)
    ensures phase == from && other == kind && from != IMPLEMENT && !Closed(to)
  {
  }

  /** On a walk, an entry through a gate follows an entry into the phase before it. */
  lemma ThroughGate(h: seq<Entry>, phase: Phase, n: nat, from: Phase, kind: Kind, to: Phase)
    requires Walk(h, phase) && 0 < n <= |h| && h[n - 1].to == to && Gate(from, kind, to)
    ensures EntryIs(h[n - 1], from, kind, to) && n >= 2 && h[n - 2].to == from
  {
    GateIsOnlyWay(from, kind, to, h[n - 1].from, h[n - 1].reason.kind);
    assert n >= 2 ==> h[n - 2].to == h[n - 2 + 1].from;
  }

  /** A loop is READY only if the last four entries of its history are, in a row, the
      passing of fast verification, QA, review and full verification. */
  lemma ReadyEarned(s: State, budgets: Budgets, startedAt: real, events: seq<Event>)
    requires Reached(s, budgets, startedAt, events) && s.phase == READY
    ensures var h, n := s.history, |s.history|;
            && n >= 5
            && EntryIs(h[n - 4], FAST_VERIFY, VerificationPassed, QA)
            && EntryIs(h[n - 3], QA, QaPassed, REVIEW)
            && EntryIs(h[n - 2], REVIEW, ReviewPassed, FULL_VERIFY)
            && EntryIs(h[n - 1], FULL_VERIFY, VerificationPassed, READY)
  {
    ReachedSound(s, budgets, startedAt, events);
    ReadyWalk(s.history);
  }

  lemma ReadyWalk(h: seq<Entry>)
    requires Walk(h, READY)
    ensures var n := |h|;
            && n >= 5
            && EntryIs(h[n - 4], FAST_VERIFY, VerificationPassed, QA)
            && EntryIs(h[n - 3], QA, QaPassed, REVIEW)
            && EntryIs(h[n - 2], REVIEW, ReviewPassed, FULL_VERIFY)
            && EntryIs(h[n - 1], FULL_VERIFY, VerificationPassed, READY)
  {
    var n := |h|;
    ThroughGate(h, READY, n, FULL_VERIFY, VerificationPassed, READY);
    ThroughGate(h, READY, n - 1, REVIEW, ReviewPassed, FULL_VERIFY);
    ThroughGate(h, READY, n - 2, QA, QaPassed, REVIEW);
    ThroughGate(h, READY, n - 3, FAST_VERIFY, VerificationPassed, QA);
  }

  // ------------------------------------------------- duplicates

  ghost predicate Recorded(s: State, e: Event) {
    exists h :: h in s.history && h.id == e.id && h.fingerprint == Sha256(e)
  }

  ghost predicate UniqueIds(s: State) {
    forall i, j :: 0 <= i < j < |s.history| ==> s.history[i].id != s.history[j].id
  }

  /** An event already recorded changes nothing, in any phase. */
  lemma RecordedIsNoOp(s: State, e: Event)
    requires UniqueIds(s) && Recorded(s, e)
    ensures Advance(s, e) == Ok(s)
  {
    var h :| h in s.history && h.id == e.id && h.fingerprint == Sha256(e);
    var seen := Seen(s.history, e.id).value;
    var i :| 0 <= i < |s.history| && s.history[i] == h;
    var j :| 0 <= j < |s.history| && s.history[j] == seen;
  }

  lemma AdvanceRecords(s: State, e: Event)
    requires UniqueIds(s) && Advance(s, e).Ok?
    ensures var t := Advance(s, e).value;
            UniqueIds(t) && Recorded(t, e) && s.history <= t.history
  {
    if Seen(s.history, e.id).None? {
      AcceptedShape(s, e);
      var t := Advance(s, e).value;
      assert t.history[|s.history|] in t.history;
      assert forall i :: 0 <= i < |s.history| ==> s.history[i] in s.history;
    }
  }

  /** Every event of a stream that did not raise is recorded at its end. */
  lemma {:induction false} RunRecords(s: State, events: seq<Event>)
    requires UniqueIds(s) && Run(s, events).Ok?
    ensures var t := Run(s, events).value;
            && UniqueIds(t) && s.history <= t.history
            && forall e :: e in events ==> Recorded(t, e)
  {
    if events != [] {
      var n := |events| - 1;
      RunRecords(s, events[..n]);
      var before := Run(s, events[..n]).value;
      AdvanceRecords(before, events[n]);
      var t := Run(s, events).value;
      forall e | e in events ensures Recorded(t, e) {
        if e in events[..n] {
          StillRecorded(before, t, e);
        }
      }
    }
  }

  lemma StillRecorded(s: State, t: State, e: Event)
    requires Recorded(s, e) && s.history <= t.history
    ensures Recorded(t, e)
  {
    var h :| h in s.history && h.id == e.id && h.fingerprint == Sha256(e);
    assert h in t.history;
  }

  lemma {:induction false} RunConcat(s: State, a: seq<Event>, b: seq<Event>)
    ensures Run(s, a + b) == if Run(s, a).Err? then Run(s, a) else Run(Run(s, a).value, b)
  {
    if b == [] {
      assert a + b == a;
    } else {
      var n := |b| - 1;
      RunConcat(s, a, b[..n]);
      assert (a + b)[..|a + b| - 1] == a + b[..n];
    }
  }

  lemma DuplicateAtEnd(s: State, a: seq<Event>, e: Event)
    requires UniqueIds(s) && e in a
    ensures Run(s, a + [e]) == Run(s, a)
  {
    assert (a + [e])[..|a|] == a;
    if Run(s, a).Ok? {
      RunRecords(s, a);
      RecordedIsNoOp(Run(s, a).value, e);
    }
  }

  /** In a stream that ends at its first refused event, re-inserting an exact duplicate anywhere
      after an earlier occurrence, even after the loop has closed, changes neither the final state
      nor the error. */
  lemma DuplicateChangesNothing(s: State, a: seq<Event>, e: Event, b: seq<Event>)
    requires UniqueIds(s) && e in a
    ensures Run(s, a + [e] + b) == Run(s, a + b)
  {
    RunConcat(s, a + [e], b);
    RunConcat(s, a, b);
    DuplicateAtEnd(s, a, e);
  }

  /** The stream without the later copies of any event. */
  function Deduplicated(events: seq<Event>): (r: seq<Event>) {
    if events == [] then []
    else
      var n := |events| - 1;
      var rest := Deduplicated(events[..n]);
      if events[n] in events[..n] then rest else rest + [events[n]]
  }

  lemma {:induction false} DeduplicatedExact(events: seq<Event>)
    ensures var r := Deduplicated(events);
            && (forall e :: e in r <==> e in events)
            && (forall i, j :: 0 <= i < j < |r| ==> r[i] != r[j])
  {
    if events != [] {
      var n := |events| - 1;
      DeduplicatedExact(events[..n]);
      assert events == events[..n] + [events[n]];
      var rest := Deduplicated(events[..n]);
      assert forall i :: 0 <= i < |rest| ==> rest[i] in rest;
    }
  }

  lemma RunNext(s: State, a: seq<Event>, e: Event)
    ensures Run(s, a + [e]) == if Run(s, a).Err? then Run(s, a) else Advance(Run(s, a).value, e)
  {
    assert (a + [e])[..|a|] == a;
  }

  /** A stream that ends at its first refused event has the outcome of its duplicate-free stream. */
  lemma {:induction false} DeduplicatedRun(s: State, events: seq<Event>)
    requires UniqueIds(s)
    ensures Run(s, events) == Run(s, Deduplicated(events))
    decreases |events|
  {
    if events != [] {
      var a, e := events[..|events| - 1], events[|events| - 1];
      DeduplicatedRun(s, a);
      assert events == a + [e];
      if e in a {
        DuplicateAtEnd(s, a, e);
      } else {
        RunNext(s, a, e);
        RunNext(s, Deduplicated(a), e);
        assert Deduplicated(events) == Deduplicated(a) + [e];
      }
    }
  }
}

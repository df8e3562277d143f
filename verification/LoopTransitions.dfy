/** Which events move a development loop, and where: every move and every refusal, listed. */
module LoopTransitions {
  import opened Wrappers
  import opened DevelopmentLoop
  import opened LoopHistory

  /** The event exceeds no budget, and its repeated texts stay below their limits. */
  ghost predicate Unlimited(s: State, e: Event) {
    && |s.history| < s.budgets.maxIterations && e.at - s.startedAt <= s.budgets.maxWallSeconds as real
    && e.changedFiles <= s.budgets.maxChangedFiles && e.diffBytes <= s.budgets.maxDiffBytes
    && FailuresAfter(s, e) < s.budgets.maxRepeatedFailure && StallsAfter(s, e) < s.budgets.maxNoProgress
  }

  /** How often the last failure has then been repeated. */
  ghost function FailuresAfter(s: State, e: Event): nat {
    if e.failure == "" then s.repeatedFailures
    else if e.failure == s.lastFailure then s.repeatedFailures + 1 else 1
  }

  /** How often the last progress token has then been repeated. */
  ghost function StallsAfter(s: State, e: Event): nat {
    if e.progress == "" then s.noProgress
    else if e.progress == s.lastProgress then s.noProgress + 1 else 0
  }

  /** An event that is new to an open loop and does not predate it. */
  ghost predicate New(s: State, e: Event) {
    && (forall h :: h in s.history ==> h.id != e.id) && e.at >= s.startedAt
    && (s.phase !in Terminals() || (s.phase == READY && e.kind == DeliveryFailed))
  }

  /** Where an event that meets no limit leads: it is refused unless its phase answers its kind or
      it is blocking or fatal, and it moves the loop along the listed edge. */
  lemma EventMoves(s: State, e: Event)
    requires New(s, e) && Unlimited(s, e)
    ensures Advance(s, e).Ok? <==> Answers(s.phase, e.kind) || e.kind == BlockedEvent || e.kind == FatalEvent
    ensures Advance(s, e).Ok? ==>
              var t := Advance(s, e).value;
              && (e.kind == BlockedEvent ==> t.phase == BLOCKED) && (e.kind == FatalEvent ==> t.phase == FAILED)
              && (Answers(s.phase, e.kind) ==> Edge(s.phase, e.kind, t.phase))
              && (t.phase == REMEDIATE <==> Fails(s.phase, e.kind))
              && t.history == s.history + [Entry(e.id, Sha256(e), s.phase, t.phase, Because(e.kind), e.at)]
  {
    MovesExactly(s.phase, e.kind, REMEDIATE);
    assert Advance(s, e) == Accepted(s, e);
    CountedExactly(s, e);
    if Accepted(s, e).Ok? {
      MovesExactly(s.phase, e.kind, Accepted(s, e).value.phase);
    }
  }

  /** Why an event is refused: an id bound to another event, a closed loop, a time before the loop's
      start, or a kind that the phase does not answer, in this order. */
  lemma RefusalReason(s: State, e: Event)
    requires UniqueIds(s) && Advance(s, e).Err?
    ensures var error := Advance(s, e).error;
            var bound := exists h :: h in s.history && h.id == e.id;
            var ended := s.phase == BLOCKED || s.phase == FAILED || (s.phase == READY && e.kind != DeliveryFailed);
            && (error == Rebound <==> bound)
            && (error == Terminal <==> !bound && ended)
            && (error == Predates <==> !bound && !ended && e.at < s.startedAt)
            && (error == BadKind <==> !bound && !ended && e.at >= s.startedAt)
  {
  }

  /** The two counters after an event, with the texts they count. */
  lemma CountedExactly(s: State, e: Event)
    ensures var c := Counted(s, e);
            && c.repeatedFailures == FailuresAfter(s, e) && c.noProgress == StallsAfter(s, e)
            && c.lastFailure == (if e.failure == "" then s.lastFailure else e.failure)
            && c.lastProgress == (if e.progress == "" then s.lastProgress else e.progress)
            && c.history == s.history && c.phase == s.phase && c.budgets == s.budgets && c.startedAt == s.startedAt
  {
  }

  /** An event that meets a limit closes the loop whatever its kind, by the first limit in this order. */
  lemma LimitCloses(s: State, e: Event)
    requires New(s, e) && !Unlimited(s, e)
    ensures Advance(s, e).Ok? && Closed(Advance(s, e).value.phase)
    ensures var reason := Advance(s, e).value.stop;
            && (reason == Stopped(IterationBudget) <==> |s.history| >= s.budgets.maxIterations)
            && (reason == Stopped(WallTimeBudget) <==>
                  |s.history| < s.budgets.maxIterations && e.at - s.startedAt > s.budgets.maxWallSeconds as real)
            && (Advance(s, e).value.phase == BLOCKED <==>
                  reason == Stopped(WallTimeBudget) || reason == Stopped(ChangedFileBudget) || reason == Stopped(DiffByteBudget))
            && (reason == Stopped(NoProgressLimit) ==> FailuresAfter(s, e) < s.budgets.maxRepeatedFailure)
  {
    assert Advance(s, e) == Accepted(s, e);
    CountedExactly(s, e);
  }

  // ------------------------------------------------- remediation

  /** What follows an entry into remediation: nothing yet, a close, or its completion. */
  ghost predicate Remedied(h: seq<Entry>, i: int)
    requires 0 <= i < |h|
  {
    && h[i].reason.Because? && Fails(h[i].from, h[i].reason.kind)
    && (i + 1 < |h| ==> Closed(h[i + 1].to) || EntryIs(h[i + 1], REMEDIATE, RemediationComplete, FAST_VERIFY))
  }

  lemma WalkRemedied(h: seq<Entry>, phase: Phase, i: nat)
    requires Walk(h, phase) && i < |h| && h[i].to == REMEDIATE
    ensures Remedied(h, i)
  {
    if i + 1 < |h| {
      assert h[i].to == h[i + 1].from;
    }
  }

  /** In every reachable loop, REMEDIATE is entered only by a failing kind of its phase, and a loop
      that did not close there left it by its completion, to fast verification. */
  lemma RemediationIsRepaired(s: State, budgets: Budgets, startedAt: real, events: seq<Event>, i: nat)
    requires Reached(s, budgets, startedAt, events) && i < |s.history| && s.history[i].to == REMEDIATE
    ensures Remedied(s.history, i)
    ensures i + 1 == |s.history| ==> s.phase == REMEDIATE
  {
    ReachedSound(s, budgets, startedAt, events);
    WalkRemedied(s.history, s.phase, i);
  }

  /** In every reachable loop, a failure is repaired before anything is passed to QA again: right
      after each entry into REMEDIATE that an entry into QA follows, remediation was completed. */
  lemma RepairedBeforeQa(s: State, budgets: Budgets, startedAt: real, events: seq<Event>, i: nat, j: nat)
    requires Reached(s, budgets, startedAt, events)
    requires i < j < |s.history| && s.history[i].to == REMEDIATE && s.history[j].to == QA
    ensures i + 1 < j && EntryIs(s.history[i + 1], REMEDIATE, RemediationComplete, FAST_VERIFY)
    ensures EntryIs(s.history[j], FAST_VERIFY, VerificationPassed, QA)
  {
    ReachedSound(s, budgets, startedAt, events);
    var h := s.history;
    WalkRemedied(h, s.phase, i);
    assert h[i].to == h[i + 1].from;
    assert i + 1 < |h| - 1 ==> !Closed(h[i + 1].to);
  }

  // ------------------------------------------------- delivery failures

  /** A delivery failure that READY has not seen reopens it for remediation, unless it meets a limit;
      its event is named by the digest of the evidence and carries the evidence as its progress. */
  lemma DeliveryReopens(sha: Digest, s: State, ref: string, at: real)
    requires s.phase == READY && 0 < |ref| <= 256 && '\0' !in ref
    requires var e := Event("delivery:" + sha(ref)[..32], DeliveryFailed, at, sha(ref), ref, 0, 0);
             New(s, e) && Unlimited(s, e)
    ensures var e := Event("delivery:" + sha(ref)[..32], DeliveryFailed, at, sha(ref), ref, 0, 0);
            && ApplyDeliveryFailure(sha, s, ref, at).Ok?
            && var t := ApplyDeliveryFailure(sha, s, ref, at).value;
            && t.phase == REMEDIATE
            && t.history == s.history + [Entry(e.id, Sha256(e), READY, REMEDIATE, Because(DeliveryFailed), at)]
  {
    EventMoves(s, DeliveryEvent(sha, ref, at));
  }

  /** Outside READY and REMEDIATE, or with malformed evidence, it is refused. */
  lemma DeliveryRefused(sha: Digest, s: State, ref: string, at: real)
    ensures ApplyDeliveryFailure(sha, s, ref, at) == Err(NotReopenable) <==> s.phase != READY && s.phase != REMEDIATE
    ensures ApplyDeliveryFailure(sha, s, ref, at) == Err(BadEvidence)
            <==> (s.phase == READY || s.phase == REMEDIATE) && (ref == "" || |ref| > 256 || '\0' in ref)
  {
  }
}

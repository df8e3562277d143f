/** Loop events as the driver delivers them: a refused event leaves the stored loop as it was, and
    the next one is taken. */
module LoopStreams {
  import opened Wrappers
  import opened DevelopmentLoop
  import opened LoopHistory

  /** Load, advance, save: a raising event saves nothing. */
  function Kept(s: State, e: Event): (r: State) {
    var next := Advance(s, e);
    if next.Ok? then next.value else s
  }

  function Fed(s: State, events: seq<Event>): (r: State) {
    if events == [] then s else Kept(Fed(s, events[..|events| - 1]), events[|events| - 1])
  }

  /** The events of a stream that were not refused. */
  function Taken(s: State, events: seq<Event>): (r: seq<Event>) {
    if events == [] then []
    else
      var n := |events| - 1;
      Taken(s, events[..n]) + if Advance(Fed(s, events[..n]), events[n]).Ok? then [events[n]] else []
  }

  /** Feeding a stream is running its accepted events, none of which raises. */
  lemma {:induction false} FedRunsTaken(s: State, events: seq<Event>)
    ensures Run(s, Taken(s, events)) == Ok(Fed(s, events))
    ensures forall e :: e in Taken(s, events) ==> e in events
  {
    if events != [] {
      var n := |events| - 1;
      FedRunsTaken(s, events[..n]);
      RunNext(s, Taken(s, events[..n]), events[n]);
      assert Taken(s, events[..n]) + [] == Taken(s, events[..n]);
    }
  }

  /** So every loop that any stream leads to, refusals included, is a reached loop. */
  lemma FedReached(budgets: Budgets, startedAt: real, events: seq<Event>)
    requires ValidBudgets(budgets)
    ensures var s := Create(budgets, startedAt);
            Reached(Fed(s, events), budgets, startedAt, Taken(s, events)) && Sound(Fed(s, events))
  {
    var s := Create(budgets, startedAt);
    FedRunsTaken(s, events);
    ReachedSound(Fed(s, events), budgets, startedAt, Taken(s, events));
  }

  lemma FedNext(s: State, a: seq<Event>, e: Event)
    ensures Fed(s, a + [e]) == Kept(Fed(s, a), e)
  {
    assert (a + [e])[..|a|] == a;
  }

  lemma SameNext(s: State, a: seq<Event>, t: State, b: seq<Event>, e: Event, x: seq<Event>, y: seq<Event>)
    requires Fed(s, a) == Fed(t, b) && x == a + [e] && y == b + [e]
    ensures Fed(s, x) == Fed(t, y)
  {
    FedNext(s, a, e);
    FedNext(t, b, e);
  }

  lemma {:induction false} FedConcat(s: State, a: seq<Event>, b: seq<Event>)
    ensures Fed(s, a + b) == Fed(Fed(s, a), b)
  {
    if b == [] {
      assert a + b == a;
    } else {
      var rest, last := b[..|b| - 1], b[|b| - 1];
      FedConcat(s, a, rest);
      assert b == rest + [last] && a + b == (a + rest) + [last];
      SameNext(s, a + rest, Fed(s, a), rest, last, a + b, b);
    }
  }

  lemma KeptUnique(s: State, e: Event)
    requires UniqueIds(s)
    ensures UniqueIds(Kept(s, e)) && s.history <= Kept(s, e).history
  {
    if Advance(s, e).Ok? {
      AdvanceRecords(s, e);
    }
  }

  lemma {:induction false} FedUnique(s: State, events: seq<Event>)
    requires UniqueIds(s)
    ensures UniqueIds(Fed(s, events)) && s.history <= Fed(s, events).history
  {
    if events != [] {
      FedUnique(s, events[..|events| - 1]);
      KeptUnique(Fed(s, events[..|events| - 1]), events[|events| - 1]);
    }
  }

  // ------------------------------------------------- when an event changes nothing

  /** The guards of `advance` that raise: the id is bound to another event; or it is new, and the
      loop is closed to the event, the event predates the loop, or it meets no limit and has no
      transition from the current phase. */
  ghost predicate Refused(s: State, e: Event) {
    || (exists h :: h in s.history && h.id == e.id && h.fingerprint != Sha256(e))
    || ((forall h :: h in s.history ==> h.id != e.id)
        && (|| (s.phase in Terminals() && !(s.phase == READY && e.kind == DeliveryFailed))
            || e.at < s.startedAt
            || (Limit(s, Counted(s, e), e) == Running && !Answers(s.phase, e.kind))))
  }

  lemma SeenIsOnly(s: State, e: Event, h: Entry)
    requires UniqueIds(s) && h in s.history && h.id == e.id
    ensures Seen(s.history, e.id) == Some(h)
  {
    var seen := Seen(s.history, e.id).value;
    var i :| 0 <= i < |s.history| && s.history[i] == h;
    var j :| 0 <= j < |s.history| && s.history[j] == seen;
  }

  lemma RefusedExactly(s: State, e: Event)
    requires UniqueIds(s)
    ensures Refused(s, e) <==> Advance(s, e).Err?
  {
    forall h | h in s.history && h.id == e.id ensures Seen(s.history, e.id) == Some(h) {
      SeenIsOnly(s, e, h);
    }
  }

  /** The event is already in the history, or is refused. */
  ghost predicate Harmless(s: State, e: Event) {
    Recorded(s, e) || Refused(s, e)
  }

  lemma HarmlessExactly(s: State, e: Event)
    requires UniqueIds(s)
    ensures Harmless(s, e) <==> Kept(s, e) == s
  {
    RefusedExactly(s, e);
    if Recorded(s, e) {
      RecordedIsNoOp(s, e);
    }
    if Advance(s, e).Ok? {
      AdvanceRecords(s, e);
    }
  }

  lemma HarmlessNext(s: State, a: seq<Event>, e: Event)
    requires UniqueIds(s)
    ensures Harmless(Fed(s, a), e) <==> Fed(s, a + [e]) == Fed(s, a)
  {
    FedUnique(s, a);
    HarmlessExactly(Fed(s, a), e);
    FedNext(s, a, e);
  }

  // ------------------------------------------------- duplicates

  /** Inserting an event after `a`, a copy of an earlier one or not, changes the outcome of no
      continuation if and only if the loop then has it in its history or refuses it. */
  lemma InsertionHarmlessIff(s: State, a: seq<Event>, e: Event)
    requires UniqueIds(s)
    ensures (forall b :: Fed(s, a + [e] + b) == Fed(s, a + b)) <==> Harmless(Fed(s, a), e)
  {
    HarmlessNext(s, a, e);
    assert a + [e] + [] == a + [e] && a + [] == a;
    if Harmless(Fed(s, a), e) {
      forall b ensures Fed(s, a + [e] + b) == Fed(s, a + b) {
        FedConcat(s, a + [e], b);
        FedConcat(s, a, b);
      }
    } else {
      assert Fed(s, a + [e] + []) != Fed(s, a + []);
    }
  }

  /** Once accepted, an event has no effect when it comes again, anywhere later, whatever was
      refused in between, and even after the loop has closed. */
  lemma AcceptedOnceIsEnough(s: State, a: seq<Event>, e: Event, c: seq<Event>, b: seq<Event>)
    requires UniqueIds(s) && Advance(Fed(s, a), e).Ok?
    ensures Fed(s, a + [e] + c + [e] + b) == Fed(s, a + [e] + c + b)
  {
    var t := Fed(s, a + [e]);
    FedUnique(s, a);
    FedNext(s, a, e);
    AdvanceRecords(Fed(s, a), e);
    FedUnique(t, c);
    StillRecorded(t, Fed(t, c), e);
    FedConcat(s, a + [e], c);
    InsertionHarmlessIff(s, a + [e] + c, e);
  }

  /** Every later copy of an event meets a loop that has it in its history or refuses it. */
  ghost predicate CopiesHarmless(s: State, events: seq<Event>) {
    forall k :: 0 <= k < |events| && events[k] in events[..k] ==> Harmless(Fed(s, events[..k]), events[k])
  }

  ghost predicate SameAsDeduplicated(s: State, events: seq<Event>) {
    Fed(s, events) == Fed(s, Deduplicated(events))
  }

  lemma SameAsDeduplicatedNext(s: State, a: seq<Event>, e: Event, all: seq<Event>)
    requires UniqueIds(s) && SameAsDeduplicated(s, a) && all == a + [e]
    requires e in a ==> Fed(s, all) == Fed(s, a)
    ensures SameAsDeduplicated(s, all)
  {
    assert all[..|a|] == a && all[|a|] == e && all[..|a| + 1] == all;
    DeduplicatedNext(all, |a|);
    if e !in a {
      SameNext(s, a, s, Deduplicated(a), e, all, Deduplicated(all));
    }
  }

  lemma {:induction false} CopiesHarmlessSame(s: State, events: seq<Event>, k: nat)
    requires UniqueIds(s) && CopiesHarmless(s, events) && k <= |events|
    ensures SameAsDeduplicated(s, events[..k])
  {
    if k > 0 {
      var a, e := events[..k - 1], events[k - 1];
      CopiesHarmlessSame(s, events, k - 1);
      assert events[..k] == a + [e];
      if e in a {
        HarmlessNext(s, a, e);
      }
      SameAsDeduplicatedNext(s, a, e, events[..k]);
    }
  }

  lemma DeduplicatedNext(events: seq<Event>, k: nat)
    requires k < |events|
    ensures Deduplicated(events[..k + 1])
            == if events[k] in events[..k] then Deduplicated(events[..k]) else Deduplicated(events[..k]) + [events[k]]
  {
    assert events[..k + 1][..k] == events[..k];
  }

  lemma SameSoHarmless(s: State, events: seq<Event>, k: nat)
    requires UniqueIds(s) && k < |events| && events[k] in events[..k]
    requires SameAsDeduplicated(s, events[..k]) && SameAsDeduplicated(s, events[..k + 1])
    ensures Harmless(Fed(s, events[..k]), events[k])
  {
    DeduplicatedNext(events, k);
    assert events[..k + 1] == events[..k] + [events[k]];
    HarmlessNext(s, events[..k], events[k]);
  }

  /** A stream agrees with its duplicate-free stream at all its points if and only if every later
      copy is harmless where it stands. */
  lemma DeduplicatedIff(s: State, events: seq<Event>)
    requires UniqueIds(s)
    ensures (forall k :: 0 <= k <= |events| ==> SameAsDeduplicated(s, events[..k])) <==> CopiesHarmless(s, events)
  {
    if CopiesHarmless(s, events) {
      forall k | 0 <= k <= |events| ensures SameAsDeduplicated(s, events[..k]) {
        CopiesHarmlessSame(s, events, k);
      }
    }
    if forall k :: 0 <= k <= |events| ==> SameAsDeduplicated(s, events[..k]) {
      forall k | 0 <= k < |events| && events[k] in events[..k] ensures Harmless(Fed(s, events[..k]), events[k]) {
        SameSoHarmless(s, events, k);
      }
    }
  }

  // ------------------------------------------------- a copy that acts

  const DEFAULT_BUDGETS := Budgets(32, 3600, 64, 2 * 1024 * 1024, 3, 3)

  function Plain(id: string, kind: Kind): Event {
    Event(id, kind, 0.0, "", "", 0, 0)
  }

  /** A loop with the default budgets that no event so far has burdened. */
  ghost predicate Unburdened(s: State) {
    && s.budgets == DEFAULT_BUDGETS && s.startedAt == 0.0 && |s.history| < 32
    && s.repeatedFailures == 0 && s.noProgress == 0 && s.phase !in Terminals()
  }

  ghost predicate NewId(s: State, id: string) {
    forall i :: 0 <= i < |s.history| ==> s.history[i].id != id
  }

  /** Plain events follow the transition table, and are refused where it has no entry. */
  lemma PlainStep(s: State, id: string, kind: Kind)
    requires Unburdened(s) && NewId(s, id) && kind != BlockedEvent && kind != FatalEvent
    requires Next(s.phase, kind) != Some(FAILED)
    ensures var next := Next(s.phase, kind);
            Kept(s, Plain(id, kind))
            == if next.None? then s else Append(s, Plain(id, kind), next.value, Because(kind), Running)
  {
  }

  /** The condition is needed: a copy of an event refused at first may be accepted later. Passing QA
      is refused in IMPLEMENT; two steps on, its exact copy moves the loop from QA to REVIEW. */
  lemma CopyCanAct(q: string, i: string, v: string)
    requires q != i && i != v && v != q
    ensures var s := Create(DEFAULT_BUDGETS, 0.0);
            var a := [Plain(q, QaPassed), Plain(i, ImplementationComplete), Plain(v, VerificationPassed)];
            && UniqueIds(s) && Fed(s, a).phase == QA && Fed(s, a + [Plain(q, QaPassed)]).phase == REVIEW
  {
    var s := Create(DEFAULT_BUDGETS, 0.0);
    var a := [Plain(q, QaPassed), Plain(i, ImplementationComplete), Plain(v, VerificationPassed)];
    var one := Append(s, a[1], FAST_VERIFY, Because(ImplementationComplete), Running);
    var two := Append(one, a[2], QA, Because(VerificationPassed), Running);
    PlainStep(s, q, QaPassed);
    PlainStep(s, i, ImplementationComplete);
    PlainStep(one, v, VerificationPassed);
    PlainStep(two, q, QaPassed);
    FedThrice(s, a[0], a[1], a[2]);
    FedNext(s, a, a[0]);
  }

  lemma FedThrice(s: State, x: Event, y: Event, z: Event)
    ensures Fed(s, [x, y, z]) == Kept(Kept(Kept(s, x), y), z)
  {
    FedNext(s, [], x);
    FedNext(s, [x], y);
    FedNext(s, [x, y], z);
    assert [] + [x] == [x] && [x] + [y] == [x, y] && [x, y] + [z] == [x, y, z];
  }

  // ------------------------------------------------- delivery failures

  /** A delivery failure applied again with the same evidence and time, at once or after any
      further events, refused ones among them, changes nothing while the loop is READY or in
      REMEDIATE; in any other phase it is refused. */
  lemma DeliveryIdempotent(sha: Digest, s: State, ref: string, at: real, later: seq<Event>)
    requires UniqueIds(s) && ApplyDeliveryFailure(sha, s, ref, at).Ok?
    ensures var u := Fed(ApplyDeliveryFailure(sha, s, ref, at).value, later);
            ApplyDeliveryFailure(sha, u, ref, at)
            == if u.phase == READY || u.phase == REMEDIATE then Ok(u) else Err(NotReopenable)
  {
    var e := DeliveryEvent(sha, ref, at);
    var t := ApplyDeliveryFailure(sha, s, ref, at).value;
    if s.phase == READY {
      AdvanceRecords(s, e);
    }
    assert Recorded(t, e);
    FedUnique(t, later);
    var u := Fed(t, later);
    StillRecorded(t, u, e);
    RecordedIsNoOp(u, e);
  }
}

/** What a rejected execution leaves usable, in every interleaving. */
module GatewayRejections {
  import opened Wrappers
  import opened OrderedDict
  import opened Gateway
  import opened GatewayRuns

  /** Replay marks are of issued ids, and no held receipt has one. */
  ghost predicate MarksApart(sys: System) {
    && (forall c :: c in sys.store.consumed ==> IssuedId(sys.trace, c.0))
    && (forall x, c :: x in sys.store.preflights && c in sys.store.consumed ==> x.0 != c.0)
    && Distinct(sys.store.consumed)
  }

  lemma {:induction false} DropExpiredDistinct<V(!new)>(d: Dict<V>, live: V -> bool)
    requires Distinct(d)
    ensures Distinct(DropExpired(d, live))
  {
    if d != [] {
      DropExpiredDistinct(d[1..], live);
      var rest := DropExpired(d[1..], live);
      forall x | x in rest ensures x.0 != d[0].0 {
        var j :| 0 <= j < |d[1..]| && d[1..][j] == x;
      }
    }
  }

  /** Fewer receipts, fewer marks and a longer trace keep the marks apart. */
  lemma FewerMarks(sys: System, next: System)
    requires MarksApart(sys) && Distinct(next.store.consumed)
    requires forall x :: x in next.store.preflights ==> x in sys.store.preflights
    requires forall c :: c in next.store.consumed ==> c in sys.store.consumed
    requires sys.trace <= next.trace
    ensures MarksApart(next)
  {
    forall c | c in next.store.consumed ensures IssuedId(next.trace, c.0) {
      var e :| e in sys.trace && e.Issue? && e.receipt.id == c.0;
      assert e in next.trace;
    }
  }

  lemma PrunedApart(sys: System, now: real, maxPreflights: nat, next: System)
    requires MarksApart(sys) && Keyed(sys.store.preflights)
    requires next.store == Pruned(sys.store, now, maxPreflights) && sys.trace <= next.trace
    ensures MarksApart(next)
  {
    PrunedKeeps(sys.store, now, maxPreflights);
    DropExpiredDistinct(sys.store.consumed, Remembered(now));
    FewerMarks(sys, next);
  }

  lemma InsertedApart(sys: System, g: nat, r: Receipt, d: Draft, mid: System)
    requires MarksApart(sys) && Keyed(sys.store.preflights) && !IssuedId(sys.trace, r.id)
    requires mid.store == sys.store.(preflights := Put(sys.store.preflights, r.id, r)) && mid.trace == sys.trace + [Issue(g, r, d)]
    ensures MarksApart(mid) && Keyed(mid.store.preflights)
  {
    PutMember(sys.store.preflights, r.id, r);
    forall c | c in mid.store.consumed ensures IssuedId(mid.trace, c.0) {
      var e :| e in sys.trace && e.Issue? && e.receipt.id == c.0;
      assert e in mid.trace;
    }
  }

  lemma SpentApart(sys: System, id: string, until: real, mid: System)
    requires MarksApart(sys) && Keyed(sys.store.preflights) && IssuedId(sys.trace, id)
    requires mid.store == Store(Remove(sys.store.preflights, id), Put(sys.store.consumed, id, until)) && mid.trace == sys.trace
    ensures MarksApart(mid) && Keyed(mid.store.preflights)
  {
    RemoveKeyed(sys.store.preflights, id);
    PutMember(sys.store.consumed, id, until);
  }

  lemma ConsumedApart(sys: System, g: nat, id: string, check: Receipt -> Result<Ticket, Error>, until: real, now: real, maxPreflights: nat)
    requires MarksApart(sys) && StoreBacked(sys)
    ensures MarksApart(Consumed(sys, g, id, check, until, now, maxPreflights))
  {
    var next := Consumed(sys, g, id, check, until, now, maxPreflights);
    if Examined(sys.store, id, now, check).Ok? {
      LookupExact(sys.store, id, now);
      var r := Lookup(sys.store, id, now).value;
      assert (id, r) in sys.store.preflights;
      WasIssuedId(sys.trace, r);
      var mid := sys.(store := Store(Remove(sys.store.preflights, id), Put(sys.store.consumed, id, until)));
      SpentApart(sys, id, until, mid);
      PrunedApart(mid, now, maxPreflights, next);
    } else {
      LookedExact(sys.store, id, now);
      FewerMarks(sys, next);
    }
  }

  lemma InsertApart(sys: System, i: nat, id: string, token: string, handlerState: string, now: real)
    requires MarksApart(sys) && StoreBacked(sys) && !IssuedId(sys.trace, id)
    ensures MarksApart(Apply(sys, Insert(i, id, token, handlerState, now)))
  {
    var next := Apply(sys, Insert(i, id, token, handlerState, now));
    if i < |sys.drafts| && sys.drafts[i].0 in sys.gateways {
      var (g, d) := sys.drafts[i];
      var gs := sys.gateways[g];
      var r := Issued(gs, d, id, token, handlerState, now);
      if r.Ok? {
        var mid := sys.(store := sys.store.(preflights := Put(sys.store.preflights, id, r.value)),
                        trace := sys.trace + [Issue(g, r.value, d)]);
        InsertedApart(sys, g, r.value, d, mid);
        PrunedApart(mid, now, gs.maxPreflights, next);
      } else {
        FewerMarks(sys, next);
      }
    }
  }

  lemma ApplyApart(sys: System, step: Step)
    requires MarksApart(sys) && StoreBacked(sys) && (step.Insert? ==> !IssuedId(sys.trace, step.id))
    ensures MarksApart(Apply(sys, step))
  {
    var next := Apply(sys, step);
    match step
    case Begin(g, reg, capability, params, context, now) =>
      if g in sys.gateways && next != sys {
        PrunedApart(sys, now, sys.gateways[g].maxPreflights, next);
      }
    case Insert(i, id, token, handlerState, now) =>
      InsertApart(sys, i, id, token, handlerState, now);
    case Consume(g, reg, id, capability, params, context, confirmation, now) =>
      if g in sys.gateways {
        ConsumedApart(sys, g, id, Check(sys.gateways[g], reg, capability, params, context, confirmation, now),
                      ReplayUntil(sys.gateways[g].ttl, now), now, sys.gateways[g].maxPreflights);
      }
    case _ =>
      FewerMarks(sys, next);
  }

  lemma {:induction false} RunApart(steps: seq<Step>)
    requires FreshIds(steps)
    ensures MarksApart(Run(steps))
  {
    if steps != [] {
      var n := |steps| - 1;
      RunApart(steps[..n]);
      RunInv(steps[..n]);
      ApplyApart(Run(steps[..n]), steps[n]);
    }
  }

  lemma HeldIsUsable(sys: System, x: (string, Receipt), later: real)
    requires MarksApart(sys) && Keyed(sys.store.preflights) && x in sys.store.preflights && later < x.1.expiresAt
    ensures Lookup(sys.store, x.0, later) == Ok(x.1)
  {
    FindMember(sys.store.preflights, x.0, x.1);
    var consumed := sys.store.consumed;
    forall i | 0 <= i < |consumed| ensures consumed[i].0 != x.0 {
      assert consumed[i] in consumed;
    }
  }

  /** In every run, an attempt that is rejected for whatever reason starts nothing and spends
      nothing: each unexpired receipt is still held, and is found usable at every time before it expires. */
  lemma RejectionKeepsReceipt(steps: seq<Step>, g: nat, reg: Registry, id: string, capability: string,
                              params: string, c: Context, confirmation: string, now: real)
    requires FreshIds(steps) && g in Run(steps).gateways
    requires var sys := Run(steps);
             Examined(sys.store, id, now, Check(sys.gateways[g], reg, capability, params, c, confirmation, now)).Err?
    ensures var sys := Run(steps);
            var next := Apply(sys, Consume(g, reg, id, capability, params, c, confirmation, now));
            && next == sys.(store := next.store) && next.store.consumed == sys.store.consumed
            && forall x, later :: x in sys.store.preflights && now < x.1.expiresAt && later < x.1.expiresAt ==>
                 x in next.store.preflights && Lookup(next.store, x.0, later) == Ok(x.1)
  {
    var sys := Run(steps);
    var check := Check(sys.gateways[g], reg, capability, params, c, confirmation, now);
    var next := Consumed(sys, g, id, check, ReplayUntil(sys.gateways[g].ttl, now), now, sys.gateways[g].maxPreflights);
    RunInv(steps);
    RunApart(steps);
    LookedExact(sys.store, id, now);
    FewerMarks(sys, next);
    forall x, later | x in sys.store.preflights && now < x.1.expiresAt && later < x.1.expiresAt
      ensures x in next.store.preflights && Lookup(next.store, x.0, later) == Ok(x.1)
    {
      HeldIsUsable(next, x, later);
    }
  }
}

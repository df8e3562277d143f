/** What the journal of a run shows of each task's life. */
module LedgerHistory {
  import opened Wrappers
  import opened OrderedDict
  import opened Ledger
  import opened LedgerTerms
  import opened LedgerRuns

  /** The edits that send a task back to an earlier state. */
  predicate Reset(e: Entry) {
    e.edit.Some? && (e.edit.value.Rollback? || e.edit.value.Resume? || e.edit.value.Reactivate?)
  }

  predicate Forward(e: Entry) {
    e.before.Some? && e.before.value.status != e.after.status && !Reset(e)
  }

  function Forwards(journal: seq<Entry>, id: string): nat {
    if journal == [] then 0
    else
      var e := journal[|journal| - 1];
      Forwards(journal[..|journal| - 1], id) + if e.after.taskId == id && Forward(e) then 1 else 0
  }

  function Resets(journal: seq<Entry>, id: string): nat {
    if journal == [] then 0
    else
      var e := journal[|journal| - 1];
      Resets(journal[..|journal| - 1], id) + if e.after.taskId == id && Reset(e) then 1 else 0
  }

  /** The most forward changes a task can still make. */
  function Ahead(s: Status): nat {
    match s
    case Queued => 6
    case Ready => 5
    case Leased => 4
    case Running => 3
    case Verifying => 2
    case ReviewReady => 1
    case _ => 0
  }

  lemma ForwardDescends(from: Status, to: Status)
    requires Allowed(from, to)
    ensures Ahead(to) < Ahead(from)
  {
  }

  function Receipts(t: Task): seq<string> {
    [t.patchHash, t.verification, t.audit, t.integration, t.gitCommit, t.gitPush]
  }

  /** The request of a task is never rewritten; a receipt is only replaced by another, unless a
      stale task is taken up again, which drops them all; the binding lease gives way only to a reset. */
  ghost predicate Preserving(b: Task, a: Task, edit: Edit) {
    && a.requestId == b.requestId && a.workspace == b.workspace && a.title == b.title
    && a.createdAt == b.createdAt && a.dependencies == b.dependencies && a.contextPack == b.contextPack
    && (if edit.Resume? || edit.Reactivate? then forall r :: r in Receipts(a) ==> r == ""
        else forall i :: 0 <= i < 6 && Receipts(b)[i] != "" ==> Receipts(a)[i] != "")
    && (b.leaseId != "" && a.leaseId != b.leaseId ==> edit.Rollback? || edit.Resume? || edit.Reactivate?)
  }

  /** What each stored receipt may change, compared with the one it replaces. */
  ghost predicate Lawful(e: Entry) {
    if e.before.None? then
      && e.edit.None? && e.after.status == Queued && e.after.owner == None && e.after.leaseId == "" && NoReceipts(e.after)
    else
      var b, a := e.before.value, e.after;
      && e.edit.Some? && Permitted(b, e.edit.value) && Written(e.edit.value, b, a) && Preserving(b, a, e.edit.value)
      && (b.status in {Succeeded, Failed, Cancelled, Blocked} ==> a.status == b.status)
      && (b.owner.Some? ==>
            a.owner == b.owner || (a.owner == None && (e.edit.value.Rollback? || e.edit.value.Resume?)))
      && (!Reset(e) ==> a.status == b.status || Allowed(b.status, a.status))
      && (Reset(e) ==> b.status in {Leased, Running, Stale} && a.status in {Ready, Running} && a.status != b.status)
      && (a.status == Running && b.status != Running ==> b.status in {Queued, Ready, Leased, Stale})
  }

  /** Each entry replaces the last stored receipt of its task, lawfully. */
  ghost predicate Chained(base: Table, journal: seq<Entry>) {
    journal == [] ||
    var n := |journal| - 1;
    && Chained(base, journal[..n]) && Lawful(journal[n])
    && journal[n].before == Find(Replay(base, journal[..n]), journal[n].after.taskId)
  }

  lemma EditedPreserving(current: Task, edit: Edit, now: string)
    requires Edited(current, edit, now).Ok?
    ensures Preserving(current, Edited(current, edit, now).value, edit)
  {
  }

  lemma EditedLawful(current: Task, edit: Edit, now: string)
    requires Edited(current, edit, now).Ok? && !Repeats(current, edit)
    ensures Lawful(Entry(Some(edit), Some(current), Edited(current, edit, now).value))
  {
    EditedPreserving(current, edit, now);
    EditedExactly(current, edit, now);
  }

  /** Every receipt the call stores replaces the last one of its task. */
  ghost predicate Replaces(replayed: Table, entries: seq<Entry>) {
    entries != [] ==> Lawful(entries[0]) && entries[0].before == Find(replayed, entries[0].after.taskId)
  }

  lemma EnqueueReplaces(rules: Rules, max: nat, t: Table, replayed: Table, req: NewTask, id: string, now: string, accepts: Task -> bool)
    requires !Has(replayed, id)
    ensures Replaces(replayed, Enqueue(rules, max, t, req, id, now, accepts).entries)
  {
    EnqueueLeaves(rules, max, t, req, id, now, accepts);
  }

  lemma ApplyReplaces(rules: Rules, max: nat, t: Table, replayed: Table, id: string, edit: Edit, now: string, accepts: Task -> bool)
    requires Settled(max, t, replayed)
    ensures Replaces(replayed, Apply(rules, t, id, edit, now, accepts).entries)
  {
    ApplyShape(rules, t, id, edit, now, accepts);
    if Find(t, id).Some? && Apply(rules, t, id, edit, now, accepts).entries != [] {
      var current := Find(t, id).value;
      EditedLawful(current, edit, now);
      EditedIdentity(current, edit, now);
      FindMember(t, id, current);
      FindMember(replayed, id, current);
    }
  }

  lemma LoggedChained(s: History, e: Effect)
    requires Chained(s.base, s.journal) && |e.entries| <= 1 && Replaces(Replayed(s), e.entries)
    ensures Chained(s.base, Logged(s, e).journal)
  {
    var j := s.journal + e.entries;
    if e.entries == [] {
      assert j == s.journal;
    } else {
      assert j[..|j| - 1] == s.journal;
    }
  }

  lemma StepChained(rules: Rules, max: nat, s: History, call: Call)
    requires Holds(max, s) && Chained(s.base, s.journal)
    requires call.EnqueueCall? ==> !Has(Replayed(s), call.newId)
    ensures var r := Step(rules, max, s, call);
            Chained(r.base, r.journal)
  {
    match call {
      case EnqueueCall(req, id, now, accepts) =>
        EnqueueLeaves(rules, max, s.table, req, id, now, accepts);
        EnqueueReplaces(rules, max, s.table, Replayed(s), req, id, now, accepts);
        LoggedChained(s, Enqueue(rules, max, s.table, req, id, now, accepts));
      case EditCall(id, edit, now, accepts) =>
        ApplyShape(rules, s.table, id, edit, now, accepts);
        ApplyReplaces(rules, max, s.table, Replayed(s), id, edit, now, accepts);
        LoggedChained(s, Apply(rules, s.table, id, edit, now, accepts));
      case RestoreCall(records, replaceExisting) =>
    }
  }

  /** In every run with new ids for new tasks, the journal since the last restore is a lawful
      chain per task: succeeded, failed, cancelled and blocked are never left, and an owner
      stays until a rollback or a resume clears it. */
  lemma {:induction false} RunChained(rules: Rules, max: nat, calls: seq<Call>)
    requires FreshIds(rules, max, calls)
    ensures var s := Run(rules, max, calls);
            Chained(s.base, s.journal)
  {
    if calls != [] {
      var n := |calls| - 1;
      RunChained(rules, max, calls[..n]);
      RunBounded(rules, max, calls[..n]);
      StepChained(rules, max, Run(rules, max, calls[..n]), calls[n]);
    }
  }

  lemma FindAfterPut(t: Table, task: Task, id: string)
    ensures Find(Put(t, task.taskId, task), id) == if id == task.taskId then Some(task) else Find(t, id)
  {
    var r := Put(t, task.taskId, task);
    var i, j := IndexOf(r, id), IndexOf(t, id);
    if id == task.taskId {
      assert r[j] == (id, task);
      assert forall k :: 0 <= k < j ==> r[k] == t[k];
    } else {
      assert j < |t| ==> r[j] == t[j] && i == j;
      assert j == |t| ==> i == |r|;
    }
  }

  /** The forward changes open to a task of the base, or to a new one. */
  function Budget(base: Table, id: string): nat {
    if Find(base, id).Some? then Ahead(Find(base, id).value.status) else 6
  }

  /** Forward status changes are paid for by the states left ahead and by resets. */
  lemma {:induction false} ChangesBounded(base: Table, journal: seq<Entry>, id: string)
    requires Chained(base, journal)
    ensures var last := Find(Replay(base, journal), id);
            && (last.None? ==> Find(base, id).None? && Forwards(journal, id) == Resets(journal, id) == 0)
            && (last.Some? ==>
                  Forwards(journal, id) + Ahead(last.value.status) <= Budget(base, id) + 5 * Resets(journal, id))
  {
    if journal != [] {
      var n := |journal| - 1;
      ChangesBounded(base, journal[..n], id);
      FindAfterPut(Replay(base, journal[..n]), journal[n].after, id);
      var e := journal[n];
      if e.after.taskId == id && Forward(e) {
        ForwardDescends(e.before.value.status, e.after.status);
      }
    }
  }

  /** Per task, in every run, since the last restore: at most as many forward changes as the
      restored state has states ahead, six for a new task, and five more for each reset. */
  lemma ForwardBudget(rules: Rules, max: nat, calls: seq<Call>, id: string)
    requires FreshIds(rules, max, calls)
    ensures var s := Run(rules, max, calls);
            Forwards(s.journal, id) <= Budget(s.base, id) + 5 * Resets(s.journal, id)
  {
    RunChained(rules, max, calls);
    ChangesBounded(Run(rules, max, calls).base, Run(rules, max, calls).journal, id);
  }

  /** The states a task is in only after having run. */
  predicate PastStart(s: Status) {
    s == Running || s == Verifying || s == ReviewReady || s == Succeeded || s == Failed
  }

  /** The task was stored as running, or restored in a state past its start. */
  ghost predicate RanBefore(base: Table, journal: seq<Entry>, id: string) {
    || (Find(base, id).Some? && PastStart(Find(base, id).value.status))
    || exists i :: 0 <= i < |journal| && journal[i].after.taskId == id && journal[i].after.status == Running
  }

  lemma LawfulPastStart(e: Entry)
    requires Lawful(e) && PastStart(e.after.status)
    ensures e.after.status == Running || (e.before.Some? && PastStart(e.before.value.status))
  {
  }

  lemma RanBeforeGrows(base: Table, journal: seq<Entry>, n: nat, id: string)
    requires n <= |journal| && RanBefore(base, journal[..n], id)
    ensures RanBefore(base, journal, id)
  {
    if !(Find(base, id).Some? && PastStart(Find(base, id).value.status)) {
      var i :| 0 <= i < n && journal[..n][i].after.taskId == id && journal[..n][i].after.status == Running;
      assert journal[i].after.status == Running;
    }
  }

  /** Once a task is past its start, its journal shows it running, or it was restored so. */
  lemma {:induction false} PastStartRan(base: Table, journal: seq<Entry>, id: string)
    requires Chained(base, journal)
    ensures var last := Find(Replay(base, journal), id);
            last.Some? && PastStart(last.value.status) ==> RanBefore(base, journal, id)
  {
    if journal != [] {
      var n := |journal| - 1;
      PastStartRan(base, journal[..n], id);
      FindAfterPut(Replay(base, journal[..n]), journal[n].after, id);
      if PastStart(journal[n].after.status) {
        LawfulPastStart(journal[n]);
      }
      if RanBefore(base, journal[..n], id) {
        RanBeforeGrows(base, journal, n, id);
      }
    }
  }

  lemma {:induction false} ChainedPrefix(base: Table, journal: seq<Entry>, k: nat)
    requires Chained(base, journal) && k <= |journal|
    ensures Chained(base, journal[..k])
    ensures k < |journal| ==>
              Lawful(journal[k]) && journal[k].before == Find(Replay(base, journal[..k]), journal[k].after.taskId)
  {
    var n := |journal| - 1;
    if k < |journal| {
      ChainedPrefix(base, journal[..n], if k < n then k else n);
      assert k < n ==> journal[..n][..k] == journal[..k];
    } else {
      assert journal[..k] == journal;
    }
  }

  ghost predicate EntrySound(base: Table, j: seq<Entry>, k: nat)
    requires k < |j|
  {
    && Lawful(j[k]) && j[k].before == Find(Replay(base, j[..k]), j[k].after.taskId)
    && (j[k].after.status == Succeeded || j[k].after.status == Failed ==> RanBefore(base, j[..k], j[k].after.taskId))
  }

  lemma ChainedSound(base: Table, j: seq<Entry>, k: nat)
    requires Chained(base, j) && k < |j|
    ensures EntrySound(base, j, k)
  {
    ChainedPrefix(base, j, k);
    PastStartRan(base, j[..k], j[k].after.taskId);
    if PastStart(j[k].after.status) {
      LawfulPastStart(j[k]);
    }
  }

  /** Every receipt that a run stores after its last restore, compared with the task's
      previous receipt: it replaces exactly that one, lawfully, and a task reported as
      succeeded or failed was stored as running before, or restored in a later state. */
  lemma EveryEntry(rules: Rules, max: nat, calls: seq<Call>)
    requires FreshIds(rules, max, calls)
    ensures var s := Run(rules, max, calls);
            forall k :: 0 <= k < |s.journal| ==> EntrySound(s.base, s.journal, k)
  {
    RunChained(rules, max, calls);
    var s := Run(rules, max, calls);
    forall k | 0 <= k < |s.journal| ensures EntrySound(s.base, s.journal, k) {
      ChainedSound(s.base, s.journal, k);
    }
  }
}

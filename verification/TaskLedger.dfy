/** `TaskLedger`: the bounded table of task receipts, updated in place after each notification. */
module TaskLedger {
  import opened Wrappers
  import opened OrderedDict
  import opened Sorting
  import opened Ledger
  import opened LedgerRestores
  import opened LedgerRuns

  class TaskLedger {
    const rules: Rules
    const max: nat
    var records: Table
    ghost var base: Table
    ghost var journal: seq<Entry>

    ghost function State(): History
      reads this
    {
      History(records, base, journal)
    }

    ghost predicate Valid()
      reads this
    {
      Ledger.Keyed(records) && |records| <= max
    }

    constructor (rules: Rules, max: nat)
      requires 1 <= max <= 4096
      ensures Valid() && this.rules == rules && this.max == max && State() == Run(rules, max, [])
    {
      this.rules, this.max := rules, max;
      records, base, journal := [], [], [];
    }

    /** Notify, then store; nothing is stored when the notification raises. */
    method Save(ghost edit: Option<Edit>, ghost before: Option<Task>, task: Task, accepts: Task -> bool)
      returns (r: Result<Task, Error>)
      requires Valid() && (Has(records, task.taskId) || |records| < max)
      modifies this`records, this`journal
      ensures Valid()
      ensures var e := Store(old(records), Entry(edit, before, task), accepts);
              records == e.table && journal == old(journal) + e.entries && r == e.outcome
    {
      if !accepts(task) {
        return Err(NotifyRaised);
      }
      journal := journal + [Entry(edit, before, task)];
      PutMember(records, task.taskId, task);
      records := Put(records, task.taskId, task);
      return Ok(task);
    }

    method TrimForInsert() returns (ok: bool)
      requires Valid()
      modifies this`records
      ensures Valid() && (records, ok) == Trim(old(records), max)
    {
      while |records| >= max
        invariant Valid() && Trim(records, max) == Trim(old(records), max)
        decreases |records|
      {
        var oldest := Oldest(records);
        if oldest.None? {
          return false;
        }
        HasMember(records, oldest.value);
        RemoveMember(records, oldest.value.0);
        records := Remove(records, oldest.value.0);
      }
      return true;
    }

    method Enqueue(req: NewTask, id: string, now: string, accepts: Task -> bool) returns (r: Result<Task, Error>)
      requires Valid()
      modifies this`records, this`journal
      ensures Valid()
      ensures var e := Ledger.Enqueue(rules, max, old(records), req, id, now, accepts);
              records == e.table && journal == old(journal) + e.entries && r == e.outcome
    {
      if !ValidNew(rules, req) {
        return Err(Invalid);
      }
      var i := 0;
      while i < |records|
        invariant i <= |records|
        invariant Existing(records, req.requestId, req.workspace) == Existing(records[i..], req.requestId, req.workspace)
      {
        var record := records[i].1;
        if record.requestId == req.requestId && record.workspace == req.workspace {
          if record.title != req.title {
            return Err(RequestReused);
          }
          return Ok(record);
        }
        i := i + 1;
      }
      TrimKeeps(records, max);
      var ok := TrimForInsert();
      if !ok {
        return Err(Full);
      }
      r := Save(None, None, Fresh(req, id, now), accepts);
    }

    method BindExecution(id: string, tree: string, session: string, revision: string,
                         paths: Option<seq<string>>, resources: Option<seq<string>>,
                         now: string, accepts: Task -> bool) returns (r: Result<Task, Error>)
      requires Valid()
      modifies this`records, this`journal
      ensures Valid()
      ensures var e := Apply(rules, old(records), id, Bind(tree, session, revision, paths, resources), now, accepts);
              records == e.table && journal == old(journal) + e.entries && r == e.outcome
    {
      ghost var edit := Bind(tree, session, revision, paths, resources);
      if !rules.identifier(id) || !ValidEdit(rules, Bind(tree, session, revision, paths, resources)) {
        return Err(Invalid);
      }
      var current := Find(records, id);
      if current.None? {
        return Err(UnknownTask);
      }
      FindMember(records, id, current.value);
      var bound := current.value.(tree := tree, session := session,
                                  baseRevision := OrKeep(revision, current.value.baseRevision), updatedAt := now);
      if paths.Some? {
        bound := bound.(allowedPaths := paths.value);
      }
      if resources.Some? {
        bound := bound.(resources := resources.value);
      }
      r := Save(Some(edit), current, bound, accepts);
    }

    method Transition(id: string, status: Status, owner: Option<string>, evidence: Evidence,
                      now: string, accepts: Task -> bool) returns (r: Result<Task, Error>)
      requires Valid()
      modifies this`records, this`journal
      ensures Valid()
      ensures var e := Apply(rules, old(records), id, Move(status, owner, evidence), now, accepts);
              records == e.table && journal == old(journal) + e.entries && r == e.outcome
    {
      if !rules.identifier(id) || !ValidEdit(rules, Move(status, owner, evidence)) {
        return Err(Invalid);
      }
      var current := Find(records, id);
      if current.None? {
        return Err(UnknownTask);
      }
      FindMember(records, id, current.value);
      var updated := Moved(current.value, status, owner, evidence, now);
      if updated.Err? {
        return updated;
      }
      r := Save(Some(Move(status, owner, evidence)), current, updated.value, accepts);
    }

    method StartTask(id: string, starter: string, now: string, accepts: Task -> bool) returns (r: Result<Task, Error>)
      requires Valid()
      modifies this`records, this`journal
      ensures Valid()
      ensures var e := Apply(rules, old(records), id, Start(starter), now, accepts);
              records == e.table && journal == old(journal) + e.entries && r == e.outcome
    {
      if !rules.identifier(id) || !rules.identifier(starter) {
        return Err(Invalid);
      }
      var current := Find(records, id);
      if current.None? {
        return Err(UnknownTask);
      }
      FindMember(records, id, current.value);
      if current.value.status == Running && current.value.owner == Some(starter) {
        return Ok(current.value);
      }
      if current.value.status != Queued && current.value.status != Ready && current.value.status != Leased {
        return Err(NotStartable);
      }
      var updated := Moved(current.value, Running, Some(starter), NO_EVIDENCE, now);
      if updated.Err? {
        return updated;
      }
      r := Save(Some(Start(starter)), current, updated.value, accepts);
    }

    method RollbackClaim(id: string, note: string, now: string, accepts: Task -> bool) returns (r: Result<Task, Error>)
      requires Valid()
      modifies this`records, this`journal
      ensures Valid()
      ensures var e := Apply(rules, old(records), id, Rollback(note), now, accepts);
              records == e.table && journal == old(journal) + e.entries && r == e.outcome
    {
      if !rules.identifier(id) || !rules.detail(note) {
        return Err(Invalid);
      }
      var current := Find(records, id);
      if current.None? {
        return Err(UnknownTask);
      }
      FindMember(records, id, current.value);
      if current.value.status != Leased && current.value.status != Running {
        return Err(NotRollbackable);
      }
      var updated := current.value.(status := Ready, owner := None, leaseId := "", tree := "", session := "",
                                    detail := OrKeep(note, current.value.detail), updatedAt := now);
      r := Save(Some(Rollback(note)), current, updated, accepts);
    }

    method ResumeTask(id: string, resumer: string, revision: string, note: string,
                      now: string, accepts: Task -> bool) returns (r: Result<Task, Error>)
      requires Valid()
      modifies this`records, this`journal
      ensures Valid()
      ensures var e := Apply(rules, old(records), id, Resume(resumer, revision, note), now, accepts);
              records == e.table && journal == old(journal) + e.entries && r == e.outcome
    {
      if !rules.identifier(id) || !ValidEdit(rules, Resume(resumer, revision, note)) {
        return Err(Invalid);
      }
      var current := Find(records, id);
      if current.None? {
        return Err(UnknownTask);
      }
      FindMember(records, id, current.value);
      var refused := StaleGuard(current.value, resumer, revision);
      if refused.Some? {
        return Err(refused.value);
      }
      var updated := Cleared(current.value, revision, note, now).(status := Ready, owner := None, leaseId := "");
      r := Save(Some(Resume(resumer, revision, note)), current, updated, accepts);
    }

    method ReactivateTask(id: string, resumer: string, lease: string, revision: string, note: string,
                          now: string, accepts: Task -> bool) returns (r: Result<Task, Error>)
      requires Valid()
      modifies this`records, this`journal
      ensures Valid()
      ensures var e := Apply(rules, old(records), id, Reactivate(resumer, lease, revision, note), now, accepts);
              records == e.table && journal == old(journal) + e.entries && r == e.outcome
    {
      if !rules.identifier(id) || !ValidEdit(rules, Reactivate(resumer, lease, revision, note)) {
        return Err(Invalid);
      }
      var current := Find(records, id);
      if current.None? {
        return Err(UnknownTask);
      }
      FindMember(records, id, current.value);
      var refused := StaleGuard(current.value, resumer, revision);
      if refused.Some? {
        return Err(refused.value);
      }
      var updated := Cleared(current.value, revision, note, now)
                     .(status := Running, owner := Some(resumer), leaseId := lease);
      r := Save(Some(Reactivate(resumer, lease, revision, note)), current, updated, accepts);
    }

    method FinishTask(id: string, final: Status, finisher: string, note: string, ref: string,
                      now: string, accepts: Task -> bool) returns (r: Result<Task, Error>)
      requires Valid()
      modifies this`records, this`journal
      ensures Valid()
      ensures var e := Apply(rules, old(records), id, Finish(final, finisher, note, ref), now, accepts);
              records == e.table && journal == old(journal) + e.entries && r == e.outcome
    {
      if !rules.identifier(id) || !ValidEdit(rules, Finish(final, finisher, note, ref)) {
        return Err(Invalid);
      }
      var current := Find(records, id);
      if current.None? {
        return Err(UnknownTask);
      }
      FindMember(records, id, current.value);
      var status := current.value.status;
      if (status != Running && status != Verifying && status != ReviewReady) || current.value.owner != Some(finisher) {
        return Err(NotOwned);
      }
      var moved := Moved(current.value, final, None, NO_EVIDENCE, now);
      if moved.Err? {
        return moved;
      }
      var updated := moved.value.(detail := note, resultRef := ref);
      r := Save(Some(Finish(final, finisher, note, ref)), current, updated, accepts);
    }

    /** Load persisted receipts without replaying transitions; nothing is notified. */
    method RestoreRecords(incoming: seq<Task>, replaceExisting: bool)
      requires Valid()
      modifies this
      ensures Valid()
      ensures records == Restore(old(records), max, incoming, replaceExisting)
      ensures base == records && journal == []
    {
      ghost var restored := Restore(records, max, incoming, replaceExisting);
      assert Ledger.Keyed(restored) && |restored| <= max by {
        RestoreExact(records, max, incoming, replaceExisting);
      }
      if replaceExisting {
        records := [];
      }
      ghost var held := records;
      var i := 0;
      while i < |incoming|
        invariant i <= |incoming| && records == PutAll(held, incoming[..i])
      {
        ghost var before := records;
        var record := Revived(incoming[i]);
        records := Put(records, record.taskId, record);
        PutAllNext(held, incoming, i, record, before, records);
        i := i + 1;
      }
      assert incoming[..i] == incoming;
      ghost var all := records;
      if |records| > max {
        var ordered := SortBy(AgeLe, records);
        records := ordered[|ordered| - max..];
      }
      assert records == Cut(all, max);
      base, journal := records, [];
    }
  }
}

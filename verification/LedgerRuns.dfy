/** What every run of ledger calls keeps, and what its journal shows of each task. */
module LedgerRuns {
  import opened Wrappers
  import opened OrderedDict
  import opened Sorting
  import opened Ledger
  import opened LedgerRestores

  datatype Call =
    | EnqueueCall(req: NewTask, newId: string, now: string, accepts: Task -> bool)
    | EditCall(id: string, edit: Edit, now: string, accepts: Task -> bool)
    | RestoreCall(records: seq<Task>, replaceExisting: bool)

  /** The journal tells what happened since the table was `base`, the last restored one. */
  datatype History = History(table: Table, base: Table, journal: seq<Entry>)

  function Logged(s: History, e: Effect): History {
    History(e.table, s.base, s.journal + e.entries)
  }

  function Step(rules: Rules, max: nat, s: History, call: Call): (r: History) {
    match call
    case EnqueueCall(req, id, now, accepts) => Logged(s, Enqueue(rules, max, s.table, req, id, now, accepts))
    case EditCall(id, edit, now, accepts) => Logged(s, Apply(rules, s.table, id, edit, now, accepts))
    case RestoreCall(records, replaceExisting) =>
      var t := Restore(s.table, max, records, replaceExisting);
      History(t, t, [])
  }

  function Run(rules: Rules, max: nat, calls: seq<Call>): (s: History) {
    if calls == [] then History([], [], [])
    else Step(rules, max, Run(rules, max, calls[..|calls| - 1]), calls[|calls| - 1])
  }

  /** The ledger rebuilt from a base and its notifications alone. */
  function Replay(base: Table, journal: seq<Entry>): (t: Table) {
    if journal == [] then base
    else
      var last := journal[|journal| - 1].after;
      Put(Replay(base, journal[..|journal| - 1]), last.taskId, last)
  }

  function Replayed(s: History): (t: Table) {
    Replay(s.base, s.journal)
  }

  /** Random task ids are new: no call proposes an id that the journal or its base names. */
  ghost predicate FreshIds(rules: Rules, max: nat, calls: seq<Call>) {
    calls == [] ||
    var n := |calls| - 1;
    && FreshIds(rules, max, calls[..n])
    && (calls[n].EnqueueCall? ==> !Has(Replayed(Run(rules, max, calls[..n])), calls[n].newId))
  }

  // ---------------------------------------------------------------- tables

  /** The table is the replayed journal, except for tasks in evictable states. */
  ghost predicate Covered(t: Table, replayed: Table) {
    && Ledger.Keyed(replayed)
    && (forall x :: x in t ==> x in replayed)
    && (forall x :: x in replayed && x !in t ==> Evictable(x.1.status))
  }

  lemma {:induction false} TrimKeeps(t: Table, max: nat)
    requires Ledger.Keyed(t)
    ensures var r := Trim(t, max).0;
            && Ledger.Keyed(r)
            && (forall x :: x in r ==> x in t)
            && (forall x :: x in t && x !in r ==> Evictable(x.1.status))
            && |r| <= |t| && (Trim(t, max).1 ==> |r| < max)
    decreases |t|
  {
    if |t| >= max && Oldest(t).Some? {
      var key := Oldest(t).value.0;
      HasMember(t, Oldest(t).value);
      RemoveMember(t, key);
      TrimKeeps(Remove(t, key), max);
    }
  }

  lemma {:induction false} OldestIsLeast(t: Table, x: (string, Task))
    requires x in t && Evictable(x.1.status)
    ensures Oldest(t).Some? && StrLe(Oldest(t).value.1.createdAt, x.1.createdAt)
  {
    assert t == [t[0]] + t[1..];
    if x in t[1..] {
      OldestIsLeast(t[1..], x);
      StrTotal(t[0].1.createdAt, Oldest(t[1..]).value.1.createdAt);
      if StrLe(t[0].1.createdAt, Oldest(t[1..]).value.1.createdAt) {
        StrTransitive(t[0].1.createdAt, Oldest(t[1..]).value.1.createdAt, x.1.createdAt);
      }
    } else {
      StrTotal(x.1.createdAt, x.1.createdAt);
      if Oldest(t[1..]).Some? {
        StrTotal(t[0].1.createdAt, Oldest(t[1..]).value.1.createdAt);
      }
    }
  }

  ghost predicate OldestEvictable(t: Table, gone: (string, Task)) {
    && gone in t && Evictable(gone.1.status)
    && forall x :: x in t && Evictable(x.1.status) ==> StrLe(gone.1.createdAt, x.1.createdAt)
  }

  /** A full ledger makes room by dropping one task, an evictable one that none of the
      evictable tasks predates; it refuses only when no task is evictable. */
  lemma EvictsOldest(t: Table, max: nat)
    requires Ledger.Keyed(t) && 0 < max == |t|
    ensures var (room, ok) := Trim(t, max);
            && (ok <==> exists x :: x in t && Evictable(x.1.status))
            && (!ok ==> room == t)
            && (ok ==> exists gone :: OldestEvictable(t, gone) && forall x :: x in room <==> x in t && x != gone)
  {
    if Oldest(t).Some? {
      var gone := Oldest(t).value;
      HasMember(t, gone);
      RemoveMember(t, gone.0);
      FindMember(t, gone.0, gone.1);
      forall x | x in t && Evictable(x.1.status) ensures StrLe(gone.1.createdAt, x.1.createdAt) {
        OldestIsLeast(t, x);
      }
      forall x | x in t && x.0 == gone.0 ensures x == gone {
        FindMember(t, x.0, x.1);
      }
      assert OldestEvictable(t, gone);
      var room := Remove(t, gone.0);
      assert Trim(t, max) == Trim(room, max) == (room, true);
      assert forall x :: x in room <==> x in t && x != gone;
    }
  }

  lemma {:induction false} ExistingMeaning(t: Table, requestId: string, workspace: string)
    ensures var r := Existing(t, requestId, workspace);
            && (r.Some? ==> r.value.requestId == requestId && r.value.workspace == workspace
                            && exists x :: x in t && x.1 == r.value)
            && (r.None? ==> forall x :: x in t ==> !(x.1.requestId == requestId && x.1.workspace == workspace))
  {
    if t != [] {
      assert t == [t[0]] + t[1..];
      ExistingMeaning(t[1..], requestId, workspace);
    }
  }

  lemma EditedIdentity(current: Task, edit: Edit, now: string)
    requires Edited(current, edit, now).Ok?
    ensures var after := Edited(current, edit, now).value;
            && after.taskId == current.taskId && SameRequest(after, current)
            && after.title == current.title && after.createdAt == current.createdAt
  {
  }

  lemma PutCovered(t: Table, replayed: Table, task: Task)
    requires Ledger.Keyed(t) && Covered(t, replayed)
    ensures Covered(Put(t, task.taskId, task), Put(replayed, task.taskId, task))
  {
    PutMember(t, task.taskId, task);
    PutMember(replayed, task.taskId, task);
  }

  /** The replayed ledger after the notifications of one call. */
  function Advanced(replayed: Table, entries: seq<Entry>): Table {
    if entries == [] then replayed
    else Put(replayed, entries[|entries| - 1].after.taskId, entries[|entries| - 1].after)
  }

  /** What holds between two calls: at most `max` tasks, which the replayed journal covers. */
  ghost predicate Settled(max: nat, t: Table, replayed: Table) {
    Ledger.Keyed(t) && |t| <= max && Covered(t, replayed)
  }

  lemma TrimSettled(max: nat, t: Table, replayed: Table)
    requires Settled(max, t, replayed)
    ensures Settled(max, Trim(t, max).0, replayed)
    ensures OneEach(t) ==> OneEach(Trim(t, max).0)
  {
    TrimKeeps(t, max);
  }

  ghost predicate OwnRequest(t: Table, task: Task) {
    forall x :: x in t && x.0 != task.taskId ==> !SameRequest(x.1, task)
  }

  lemma PutSettled(max: nat, t: Table, replayed: Table, task: Task)
    requires Settled(max, t, replayed) && (Has(t, task.taskId) || |t| < max)
    ensures Settled(max, Put(t, task.taskId, task), Put(replayed, task.taskId, task))
    ensures OneEach(t) && OwnRequest(t, task) ==> OneEach(Put(t, task.taskId, task))
  {
    PutMember(t, task.taskId, task);
    PutCovered(t, replayed, task);
  }

  /** The only tables an enqueue of `task` can leave. */
  ghost predicate Leaves(max: nat, t: Table, task: Task, e: Effect) {
    var (room, ok) := Trim(t, max);
    || (e.table == t && e.entries == [])
    || (e.table == room && e.entries == [])
    || (e.table == Put(room, task.taskId, task) && e.entries == [Entry(None, None, task)]
        && ok && Existing(t, task.requestId, task.workspace).None?)
  }

  lemma EnqueueLeaves(rules: Rules, max: nat, t: Table, req: NewTask, id: string, now: string, accepts: Task -> bool)
    ensures Leaves(max, t, Fresh(req, id, now), Enqueue(rules, max, t, req, id, now, accepts))
  {
  }

  lemma RoomForNew(max: nat, t: Table, task: Task)
    requires Ledger.Keyed(t) && Trim(t, max).1 && Existing(t, task.requestId, task.workspace).None?
    ensures |Trim(t, max).0| < max && OwnRequest(Trim(t, max).0, task)
  {
    TrimKeeps(t, max);
    ExistingMeaning(t, task.requestId, task.workspace);
  }

  /** What a call keeps that journals at most one receipt. */
  ghost predicate Keeps(max: nat, t: Table, replayed: Table, e: Effect) {
    && |e.entries| <= 1 && Settled(max, e.table, Advanced(replayed, e.entries))
    && (OneEach(t) ==> OneEach(e.table))
  }

  lemma LeavesKeeps(max: nat, t: Table, replayed: Table, task: Task, e: Effect)
    requires Settled(max, t, replayed) && Leaves(max, t, task, e)
    ensures Keeps(max, t, replayed, e)
  {
    TrimSettled(max, t, replayed);
    if Trim(t, max).1 && Existing(t, task.requestId, task.workspace).None? {
      RoomForNew(max, t, task);
      PutSettled(max, Trim(t, max).0, replayed, task);
    }
  }

  /** The only tables an edit can leave. */
  lemma ApplyShape(rules: Rules, t: Table, id: string, edit: Edit, now: string, accepts: Task -> bool)
    ensures var e := Apply(rules, t, id, edit, now, accepts);
            || (e.table == t && e.entries == [])
            || (Find(t, id).Some? && var edited := Edited(Find(t, id).value, edit, now);
                edited.Ok? && e.entries == [Entry(Some(edit), Find(t, id), edited.value)]
                && e.table == Put(t, edited.value.taskId, edited.value))
  {
  }

  lemma EditSettled(max: nat, t: Table, replayed: Table, id: string, edit: Edit, now: string, after: Task)
    requires Settled(max, t, replayed) && Find(t, id).Some? && Edited(Find(t, id).value, edit, now) == Ok(after)
    ensures Settled(max, Put(t, after.taskId, after), Put(replayed, after.taskId, after))
    ensures OneEach(t) ==> OneEach(Put(t, after.taskId, after))
  {
    var current := Find(t, id).value;
    EditedIdentity(current, edit, now);
    FindMember(t, id, current);
    PutSettled(max, t, replayed, after);
  }

  lemma ApplyKeeps(rules: Rules, max: nat, t: Table, replayed: Table, id: string, edit: Edit, now: string, accepts: Task -> bool)
    requires Settled(max, t, replayed)
    ensures Keeps(max, t, replayed, Apply(rules, t, id, edit, now, accepts))
  {
    ApplyShape(rules, t, id, edit, now, accepts);
    if Find(t, id).Some? && Edited(Find(t, id).value, edit, now).Ok? {
      EditSettled(max, t, replayed, id, edit, now, Edited(Find(t, id).value, edit, now).value);
    }
  }

  lemma ReplayEffect(base: Table, journal: seq<Entry>, entries: seq<Entry>)
    requires |entries| <= 1
    ensures Replay(base, journal + entries) == Advanced(Replay(base, journal), entries)
  {
    var all := journal + entries;
    if entries == [] {
      assert all == journal;
    } else {
      assert all[..|all| - 1] == journal;
    }
  }

  ghost predicate Holds(max: nat, s: History) {
    Settled(max, s.table, Replayed(s))
  }

  /** One call after which the ledger still holds, and requests are unique if they were. */
  ghost predicate Sound(max: nat, s: History, next: History) {
    Holds(max, next) && (OneEach(s.table) ==> OneEach(next.table))
  }

  lemma LoggedKeeps(max: nat, s: History, e: Effect)
    requires Keeps(max, s.table, Replayed(s), e)
    ensures Sound(max, s, Logged(s, e))
  {
    ReplayEffect(s.base, s.journal, e.entries);
  }

  lemma EnqueueSound(rules: Rules, max: nat, s: History, req: NewTask, id: string, now: string, accepts: Task -> bool)
    requires Holds(max, s)
    ensures Sound(max, s, Logged(s, Enqueue(rules, max, s.table, req, id, now, accepts)))
  {
    var e := Enqueue(rules, max, s.table, req, id, now, accepts);
    EnqueueLeaves(rules, max, s.table, req, id, now, accepts);
    LeavesKeeps(max, s.table, Replayed(s), Fresh(req, id, now), e);
    LoggedKeeps(max, s, e);
  }

  lemma EditSound(rules: Rules, max: nat, s: History, id: string, edit: Edit, now: string, accepts: Task -> bool)
    requires Holds(max, s)
    ensures Sound(max, s, Logged(s, Apply(rules, s.table, id, edit, now, accepts)))
  {
    ApplyKeeps(rules, max, s.table, Replayed(s), id, edit, now, accepts);
    LoggedKeeps(max, s, Apply(rules, s.table, id, edit, now, accepts));
  }

  /** A call may leave two tasks with one request only by restoring them. */
  ghost predicate ClearCall(max: nat, t: Table, call: Call) {
    call.RestoreCall? ==> Clear(t, max, call.records, call.replaceExisting)
  }

  lemma StepKeeps(rules: Rules, max: nat, s: History, call: Call)
    requires Holds(max, s)
    ensures var r := Step(rules, max, s, call);
            Holds(max, r) && (OneEach(s.table) ==> (OneEach(r.table) <==> ClearCall(max, s.table, call)))
  {
    match call {
      case EnqueueCall(req, id, now, accepts) => EnqueueSound(rules, max, s, req, id, now, accepts);
      case EditCall(id, edit, now, accepts) => EditSound(rules, max, s, id, edit, now, accepts);
      case RestoreCall(records, replaceExisting) =>
        RestoreExact(s.table, max, records, replaceExisting);
        RestoreOneEachIff(s.table, max, records, replaceExisting);
    }
  }

  /** In every run, with restores and raising notifications anywhere, the record count stays
      within its bound, and the journal accounts for every task: the ledger is its last
      restored table and the replay since, without some tasks in evictable states. */
  lemma {:induction false} RunBounded(rules: Rules, max: nat, calls: seq<Call>)
    ensures Holds(max, Run(rules, max, calls))
  {
    if calls != [] {
      var n := |calls| - 1;
      RunBounded(rules, max, calls[..n]);
      StepKeeps(rules, max, Run(rules, max, calls[..n]), calls[n]);
    }
  }

  ghost predicate OneEachRun(rules: Rules, max: nat, calls: seq<Call>) {
    && OneEach(Run(rules, max, calls).table)
    && (calls == [] || OneEachRun(rules, max, calls[..|calls| - 1]))
  }

  ghost predicate ClearRun(rules: Rules, max: nat, calls: seq<Call>) {
    calls == [] ||
    var n := |calls| - 1;
    ClearRun(rules, max, calls[..n]) && ClearCall(max, Run(rules, max, calls[..n]).table, calls[n])
  }

  /** Over a whole run, no two tasks have the same request at any point if and only if
      every restore was clear; the other calls never break it. */
  lemma {:induction false} RunOneEachIff(rules: Rules, max: nat, calls: seq<Call>)
    ensures OneEachRun(rules, max, calls) <==> ClearRun(rules, max, calls)
  {
    if calls != [] {
      var n := |calls| - 1;
      RunOneEachIff(rules, max, calls[..n]);
      RunBounded(rules, max, calls[..n]);
      if OneEachRun(rules, max, calls[..n]) {
        StepKeeps(rules, max, Run(rules, max, calls[..n]), calls[n]);
      }
    }
  }

  /** Repeating an enqueue while its task is held returns the first held task of that request
      as it is now, or refuses a different title; it stores nothing either way. Requests
      being unique, that is the only one. */
  lemma EnqueueIdempotent(rules: Rules, max: nat, calls: seq<Call>, x: (string, Task),
                          req: NewTask, id: string, now: string, accepts: Task -> bool)
    returns (y: (string, Task))
    requires x in Run(rules, max, calls).table && ValidNew(rules, req)
    requires req.requestId == x.1.requestId && req.workspace == x.1.workspace
    ensures y in Run(rules, max, calls).table && SameRequest(x.1, y.1)
    ensures ClearRun(rules, max, calls) ==> y == x
    ensures var t := Run(rules, max, calls).table;
            Enqueue(rules, max, t, req, id, now, accepts)
            == Effect(t, [], if req.title == y.1.title then Ok(y.1) else Err(RequestReused))
  {
    RunBounded(rules, max, calls);
    RunOneEachIff(rules, max, calls);
    var t := Run(rules, max, calls).table;
    ExistingMeaning(t, req.requestId, req.workspace);
    y :| y in t && y.1 == Existing(t, req.requestId, req.workspace).value;
    FindMember(t, x.0, x.1);
    FindMember(t, y.0, y.1);
  }
}

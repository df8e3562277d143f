/** The task ledger as a value: the eleven task states, what each call computes,
    and the journal of stored receipts. */
module Ledger {
  import opened Wrappers
  import opened OrderedDict
  import opened Sorting

  datatype Status =
    | Queued | Ready | Leased | Running | Verifying | ReviewReady
    | Succeeded | Failed | Cancelled | Blocked | Stale

  datatype Task = Task(
    taskId: string, requestId: string, workspace: string, title: string, status: Status,
    owner: Option<string>, createdAt: string, updatedAt: string, detail: string,
    resultRef: string, tree: string, session: string, allowedPaths: seq<string>,
    resources: seq<string>, leaseId: string, baseRevision: string, patchHash: string,
    verification: string, audit: string, contextPack: string, integration: string,
    gitCommit: string, gitPush: string, dependencies: seq<string>, result: string)

  type Table = Dict<Task>

  datatype Error =
    | Invalid | UnknownTask | OwnedByOther | OtherLease | BadTransition | RequestReused | Full
    | NotStartable | NotRollbackable | NotResumable | RevisionChanged | NotOwned | NotifyRaised

  /** The text rules of the policy layer; each validator returns its input or raises. */
  datatype Rules = Rules(
    identifier: string -> bool, workspace: string -> bool, title: string -> bool,
    path: string -> bool, resource: string -> bool, revision: string -> bool,
    detail: string -> bool, resultRef: string -> bool, hash: string -> bool)

  datatype NewTask = NewTask(
    requestId: string, workspace: string, title: string, tree: string, session: string,
    allowedPaths: seq<string>, resources: seq<string>, dependsOn: seq<string>,
    baseRevision: string, contextPack: string)

  /** Receipts and notes of a transition; `""` stands for an argument left out. */
  datatype Evidence = Evidence(
    leaseId: string, patchHash: string, verification: string, audit: string,
    integration: string, gitCommit: string, gitPush: string, detail: string,
    resultRef: string, result: string)

  /** A call that works on one stored task. */
  datatype Edit =
    | Bind(tree: string, session: string, revision: string,
           paths: Option<seq<string>>, resources: Option<seq<string>>)
    | Move(status: Status, owner: Option<string>, evidence: Evidence)
    | Start(starter: string)
    | Rollback(note: string)
    | Resume(resumer: string, revision: string, note: string)
    | Reactivate(resumer: string, lease: string, revision: string, note: string)
    | Finish(final: Status, finisher: string, note: string, ref: string)

  // ---------------------------------------------------------------- states

  predicate Allowed(from: Status, to: Status) {
    match from
    case Queued => to in {Ready, Running, Cancelled, Blocked, Stale}
    case Ready => to in {Leased, Running, Cancelled, Blocked, Stale}
    case Leased => to in {Running, Cancelled, Blocked, Stale}
    case Running => to in {Verifying, ReviewReady, Succeeded, Failed, Cancelled, Blocked, Stale}
    case Verifying => to in {ReviewReady, Failed, Blocked, Stale}
    case ReviewReady => to in {Succeeded, Failed, Cancelled, Blocked, Stale}
    case _ => false
  }

  predicate Evictable(s: Status) {
    s in {Succeeded, Failed, Cancelled, Blocked, Stale}
  }

  // ---------------------------------------------------------------- one task

  predicate Optional(ok: string -> bool, s: string) {
    s == "" || ok(s)
  }

  predicate Unique(s: seq<string>) {
    forall i, j :: 0 <= i < j < |s| ==> s[i] != s[j]
  }

  function OrKeep(s: string, current: string): string {
    if s == "" then current else s
  }

  predicate ValidEvidence(rules: Rules, e: Evidence) {
    && Optional(rules.identifier, e.leaseId) && Optional(rules.hash, e.patchHash)
    && Optional(rules.identifier, e.verification) && Optional(rules.identifier, e.audit)
    && Optional(rules.identifier, e.gitCommit) && Optional(rules.identifier, e.gitPush)
    && Optional(rules.identifier, e.integration)
    && rules.detail(e.detail) && rules.resultRef(e.resultRef) && rules.detail(e.result)
  }

  predicate ValidEdit(rules: Rules, edit: Edit) {
    match edit
    case Bind(tree, session, revision, paths, resources) =>
      && rules.identifier(tree) && rules.identifier(session) && Optional(rules.revision, revision)
      && (paths.Some? ==> forall p :: p in paths.value ==> rules.path(p))
      && (resources.Some? ==> forall r :: r in resources.value ==> rules.resource(r))
    case Move(_, owner, evidence) =>
      (owner.Some? ==> rules.identifier(owner.value)) && ValidEvidence(rules, evidence)
    case Start(starter) => rules.identifier(starter)
    case Rollback(note) => rules.detail(note)
    case Resume(resumer, revision, note) =>
      rules.identifier(resumer) && Optional(rules.revision, revision) && rules.detail(note)
    case Reactivate(resumer, lease, revision, note) =>
      && rules.identifier(resumer) && rules.identifier(lease)
      && Optional(rules.revision, revision) && rules.detail(note)
    case Finish(final, finisher, note, ref) =>
      && rules.identifier(finisher) && final in {Succeeded, Failed, Cancelled}
      && rules.detail(note) && rules.resultRef(ref)
  }

  /** `_transition_locked`: ownership, lease binding and the state table, in that order. */
  function Moved(current: Task, status: Status, owner: Option<string>, e: Evidence, now: string): (r: Result<Task, Error>) {
    if owner.Some? && current.owner.Some? && owner != current.owner then Err(OwnedByOther)
    else if e.leaseId != "" && current.leaseId != "" && e.leaseId != current.leaseId then Err(OtherLease)
    else if current.status != status && !Allowed(current.status, status) then Err(BadTransition)
    else
      Ok(current.(status := status, owner := if owner.Some? then owner else current.owner,
                  leaseId := OrKeep(e.leaseId, current.leaseId),
                  patchHash := OrKeep(e.patchHash, current.patchHash),
                  verification := OrKeep(e.verification, current.verification),
                  audit := OrKeep(e.audit, current.audit),
                  integration := OrKeep(e.integration, current.integration),
                  gitCommit := OrKeep(e.gitCommit, current.gitCommit),
                  gitPush := OrKeep(e.gitPush, current.gitPush),
                  detail := OrKeep(e.detail, current.detail),
                  resultRef := OrKeep(e.resultRef, current.resultRef),
                  result := OrKeep(e.result, current.result), updatedAt := now))
  }

  const NO_EVIDENCE := Evidence("", "", "", "", "", "", "", "", "", "")

  /** A stale task, made writable again without the evidence of its earlier life. */
  function Cleared(current: Task, revision: string, note: string, now: string): (r: Task) {
    current.(baseRevision := OrKeep(revision, current.baseRevision), patchHash := "",
             verification := "", audit := "", integration := "", gitCommit := "", gitPush := "",
             detail := note, resultRef := "", result := "", updatedAt := now)
  }

  function StaleGuard(current: Task, claimant: string, revision: string): (r: Option<Error>) {
    if current.status != Stale then Some(NotResumable)
    else if current.owner != Some(claimant) then Some(OwnedByOther)
    else if revision != "" && current.baseRevision != "" && revision != current.baseRevision then
      Some(RevisionChanged)
    else None
  }

  /** The receipt an edit makes of a task, or the error it raises. Starting a task its
      own writer already runs makes the same receipt. */
  function Edited(current: Task, edit: Edit, now: string): (r: Result<Task, Error>) {
    match edit
    case Bind(tree, session, revision, paths, resources) =>
      Ok(current.(tree := tree, session := session,
                  baseRevision := OrKeep(revision, current.baseRevision),
                  allowedPaths := if paths.Some? then paths.value else current.allowedPaths,
                  resources := if resources.Some? then resources.value else current.resources,
                  updatedAt := now))
    case Move(status, owner, evidence) => Moved(current, status, owner, evidence, now)
    case Start(starter) =>
      if Repeats(current, edit) then Ok(current)
      else if current.status !in {Queued, Ready, Leased} then Err(NotStartable)
      else Moved(current, Running, Some(starter), NO_EVIDENCE, now)
    case Rollback(note) =>
      if current.status !in {Leased, Running} then Err(NotRollbackable)
      else Ok(current.(status := Ready, owner := None, leaseId := "", tree := "", session := "",
                       detail := OrKeep(note, current.detail), updatedAt := now))
    case Resume(resumer, revision, note) =>
      var refused := StaleGuard(current, resumer, revision);
      if refused.Some? then Err(refused.value)
      else Ok(Cleared(current, revision, note, now).(status := Ready, owner := None, leaseId := ""))
    case Reactivate(resumer, lease, revision, note) =>
      var refused := StaleGuard(current, resumer, revision);
      if refused.Some? then Err(refused.value)
      else Ok(Cleared(current, revision, note, now).(status := Running, owner := Some(resumer), leaseId := lease))
    case Finish(final, finisher, note, ref) =>
      if current.status !in {Running, Verifying, ReviewReady} || current.owner != Some(finisher) then Err(NotOwned)
      else
        var moved := Moved(current, final, None, NO_EVIDENCE, now);
        if moved.Err? then moved else Ok(moved.value.(detail := note, resultRef := ref))
  }

  /** A start by the writer that already runs the task returns it without storing. */
  predicate Repeats(current: Task, edit: Edit) {
    edit.Start? && current.status == Running && current.owner == Some(edit.starter)
  }

  // ---------------------------------------------------------------- calls

  /** One stored receipt, with the receipt it replaced; `before` is absent for a new task. */
  datatype Entry = Entry(edit: Option<Edit>, before: Option<Task>, after: Task)

  datatype Effect = Effect(table: Table, entries: seq<Entry>, outcome: Result<Task, Error>)

  /** Notify, then store; a notification that raises stores nothing. */
  function Store(t: Table, entry: Entry, accepts: Task -> bool): (e: Effect) {
    if accepts(entry.after) then
      Effect(Put(t, entry.after.taskId, entry.after), [entry], Ok(entry.after))
    else Effect(t, [], Err(NotifyRaised))
  }

  function Apply(rules: Rules, t: Table, id: string, edit: Edit, now: string, accepts: Task -> bool): (e: Effect) {
    var current := Find(t, id);
    if !rules.identifier(id) || !ValidEdit(rules, edit) then Effect(t, [], Err(Invalid))
    else if current.None? then Effect(t, [], Err(UnknownTask))
    else
      var edited := Edited(current.value, edit, now);
      if edited.Err? || Repeats(current.value, edit) then Effect(t, [], edited)
      else Store(t, Entry(Some(edit), current, edited.value), accepts)
  }

  predicate ValidNew(rules: Rules, req: NewTask) {
    && rules.identifier(req.requestId) && rules.workspace(req.workspace) && rules.title(req.title)
    && Optional(rules.identifier, req.tree) && Optional(rules.identifier, req.session)
    && (forall p :: p in req.allowedPaths ==> rules.path(p)) && Unique(req.allowedPaths)
    && Optional(rules.revision, req.baseRevision) && Optional(rules.identifier, req.contextPack)
    && (forall r :: r in req.resources ==> rules.resource(r)) && Unique(req.resources)
    && (forall d :: d in req.dependsOn ==> rules.identifier(d)) && Unique(req.dependsOn)
    && req.requestId !in req.dependsOn && |req.dependsOn| <= 64
  }

  function Fresh(req: NewTask, id: string, now: string): (r: Task) {
    Task(id, req.requestId, req.workspace, req.title, Queued, None, now, now, "", "",
         req.tree, req.session, req.allowedPaths, req.resources, "", req.baseRevision, "", "", "",
         req.contextPack, "", "", "", req.dependsOn, "")
  }

  /** The stored task of this request, if any. */
  function Existing(t: Table, requestId: string, workspace: string): (r: Option<Task>) {
    if t == [] then None
    else if t[0].1.requestId == requestId && t[0].1.workspace == workspace then Some(t[0].1)
    else Existing(t[1..], requestId, workspace)
  }

  /** The key of the first evictable task with the least creation time. */
  function Oldest(t: Table): (r: Option<(string, Task)>)
    ensures r.Some? ==> r.value in t && Evictable(r.value.1.status)
    ensures r.None? <==> forall x :: x in t ==> !Evictable(x.1.status)
  {
    if t == [] then None
    else
      assert t == [t[0]] + t[1..];
      var rest := Oldest(t[1..]);
      if !Evictable(t[0].1.status) then rest
      else if rest.None? || StrLe(t[0].1.createdAt, rest.value.1.createdAt) then Some(t[0])
      else rest
  }

  /** Evict the oldest evictable tasks until one place is free; fails when none is left to evict. */
  function Trim(t: Table, max: nat): (r: (Table, bool))
    decreases |t|
  {
    if |t| < max then (t, true)
    else
      var oldest := Oldest(t);
      if oldest.None? then (t, false)
      else
        HasMember(t, oldest.value);
        Trim(Remove(t, oldest.value.0), max)
  }

  function Enqueue(rules: Rules, max: nat, t: Table, req: NewTask, id: string, now: string, accepts: Task -> bool): (e: Effect) {
    if !ValidNew(rules, req) then Effect(t, [], Err(Invalid))
    else
      var existing := Existing(t, req.requestId, req.workspace);
      if existing.Some? then
        Effect(t, [], if existing.value.title == req.title then Ok(existing.value) else Err(RequestReused))
      else
        var (room, ok) := Trim(t, max);
        if !ok then Effect(room, [], Err(Full))
        else Store(room, Entry(None, None, Fresh(req, id, now)), accepts)
  }

  // ---------------------------------------------------------------- restore

  /** The exact stale shape that persistence gives a pushed, review-ready task. */
  predicate Revivable(task: Task) {
    && task.status == Stale && task.detail == "push receipt recorded"
    && task.tree != "" && !("session:" <= task.tree) && task.session == ""
    && ("git-commit:" <= task.gitCommit || "git-verified-commit:" <= task.gitCommit)
    && "git-push:" <= task.gitPush
  }

  function Revived(task: Task): (r: Task) {
    if Revivable(task) then task.(status := ReviewReady) else task
  }

  function PutAll(t: Table, records: seq<Task>): (r: Table) {
    if records == [] then t
    else
      var last := Revived(records[|records| - 1]);
      Put(PutAll(t, records[..|records| - 1]), last.taskId, last)
  }

  predicate AgeLe(a: (string, Task), b: (string, Task)) {
    if a.1.createdAt == b.1.createdAt then StrLe(a.1.taskId, b.1.taskId)
    else StrLe(a.1.createdAt, b.1.createdAt)
  }

  /** The receipts a restore merges, before the ledger is cut to its bound. */
  function Merge(t: Table, records: seq<Task>, replaceExisting: bool): (r: Table) {
    PutAll(if replaceExisting then [] else t, records)
  }

  function Cut(all: Table, max: nat): (r: Table) {
    if |all| > max then SortBy(AgeLe, all)[|all| - max..] else all
  }

  function Restore(t: Table, max: nat, records: seq<Task>, replaceExisting: bool): (r: Table) {
    Cut(Merge(t, records, replaceExisting), max)
  }

  ghost predicate Keyed(t: Table) {
    Distinct(t) && forall x :: x in t ==> x.0 == x.1.taskId
  }

  ghost predicate SameRequest(a: Task, b: Task) {
    a.requestId == b.requestId && a.workspace == b.workspace
  }

  /** Each request has one task. */
  ghost predicate OneEach(t: Table) {
    forall x, y :: x in t && y in t && x.0 != y.0 ==> !SameRequest(x.1, y.1)
  }
}

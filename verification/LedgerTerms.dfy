/** What each ledger call demands and stores, field by field. */
module LedgerTerms {
  import opened Wrappers
  import opened OrderedDict
  import opened Ledger

  // ---------------------------------------------------------------- what an edit stores

  /** A text that was given is stored; one left out leaves what is held. */
  ghost predicate Given(given: string, held: string, stored: string) {
    (given != "" ==> stored == given) && (given == "" ==> stored == held)
  }

  ghost predicate SameIdentity(b: Task, a: Task) {
    && a.taskId == b.taskId && a.requestId == b.requestId && a.workspace == b.workspace && a.title == b.title
    && a.createdAt == b.createdAt && a.contextPack == b.contextPack && a.dependencies == b.dependencies
  }

  ghost predicate SamePlace(b: Task, a: Task) {
    a.tree == b.tree && a.session == b.session && a.allowedPaths == b.allowedPaths && a.resources == b.resources
  }

  ghost predicate SameReceipts(b: Task, a: Task) {
    && a.patchHash == b.patchHash && a.verification == b.verification && a.audit == b.audit
    && a.integration == b.integration && a.gitCommit == b.gitCommit && a.gitPush == b.gitPush
  }

  ghost predicate NoReceipts(a: Task) {
    && a.patchHash == "" && a.verification == "" && a.audit == ""
    && a.integration == "" && a.gitCommit == "" && a.gitPush == ""
  }

  ghost predicate SameClaim(b: Task, a: Task) {
    a.owner == b.owner && a.leaseId == b.leaseId
  }

  ghost predicate SameNotes(b: Task, a: Task) {
    a.detail == b.detail && a.resultRef == b.resultRef && a.result == b.result
  }

  /** A stale task taken up again: its place and request, without evidence, results or old notes. */
  ghost predicate TakenUp(b: Task, revision: string, note: string, a: Task) {
    && SamePlace(b, a) && Given(revision, b.baseRevision, a.baseRevision)
    && NoReceipts(a) && a.detail == note && a.resultRef == "" && a.result == ""
  }

  /** What an edit makes of a task: every field but the time of the update. */
  ghost predicate Written(edit: Edit, b: Task, a: Task) {
    SameIdentity(b, a) &&
    match edit
    case Bind(tree, session, revision, paths, resources) =>
      && a.tree == tree && a.session == session && Given(revision, b.baseRevision, a.baseRevision)
      && a.allowedPaths == (if paths.Some? then paths.value else b.allowedPaths)
      && a.resources == (if resources.Some? then resources.value else b.resources)
      && a.status == b.status && SameClaim(b, a) && SameReceipts(b, a) && SameNotes(b, a)
    case Move(status, owner, e) =>
      && a.status == status && (owner.Some? ==> a.owner == owner) && (owner.None? ==> a.owner == b.owner)
      && Given(e.leaseId, b.leaseId, a.leaseId) && Given(e.patchHash, b.patchHash, a.patchHash)
      && Given(e.verification, b.verification, a.verification) && Given(e.audit, b.audit, a.audit)
      && Given(e.integration, b.integration, a.integration)
      && Given(e.gitCommit, b.gitCommit, a.gitCommit) && Given(e.gitPush, b.gitPush, a.gitPush)
      && Given(e.detail, b.detail, a.detail) && Given(e.resultRef, b.resultRef, a.resultRef)
      && Given(e.result, b.result, a.result)
      && SamePlace(b, a) && a.baseRevision == b.baseRevision
    case Start(starter) =>
      && a.status == Running && a.owner == Some(starter) && a.leaseId == b.leaseId
      && SamePlace(b, a) && a.baseRevision == b.baseRevision && SameReceipts(b, a) && SameNotes(b, a)
    case Rollback(note) =>
      && a.status == Ready && a.owner == None && a.leaseId == "" && a.tree == "" && a.session == ""
      && a.allowedPaths == b.allowedPaths && a.resources == b.resources && a.baseRevision == b.baseRevision
      && SameReceipts(b, a) && Given(note, b.detail, a.detail) && a.resultRef == b.resultRef && a.result == b.result
    case Resume(_, revision, note) =>
      a.status == Ready && a.owner == None && a.leaseId == "" && TakenUp(b, revision, note, a)
    case Reactivate(resumer, lease, revision, note) =>
      a.status == Running && a.owner == Some(resumer) && a.leaseId == lease && TakenUp(b, revision, note, a)
    case Finish(final, _, note, ref) =>
      && a.status == final && a.detail == note && a.resultRef == ref && a.result == b.result
      && SameClaim(b, a) && SamePlace(b, a) && a.baseRevision == b.baseRevision && SameReceipts(b, a)
  }

  // ---------------------------------------------------------------- what an edit demands

  /** The transitions, by the state they lead to. */
  ghost predicate Edge(from: Status, to: Status) {
    || (to == Ready && from == Queued)
    || (to == Leased && from == Ready)
    || (to == Running && from in {Queued, Ready, Leased})
    || (to == Verifying && from == Running)
    || (to == ReviewReady && from in {Running, Verifying})
    || (to == Succeeded && from in {Running, ReviewReady})
    || (to == Failed && from in {Running, Verifying, ReviewReady})
    || (to == Cancelled && from in {Queued, Ready, Leased, Running, ReviewReady})
    || (to in {Blocked, Stale} && from in {Queued, Ready, Leased, Running, Verifying, ReviewReady})
  }

  lemma EdgesExactly(from: Status, to: Status)
    ensures Allowed(from, to) <==> Edge(from, to)
  {
  }

  /** The claimant owns the stale task, and names no other revision than the recorded one. */
  ghost predicate MayTakeUp(b: Task, claimant: string, revision: string) {
    && b.status == Stale && b.owner == Some(claimant)
    && (revision == "" || b.baseRevision == "" || revision == b.baseRevision)
  }

  /** What each edit demands of the task it works on. */
  ghost predicate Permitted(b: Task, edit: Edit) {
    match edit
    case Bind(_, _, _, _, _) => true
    case Move(status, owner, e) =>
      && (owner == None || b.owner == None || owner == b.owner)
      && (e.leaseId == "" || b.leaseId == "" || e.leaseId == b.leaseId)
      && (status == b.status || Edge(b.status, status))
    case Start(starter) =>
      || (b.status == Running && b.owner == Some(starter))
      || (b.status in {Queued, Ready, Leased} && (b.owner == None || b.owner == Some(starter)))
    case Rollback(_) => b.status == Leased || b.status == Running
    case Resume(resumer, revision, _) => MayTakeUp(b, resumer, revision)
    case Reactivate(resumer, _, revision, _) => MayTakeUp(b, resumer, revision)
    case Finish(final, finisher, _, _) =>
      && b.owner == Some(finisher) && b.status in {Running, Verifying, ReviewReady}
      && (final == b.status || Edge(b.status, final))
  }

  lemma MovedExactly(b: Task, status: Status, owner: Option<string>, e: Evidence, now: string)
    ensures Moved(b, status, owner, e, now).Ok? <==> Permitted(b, Move(status, owner, e))
    ensures Moved(b, status, owner, e, now).Ok? ==>
              Written(Move(status, owner, e), b, Moved(b, status, owner, e, now).value)
              && Moved(b, status, owner, e, now).value.updatedAt == now
  {
    EdgesExactly(b.status, status);
  }

  /** An edit goes through exactly when it is permitted, and stores what it says. */
  lemma EditedExactly(b: Task, edit: Edit, now: string)
    ensures Edited(b, edit, now).Ok? <==> Permitted(b, edit)
    ensures Edited(b, edit, now).Ok? ==> Written(edit, b, Edited(b, edit, now).value)
    ensures Edited(b, edit, now).Ok? && !(edit.Start? && b.status == Running) ==> Edited(b, edit, now).value.updatedAt == now
    ensures Edited(b, edit, now).Ok? && edit.Start? && b.status == Running ==> Edited(b, edit, now).value == b
  {
    match edit {
      case Move(status, owner, e) => MovedExactly(b, status, owner, e, now);
      case Start(starter) => MovedExactly(b, Running, Some(starter), NO_EVIDENCE, now);
      case Finish(final, _, _, _) => MovedExactly(b, final, None, NO_EVIDENCE, now);
      case _ =>
    }
  }

  /** Why a transition is refused: first another owner, then another lease, then the states. */
  lemma MoveRefused(b: Task, status: Status, owner: Option<string>, e: Evidence, now: string)
    ensures var r := Edited(b, Move(status, owner, e), now);
            var foreign := owner != None && b.owner != None && owner != b.owner;
            var released := e.leaseId != "" && b.leaseId != "" && e.leaseId != b.leaseId;
            && (r == Err(OwnedByOther) <==> foreign)
            && (r == Err(OtherLease) <==> !foreign && released)
            && (r == Err(BadTransition) <==> !foreign && !released && status != b.status && !Edge(b.status, status))
  {
    EdgesExactly(b.status, status);
  }

  /** Why the other edits are refused: a start, a rollback or an end by the state or the owner; a take-up
      by the state, then the owner, then the revision. */
  lemma EditRefused(b: Task, edit: Edit, now: string)
    requires Edited(b, edit, now).Err? && !edit.Move?
    ensures var error := Edited(b, edit, now).error;
            match edit
            case Start(_) => error == if b.status in {Queued, Ready, Leased} then OwnedByOther else NotStartable
            case Rollback(_) => error == NotRollbackable
            case Resume(resumer, _, _) => TakeUpRefused(b, resumer, error)
            case Reactivate(resumer, _, _, _) => TakeUpRefused(b, resumer, error)
            case Finish(final, finisher, _, _) =>
              error == if b.status in {Running, Verifying, ReviewReady} && b.owner == Some(finisher) then BadTransition else NotOwned
  {
    if edit.Start? {
      EdgesExactly(b.status, Running);
    }
  }

  ghost predicate TakeUpRefused(b: Task, claimant: string, error: Error) {
    error == if b.status != Stale then NotResumable else if b.owner != Some(claimant) then OwnedByOther else RevisionChanged
  }

  // ---------------------------------------------------------------- arguments

  ghost predicate OrEmpty(valid: string -> bool, s: string) {
    s != "" ==> valid(s)
  }

  ghost predicate Each(valid: string -> bool, names: seq<string>) {
    forall i :: 0 <= i < |names| ==> valid(names[i])
  }

  ghost predicate Distinct(names: seq<string>) {
    forall i, j :: 0 <= i < j < |names| ==> names[i] != names[j]
  }

  /** The texts of an edit obey the policy layer's rules. */
  ghost predicate Wellformed(rules: Rules, edit: Edit) {
    match edit
    case Bind(tree, session, revision, paths, resources) =>
      && rules.identifier(tree) && rules.identifier(session) && OrEmpty(rules.revision, revision)
      && (paths.Some? ==> Each(rules.path, paths.value)) && (resources.Some? ==> Each(rules.resource, resources.value))
    case Move(_, owner, e) =>
      && (owner.Some? ==> rules.identifier(owner.value)) && OrEmpty(rules.hash, e.patchHash)
      && (forall s :: s in [e.leaseId, e.verification, e.audit, e.integration, e.gitCommit, e.gitPush] ==>
            OrEmpty(rules.identifier, s))
      && rules.detail(e.detail) && rules.detail(e.result) && rules.resultRef(e.resultRef)
    case Start(starter) => rules.identifier(starter)
    case Rollback(note) => rules.detail(note)
    case Resume(resumer, revision, note) =>
      rules.identifier(resumer) && OrEmpty(rules.revision, revision) && rules.detail(note)
    case Reactivate(resumer, lease, revision, note) =>
      && rules.identifier(resumer) && rules.identifier(lease)
      && OrEmpty(rules.revision, revision) && rules.detail(note)
    case Finish(final, finisher, note, ref) =>
      && rules.identifier(finisher) && (final == Succeeded || final == Failed || final == Cancelled)
      && rules.detail(note) && rules.resultRef(ref)
  }

  lemma EachExactly(valid: string -> bool, names: seq<string>)
    ensures (forall s :: s in names ==> valid(s)) <==> Each(valid, names)
  {
  }

  lemma WellformedExactly(rules: Rules, edit: Edit)
    ensures ValidEdit(rules, edit) <==> Wellformed(rules, edit)
  {
    match edit {
      case Bind(tree, session, revision, paths, resources) =>
        if paths.Some? { EachExactly(rules.path, paths.value); }
        if resources.Some? { EachExactly(rules.resource, resources.value); }
      case Move(_, owner, e) =>
        var ids := [e.leaseId, e.verification, e.audit, e.integration, e.gitCommit, e.gitPush];
        if Wellformed(rules, edit) {
          assert ids[0] in ids && ids[1] in ids && ids[2] in ids && ids[3] in ids && ids[4] in ids && ids[5] in ids;
        }
      case _ =>
    }
  }

  // ---------------------------------------------------------------- whole calls

  /** With a callback that does not raise, an edit succeeds if and only if its arguments are valid, the
      task is held and the edit is permitted; then exactly that task becomes what the edit says. */
  lemma EditExactly(rules: Rules, t: Table, id: string, edit: Edit, now: string, accepts: Task -> bool)
    requires Ledger.Keyed(t) && forall task :: accepts(task)
    ensures var e := Apply(rules, t, id, edit, now, accepts);
            && (e.outcome.Ok? <==> rules.identifier(id) && Wellformed(rules, edit)
                                   && exists b :: (id, b) in t && Permitted(b, edit))
            && (e.outcome.Ok? ==> exists b :: (id, b) in t && Written(edit, b, e.outcome.value))
            && (e.outcome == Err(UnknownTask) <==>
                  rules.identifier(id) && Wellformed(rules, edit) && forall x :: x in t ==> x.0 != id)
            && (forall x :: x in e.table <==>
                  if e.outcome.Ok? && x.0 == id then x.1 == e.outcome.value else x in t)
  {
    WellformedExactly(rules, edit);
    var held := Find(t, id);
    if held.Some? {
      FindMember(t, id, held.value);
      HeldOnly(t, id, held.value);
      EditHeld(rules, t, id, edit, now, accepts, held.value);
    } else {
      NotHeld(t, id);
    }
  }

  lemma EditHeld(rules: Rules, t: Table, id: string, edit: Edit, now: string, accepts: Task -> bool, b: Task)
    requires Ledger.Keyed(t) && Find(t, id) == Some(b) && b.taskId == id && forall task :: accepts(task)
    ensures var e := Apply(rules, t, id, edit, now, accepts);
            && (e.outcome.Ok? <==> rules.identifier(id) && Wellformed(rules, edit) && Permitted(b, edit))
            && e.outcome != Err(UnknownTask) && (e.outcome.Ok? ==> Written(edit, b, e.outcome.value))
            && (e.outcome.Err? ==> e.table == t)
            && (e.outcome.Ok? ==> forall x :: x in e.table <==> if x.0 == id then x.1 == e.outcome.value else x in t)
  {
    WellformedExactly(rules, edit);
    EditedExactly(b, edit, now);
    KnownError(b, edit, now);
    FindMember(t, id, b);
    HeldOnly(t, id, b);
    if Edited(b, edit, now).Ok? {
      PutMember(t, id, Edited(b, edit, now).value);
    }
  }

  lemma KnownError(b: Task, edit: Edit, now: string)
    ensures Edited(b, edit, now) != Err(UnknownTask)
  {
  }

  /** The task came of a held one by an edit that its state permitted. */
  ghost predicate Edits(t: Table, id: string, edit: Edit, after: Task) {
    exists b :: (id, b) in t && Permitted(b, edit) && Written(edit, b, after)
  }

  /** Whatever an edit returns is such a task, also when the callback refuses others. */
  lemma EditTerms(rules: Rules, t: Table, id: string, edit: Edit, now: string, accepts: Task -> bool, outcome: Result<Task, Error>)
    requires Ledger.Keyed(t) && outcome == Apply(rules, t, id, edit, now, accepts).outcome
    ensures outcome.Ok? ==> Edits(t, id, edit, outcome.value)
  {
    if outcome.Ok? {
      var b := Find(t, id).value;
      FindMember(t, id, b);
      EditedExactly(b, edit, now);
    }
  }

  lemma HeldOnly(t: Table, id: string, b: Task)
    requires Ledger.Keyed(t) && Find(t, id) == Some(b)
    ensures forall x :: x in t && x.0 == id ==> x.1 == b
  {
    forall x | x in t && x.0 == id ensures x.1 == b {
      FindMember(t, id, x.1);
    }
  }

  lemma NotHeld(t: Table, id: string)
    requires Find(t, id) == None
    ensures forall x :: x in t ==> x.0 != id
  {
    forall x | x in t ensures x.0 != id {
      HasMember(t, x);
    }
  }

  /** A new task: queued, unowned, with what its request gives and nothing else. */
  ghost predicate NewTerms(req: NewTask, id: string, now: string, a: Task) {
    && a.taskId == id && a.requestId == req.requestId && a.workspace == req.workspace && a.title == req.title
    && a.status == Queued && a.owner == None && a.createdAt == now && a.updatedAt == now
    && a.tree == req.tree && a.session == req.session && a.allowedPaths == req.allowedPaths
    && a.resources == req.resources && a.baseRevision == req.baseRevision && a.contextPack == req.contextPack
    && a.dependencies == req.dependsOn && a.leaseId == "" && NoReceipts(a)
    && a.detail == "" && a.resultRef == "" && a.result == ""
  }

  /** What an enqueue demands of its arguments. */
  ghost predicate WellformedNew(rules: Rules, req: NewTask) {
    && rules.identifier(req.requestId) && rules.workspace(req.workspace) && rules.title(req.title)
    && OrEmpty(rules.identifier, req.tree) && OrEmpty(rules.identifier, req.session)
    && OrEmpty(rules.identifier, req.contextPack) && OrEmpty(rules.revision, req.baseRevision)
    && Each(rules.path, req.allowedPaths) && Distinct(req.allowedPaths)
    && Each(rules.resource, req.resources) && Distinct(req.resources)
    && Each(rules.identifier, req.dependsOn) && Distinct(req.dependsOn)
    && req.requestId !in req.dependsOn && |req.dependsOn| <= 64
  }

  lemma WellformedNewExactly(rules: Rules, req: NewTask)
    ensures ValidNew(rules, req) <==> WellformedNew(rules, req)
  {
    EachExactly(rules.path, req.allowedPaths);
    EachExactly(rules.resource, req.resources);
    EachExactly(rules.identifier, req.dependsOn);
  }

  /** With a callback that does not raise, a request the ledger does not hold becomes a task if and
      only if its arguments are valid and there is room or a task that may be evicted. */
  lemma EnqueueExactly(rules: Rules, max: nat, t: Table, req: NewTask, id: string, now: string, accepts: Task -> bool)
    requires 0 < max && forall task :: accepts(task)
    requires forall x :: x in t ==> !(x.1.requestId == req.requestId && x.1.workspace == req.workspace)
    requires |t| <= max
    ensures var e := Enqueue(rules, max, t, req, id, now, accepts);
            && (e.outcome.Ok? <==> WellformedNew(rules, req) && (|t| < max || exists x :: x in t && Evictable(x.1.status)))
            && (e.outcome.Ok? ==> NewTerms(req, id, now, e.outcome.value) && e.entries == [Entry(None, None, e.outcome.value)])
            && (e.outcome == Err(Invalid) <==> !WellformedNew(rules, req))
  {
    WellformedNewExactly(rules, req);
    NoneExisting(t, req.requestId, req.workspace);
    RoomExactly(t, max);
  }

  lemma RoomExactly(t: Table, max: nat)
    requires 0 < max && |t| <= max
    ensures Trim(t, max).1 <==> |t| < max || exists x :: x in t && Evictable(x.1.status)
  {
    if |t| == max && Oldest(t).Some? {
      HasMember(t, Oldest(t).value);
      var room := Remove(t, Oldest(t).value.0);
      assert |room| == |t| - 1;
      assert Trim(t, max) == Trim(room, max) == (room, true);
    }
  }

  lemma {:induction false} NoneExisting(t: Table, requestId: string, workspace: string)
    requires forall x :: x in t ==> !(x.1.requestId == requestId && x.1.workspace == workspace)
    ensures Existing(t, requestId, workspace) == None
  {
    if t != [] {
      assert t == [t[0]] + t[1..];
      NoneExisting(t[1..], requestId, workspace);
    }
  }

  /** Evictable are exactly the states that a task does not leave by a transition. */
  lemma EvictableExactly(s: Status)
    ensures Evictable(s) <==> forall to :: !Edge(s, to)
  {
    assert s == Queued ==> Edge(s, Ready);
    assert s in {Ready, Leased, Running, Verifying, ReviewReady} ==> Edge(s, Blocked);
  }

  /** Restoring changes a receipt only when it is the stale form of a pushed, review-ready task: a
      worktree that is not a session's, no session, and receipts of a commit and a push. */
  lemma RevivedExactly(b: Task)
    ensures Revived(b) == b.(status := Revived(b).status)
    ensures Revived(b).status ==
              if b.status == Stale && b.detail == "push receipt recorded" && b.tree != "" && b.session == ""
                 && !("session:" <= b.tree) && "git-push:" <= b.gitPush
                 && ("git-commit:" <= b.gitCommit || "git-verified-commit:" <= b.gitCommit)
              then ReviewReady else b.status
  {
  }
}

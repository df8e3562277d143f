/** The writer-lease table as a value: what each call of the manager computes,
    and what every run of calls keeps. */
module Leases {
  import opened Wrappers
  import opened OrderedDict
  import opened LeasePaths
  import opened Sorting

  datatype Lease = Lease(
    workspace: string, tree: string, owner: string, task: string,
    paths: seq<string>, resources: seq<string>, id: string, expiresAt: real,
    baseRevision: string, scopeHashes: seq<(string, string)>, stateHash: string,
    wide: bool, acquiredAt: real)

  datatype Change = Active | Expired | Released | Stale

  datatype Entry = Entry(lease: Lease, change: Change)

  type Table = Dict<Lease>

  /** Whether the change callback returns normally for this notification of the call. */
  type Sink = (Lease, Change) -> bool

  datatype Error = Invalid | ResourceBusy | WideBusy | PathsBusy | NotCurrent | NotifyRaised

  /** The text rules of the policy layer; each validator returns its input or raises. */
  datatype Rules = Rules(
    workspace: string -> bool, identifier: string -> bool, path: string -> bool,
    resource: string -> bool, revision: string -> bool, stateHash: string -> bool,
    digest: string -> bool)

  datatype Config = Config(ttl: real, fold: CaseFold, rules: Rules)

  datatype Request = Request(
    workspace: string, owner: string, tree: Option<string>, task: Option<string>,
    paths: Option<seq<string>>, resources: seq<string>, baseRevision: string,
    scopeHashes: seq<(string, string)>, stateHash: string, wide: bool)

  datatype Snapshot = Snapshot(
    baseRevision: string, scopeHashes: seq<(string, string)>, stateHash: string)

  /** The table after a call, the notifications that were delivered, and what was returned or raised. */
  datatype Effect<+R> = Effect(table: Table, entries: seq<Entry>, outcome: Result<R, Error>)

  datatype Pruned = Pruned(table: Table, entries: seq<Entry>, raised: bool)

  // ---------------------------------------------------------------- calls

  predicate Shares(a: seq<string>, b: seq<string>) {
    exists r :: r in a && r in b
  }

  predicate Unique(s: seq<string>) {
    forall i, j :: 0 <= i < j < |s| ==> s[i] != s[j]
  }

  predicate HashesOk(rules: Rules, wide: bool, paths: seq<string>, hashes: seq<(string, string)>) {
    forall h :: h in hashes ==>
      && rules.path(h.0) && rules.digest(h.1)
      && (wide || exists allowed :: allowed in paths && Within(h.0, allowed))
  }

  predicate PairLe(a: (string, string), b: (string, string)) {
    if a.0 == b.0 then StrLe(a.1, b.1) else StrLe(a.0, b.0)
  }

  function RequestTree(req: Request): string {
    if req.tree.Some? then req.tree.value else "workspace:" + req.workspace
  }

  function RequestTask(req: Request): string {
    if req.task.Some? then req.task.value else "legacy:" + req.owner
  }

  function RequestPaths(req: Request): seq<string> {
    if req.paths.Some? then req.paths.value else []
  }

  /** Absent paths mean the whole workspace. */
  predicate RequestWide(req: Request) {
    req.paths.None? || req.wide
  }

  predicate ValidRequest(rules: Rules, req: Request) {
    && rules.workspace(req.workspace) && rules.identifier(req.owner)
    && rules.identifier(RequestTree(req)) && rules.identifier(RequestTask(req))
    && (forall p :: p in RequestPaths(req) ==> rules.path(p)) && Unique(RequestPaths(req))
    && (forall r :: r in req.resources ==> rules.resource(r)) && Unique(req.resources)
    && (RequestWide(req) || RequestPaths(req) != [] || req.resources != [])
    && rules.revision(req.baseRevision) && rules.stateHash(req.stateHash)
    && HashesOk(rules, RequestWide(req), RequestPaths(req), req.scopeHashes)
  }

  function NewLease(c: Config, req: Request, id: string, now: real): (lease: Lease) {
    Lease(req.workspace, RequestTree(req), req.owner, RequestTask(req), RequestPaths(req),
          req.resources, id, now + c.ttl, req.baseRevision, SortBy(PairLe, req.scopeHashes),
          req.stateHash, RequestWide(req), now)
  }

  /** Drop the expired leases in table order, each after its notification; a
      notification that raises stops the sweep with that lease still held. */
  function Prune(t: Table, now: real, accepts: Sink): (r: Pruned) {
    if t == [] then Pruned([], [], false)
    else if t[0].1.expiresAt > now then
      var rest := Prune(t[1..], now, accepts);
      Pruned([t[0]] + rest.table, rest.entries, rest.raised)
    else if !accepts(t[0].1, Expired) then Pruned(t, [], true)
    else
      var rest := Prune(t[1..], now, accepts);
      Pruned(rest.table, [Entry(t[0].1, Expired)] + rest.entries, rest.raised)
  }

  /** Why `held` refuses `lease` in `acquire`; resources are compared across workspaces. */
  function Refusal(f: CaseFold, held: Lease, lease: Lease): (r: Option<Error>) {
    if Shares(held.resources, lease.resources) then Some(ResourceBusy)
    else if held.workspace != lease.workspace then None
    else if held.wide || lease.wide then Some(WideBusy)
    else if held.tree == lease.tree && AnyOverlap(f, held.paths, lease.paths) then Some(PathsBusy)
    else None
  }

  function FirstRefusal(f: CaseFold, t: Table, lease: Lease): (r: Option<Error>) {
    if t == [] then None
    else
      var first := Refusal(f, t[0].1, lease);
      if first.Some? then first else FirstRefusal(f, t[1..], lease)
  }

  /** Notify "active", then store. */
  function Store(p: Pruned, lease: Lease, accepts: Sink): (e: Effect<Lease>) {
    if accepts(lease, Active) then
      Effect(Put(p.table, lease.id, lease), p.entries + [Entry(lease, Active)], Ok(lease))
    else Effect(p.table, p.entries, Err(NotifyRaised))
  }

  function Acquire(c: Config, t: Table, req: Request, id: string, now: real, accepts: Sink): (e: Effect<Lease>) {
    if !ValidRequest(c.rules, req) then Effect(t, [], Err(Invalid))
    else
      var p := Prune(t, now, accepts);
      var lease := NewLease(c, req, id, now);
      var refusal := FirstRefusal(c.fold, p.table, lease);
      if p.raised then Effect(p.table, p.entries, Err(NotifyRaised))
      else if refusal.Some? then Effect(p.table, p.entries, Err(refusal.value))
      else Store(p, lease, accepts)
  }

  /** The held lease with the argument's id, when its owner is the argument's owner. */
  function Current(t: Table, lease: Lease): (r: Option<Lease>) {
    var found := Find(t, lease.id);
    if found.Some? && found.value.owner == lease.owner then found else None
  }

  /** The two leases claim the same paths and resources under the same id. */
  ghost predicate SameScope(a: Lease, b: Lease) {
    && a.id == b.id && a.workspace == b.workspace && a.tree == b.tree && a.wide == b.wide
    && a.paths == b.paths && a.resources == b.resources
  }

  function Renewed(c: Config, lease: Lease, now: real): (r: Lease)
    ensures SameScope(r, lease)
  {
    lease.(expiresAt := now + c.ttl)
  }

  function Resnapped(lease: Lease, snap: Snapshot): (r: Lease)
    ensures SameScope(r, lease)
  {
    lease.(baseRevision := snap.baseRevision, scopeHashes := SortBy(PairLe, snap.scopeHashes),
           stateHash := snap.stateHash)
  }

  function Refresh(c: Config, t: Table, lease: Lease, now: real, accepts: Sink): (e: Effect<Lease>) {
    var p := Prune(t, now, accepts);
    var current := Current(p.table, lease);
    if p.raised then Effect(p.table, p.entries, Err(NotifyRaised))
    else if current.None? then Effect(p.table, p.entries, Err(NotCurrent))
    else Store(p, Renewed(c, current.value, now), accepts)
  }

  predicate ValidSnapshot(rules: Rules, lease: Lease, snap: Snapshot) {
    && rules.revision(snap.baseRevision) && rules.stateHash(snap.stateHash)
    && HashesOk(rules, lease.wide, lease.paths, snap.scopeHashes)
  }

  function UpdateSnapshot(c: Config, t: Table, lease: Lease, snap: Snapshot, now: real, accepts: Sink): (e: Effect<Lease>) {
    if !ValidSnapshot(c.rules, lease, snap) then Effect(t, [], Err(Invalid))
    else
      var p := Prune(t, now, accepts);
      var current := Current(p.table, lease);
      if p.raised then Effect(p.table, p.entries, Err(NotifyRaised))
      else if current.None? then Effect(p.table, p.entries, Err(NotCurrent))
      else Store(p, Resnapped(current.value, snap), accepts)
  }

  /** `release` notifies "released" and `suspend` notifies "stale"; neither prunes. */
  function Drop(t: Table, lease: Lease, change: Change, accepts: Sink): (e: Effect<Lease>) {
    var current := Current(t, lease);
    if current.None? then Effect(t, [], Err(NotCurrent))
    else if !accepts(current.value, change) then Effect(t, [], Err(NotifyRaised))
    else Effect(Remove(t, lease.id), [Entry(current.value, change)], Ok(current.value))
  }

  /** `restore` compares every tree of the workspace, and resources inside the workspace only. */
  predicate RestoreRefused(f: CaseFold, held: Lease, lease: Lease) {
    && held.workspace == lease.workspace
    && (held.wide || lease.wide || AnyOverlap(f, held.paths, lease.paths)
        || Shares(held.resources, lease.resources))
  }

  predicate Accepted(f: CaseFold, t: Table, lease: Lease, now: real) {
    lease.expiresAt > now && forall x :: x in t ==> !RestoreRefused(f, x.1, lease)
  }

  function RestoreAll(f: CaseFold, t: Table, leases: seq<Lease>, now: real): (r: (Table, seq<Lease>)) {
    if leases == [] then (t, [])
    else
      var n := |leases| - 1;
      var (table, restored) := RestoreAll(f, t, leases[..n], now);
      if Accepted(f, table, leases[n], now) then
        (Put(table, leases[n].id, leases[n]), restored + [leases[n]])
      else (table, restored)
  }

  function Restore(c: Config, t: Table, leases: seq<Lease>, now: real, accepts: Sink): (e: Effect<seq<Lease>>) {
    var p := Prune(t, now, accepts);
    if p.raised then Effect(p.table, p.entries, Err(NotifyRaised))
    else
      var (table, restored) := RestoreAll(c.fold, p.table, leases, now);
      Effect(table, p.entries, Ok(restored))
  }

  function Get(c: Config, t: Table, id: string, now: real, accepts: Sink): (e: Effect<Option<Lease>>) {
    if !c.rules.identifier(id) then Effect(t, [], Err(Invalid))
    else
      var p := Prune(t, now, accepts);
      if p.raised then Effect(p.table, p.entries, Err(NotifyRaised))
      else Effect(p.table, p.entries, Ok(Find(p.table, id)))
  }

  /** Whether a lease covers a list of paths and resources; a malformed name raises. */
  function Covers(rules: Rules, lease: Lease, paths: seq<string>, resources: seq<string>): (r: Result<bool, Error>) {
    if (exists p :: p in paths && !rules.path(p)) || (exists r :: r in resources && !rules.resource(r)) then
      Err(Invalid)
    else if !lease.wide && exists p :: p in paths && forall allowed :: allowed in lease.paths ==> !Within(p, allowed) then
      Ok(false)
    else Ok(forall r :: r in resources ==> r in lease.resources)
  }

  // ---------------------------------------------------------------- runs

  datatype Call =
    | AcquireCall(req: Request, newId: string, now: real, accepts: Sink)
    | RefreshCall(lease: Lease, now: real, accepts: Sink)
    | SnapshotCall(lease: Lease, snap: Snapshot, now: real, accepts: Sink)
    | ReleaseCall(lease: Lease, accepts: Sink)
    | SuspendCall(lease: Lease, accepts: Sink)
    | RestoreCall(leases: seq<Lease>, now: real, accepts: Sink)
    | GetCall(id: string, now: real, accepts: Sink)

  /** The table, with the notifications delivered since it was last restored. */
  datatype History = History(table: Table, base: Table, journal: seq<Entry>)

  function Logged<R>(h: History, e: Effect<R>): History {
    History(e.table, h.base, h.journal + e.entries)
  }

  function Apply(c: Config, h: History, call: Call): (r: History) {
    match call
    case AcquireCall(req, id, now, accepts) => Logged(h, Acquire(c, h.table, req, id, now, accepts))
    case RefreshCall(lease, now, accepts) => Logged(h, Refresh(c, h.table, lease, now, accepts))
    case SnapshotCall(lease, snap, now, accepts) => Logged(h, UpdateSnapshot(c, h.table, lease, snap, now, accepts))
    case ReleaseCall(lease, accepts) => Logged(h, Drop(h.table, lease, Released, accepts))
    case SuspendCall(lease, accepts) => Logged(h, Drop(h.table, lease, Stale, accepts))
    case RestoreCall(leases, now, accepts) =>
      var e := Restore(c, h.table, leases, now, accepts);
      if e.outcome.Ok? then History(e.table, e.table, []) else Logged(h, e)
    case GetCall(id, now, accepts) => Logged(h, Get(c, h.table, id, now, accepts))
  }

  function Run(c: Config, calls: seq<Call>): (h: History) {
    if calls == [] then History([], [], [])
    else Apply(c, Run(c, calls[..|calls| - 1]), calls[|calls| - 1])
  }

  function ReplayEntry(t: Table, e: Entry): Table {
    if e.change == Active then Put(t, e.lease.id, e.lease) else Remove(t, e.lease.id)
  }

  /** The table rebuilt from persisted notifications alone. */
  function Replay(base: Table, journal: seq<Entry>): (t: Table) {
    if journal == [] then base
    else ReplayEntry(Replay(base, journal[..|journal| - 1]), journal[|journal| - 1])
  }

  ghost predicate Keyed(t: Table) {
    Distinct(t) && forall x :: x in t ==> x.0 == x.1.id
  }

  /** Two leases that may be held together. */
  ghost predicate Compatible(f: CaseFold, a: Lease, b: Lease) {
    a.workspace == b.workspace ==>
      && !a.wide && !b.wide
      && !Shares(a.resources, b.resources)
      && (a.tree == b.tree ==> !AnyOverlap(f, a.paths, b.paths))
  }

  ghost predicate Safe(f: CaseFold, t: Table) {
    && Keyed(t)
    && forall x, y :: x in t && y in t && x.0 != y.0 ==> Compatible(f, x.1, y.1)
  }

  // ---------------------------------------------------------------- journal

  lemma {:induction false} ReplayConcat(base: Table, a: seq<Entry>, b: seq<Entry>)
    ensures Replay(base, a + b) == Replay(Replay(base, a), b)
  {
    if b == [] {
      assert a + b == a;
    } else {
      var n := |b| - 1;
      ReplayConcat(base, a, b[..n]);
      var all := a + b;
      assert all[..|all| - 1] == a + b[..n] && all[|all| - 1] == b[n];
    }
  }

  lemma ReplayNext(base: Table, a: seq<Entry>, b: seq<Entry>, e: Entry)
    ensures Replay(base, a + (b + [e])) == ReplayEntry(Replay(base, a + b), e)
  {
    var all := a + (b + [e]);
    assert all[..|all| - 1] == a + b;
  }

  function ExpiredIds(t: Table, now: real): (ids: seq<string>) {
    if t == [] then []
    else if t[0].1.expiresAt <= now then [t[0].0] + ExpiredIds(t[1..], now)
    else ExpiredIds(t[1..], now)
  }

  lemma {:induction false} ExpiredFound(t: Table, now: real)
    requires Keyed(t) && ExpiredIds(t, now) != []
    ensures var found := Find(t, ExpiredIds(t, now)[0]);
            found.Some? && found.value.id == ExpiredIds(t, now)[0]
  {
    if t[0].1.expiresAt > now {
      ExpiredFound(t[1..], now);
    }
    var i := IndexOf(t, ExpiredIds(t, now)[0]);
    assert i < |t| ==> t[i] in t;
  }

  /** One turn of the sweep, seen from the list of expired ids. */
  lemma {:induction false} PruneTurn(t: Table, now: real, accepts: Sink)
    requires Keyed(t)
    ensures var ids := ExpiredIds(t, now);
            if ids == [] then Prune(t, now, accepts) == Pruned(t, [], false)
            else
              var found := Find(t, ids[0]);
              var less := Remove(t, ids[0]);
              && found.Some? && found.value.id == ids[0]
              && ExpiredIds(less, now) == ids[1..]
              && (!accepts(found.value, Expired) ==> Prune(t, now, accepts) == Pruned(t, [], true))
              && (accepts(found.value, Expired) ==>
                  var rest := Prune(less, now, accepts);
                  Prune(t, now, accepts) == Pruned(rest.table, [Entry(found.value, Expired)] + rest.entries, rest.raised))
  {
    var ids := ExpiredIds(t, now);
    if ids != [] {
      ExpiredFound(t, now);
      RemoveHead(t, ids[0]);
      if t[0].1.expiresAt > now {
        PruneTurn(t[1..], now, accepts);
        ExpiredFound(t[1..], now);
        assert t[0].0 != ids[0];
        assert Find(t, ids[0]) == Find(t[1..], ids[0]);
        assert [t[0]] + t[1..] == t;
      }
    } else if t != [] {
      PruneTurn(t[1..], now, accepts);
      assert [t[0]] + t[1..] == t;
    }
  }

  /** Replaying the expiry notifications of a sweep removes exactly what the sweep removed. */
  lemma {:induction false} PruneReplay(t: Table, now: real, accepts: Sink)
    requires Keyed(t)
    ensures Replay(t, Prune(t, now, accepts).entries) == Prune(t, now, accepts).table
    ensures Keyed(Prune(t, now, accepts).table)
    decreases |ExpiredIds(t, now)|
  {
    PruneTurn(t, now, accepts);
    var ids := ExpiredIds(t, now);
    if ids != [] {
      var lease := Find(t, ids[0]).value;
      if accepts(lease, Expired) {
        var less := Remove(t, ids[0]);
        RemoveMember(t, ids[0]);
        PruneReplay(less, now, accepts);
        var e := [Entry(lease, Expired)];
        ReplayConcat(t, e, Prune(less, now, accepts).entries);
        assert e[..0] == [] && Replay(t, []) == t;
        assert Replay(t, e) == less;
      }
    }
  }

  /** A sweep that does not raise leaves exactly the unexpired leases; one that
      raises keeps every unexpired lease and the one whose notification raised. */
  lemma {:induction false} PruneExact(t: Table, now: real, accepts: Sink)
    ensures var p := Prune(t, now, accepts);
            && (forall x :: x in p.table ==> x in t)
            && (forall x :: x in t && x.1.expiresAt > now ==> x in p.table)
            && (!p.raised ==> forall x :: x in p.table ==> x.1.expiresAt > now)
            && (p.raised ==> exists x :: x in p.table && x.1.expiresAt <= now && !accepts(x.1, Expired))
  {
    if t != [] {
      assert t == [t[0]] + t[1..];
      PruneExact(t[1..], now, accepts);
    }
  }

  // ---------------------------------------------------------------- safety

  lemma CompatibleSymmetric(f: CaseFold, a: Lease, b: Lease)
    ensures Compatible(f, a, b) == Compatible(f, b, a)
  {
    if AnyOverlap(f, a.paths, b.paths) || AnyOverlap(f, b.paths, a.paths) {
      forall p, q { OverlapSymmetric(f, p, q); }
    }
  }

  lemma PruneSafe(f: CaseFold, t: Table, now: real, accepts: Sink)
    requires Safe(f, t)
    ensures Safe(f, Prune(t, now, accepts).table)
  {
    PruneReplay(t, now, accepts);
    PruneExact(t, now, accepts);
  }

  /** Storing a lease that is compatible with every held lease of another id keeps the table safe. */
  lemma PutSafe(f: CaseFold, t: Table, lease: Lease)
    requires Safe(f, t)
    requires forall x :: x in t && x.0 != lease.id ==> Compatible(f, x.1, lease)
    ensures Safe(f, Put(t, lease.id, lease))
  {
    PutMember(t, lease.id, lease);
    forall x | x in t { CompatibleSymmetric(f, x.1, lease); }
  }

  lemma RemoveSafe(f: CaseFold, t: Table, id: string)
    requires Safe(f, t)
    ensures Safe(f, Remove(t, id))
  {
    RemoveMember(t, id);
  }

  lemma {:induction false} FirstRefusalMeaning(f: CaseFold, t: Table, lease: Lease)
    ensures FirstRefusal(f, t, lease).None? <==> forall x :: x in t ==> Refusal(f, x.1, lease).None?
  {
    if t != [] {
      assert t == [t[0]] + t[1..];
      FirstRefusalMeaning(f, t[1..], lease);
    }
  }

  /** A lease with the scope of a held one, stored under its id, keeps the table safe. */
  lemma RescopeSafe(f: CaseFold, t: Table, held: Lease, lease: Lease)
    requires Safe(f, t) && Find(t, lease.id) == Some(held)
    requires lease.workspace == held.workspace && lease.tree == held.tree && lease.wide == held.wide
    requires lease.paths == held.paths && lease.resources == held.resources
    ensures Safe(f, Put(t, lease.id, lease))
  {
    FindMember(t, lease.id, held);
    PutSafe(f, t, lease);
  }

  lemma CurrentKeyed(t: Table, lease: Lease)
    requires Keyed(t) && Current(t, lease).Some?
    ensures Current(t, lease).value.id == lease.id
  {
    FindMember(t, lease.id, Current(t, lease).value);
  }

  lemma {:induction false} RestoreAllSafe(f: CaseFold, t: Table, leases: seq<Lease>, now: real)
    requires Safe(f, t)
    ensures Safe(f, RestoreAll(f, t, leases, now).0)
  {
    if leases != [] {
      var n := |leases| - 1;
      RestoreAllSafe(f, t, leases[..n], now);
      var table := RestoreAll(f, t, leases[..n], now).0;
      if Accepted(f, table, leases[n], now) {
        PutSafe(f, table, leases[n]);
      }
    }
  }

  /** What every single call keeps: a safe table, and a journal that rebuilds it. */
  lemma ApplySafe(c: Config, h: History, call: Call)
    requires Safe(c.fold, h.table) && Replay(h.base, h.journal) == h.table
    ensures var r := Apply(c, h, call);
            Safe(c.fold, r.table) && Replay(r.base, r.journal) == r.table
  {
    var t := h.table;
    match call
    case AcquireCall(req, id, now, accepts) => AcquireKeeps(c, h, req, id, now, accepts);
    case RefreshCall(lease, now, accepts) => RefreshKeeps(c, h, lease, now, accepts);
    case SnapshotCall(lease, snap, now, accepts) => SnapshotKeeps(c, h, lease, snap, now, accepts);
    case ReleaseCall(lease, accepts) => DropKeeps(c, h, lease, Released, accepts);
    case SuspendCall(lease, accepts) => DropKeeps(c, h, lease, Stale, accepts);
    case RestoreCall(leases, now, accepts) =>
      SweepKeeps(c, h, now, accepts);
      if !Prune(t, now, accepts).raised {
        RestoreAllSafe(c.fold, Prune(t, now, accepts).table, leases, now);
      }
    case GetCall(id, now, accepts) =>
      SweepKeeps(c, h, now, accepts);
      assert h.journal + [] == h.journal;
  }

  ghost predicate Kept<R>(c: Config, h: History, e: Effect<R>) {
    && Safe(c.fold, e.table)
    && Replay(h.base, h.journal + e.entries) == e.table
  }

  lemma SweepKeeps(c: Config, h: History, now: real, accepts: Sink)
    requires Safe(c.fold, h.table) && Replay(h.base, h.journal) == h.table
    ensures var p := Prune(h.table, now, accepts);
            Safe(c.fold, p.table) && Replay(h.base, h.journal + p.entries) == p.table
  {
    PruneSafe(c.fold, h.table, now, accepts);
    PruneReplay(h.table, now, accepts);
    ReplayConcat(h.base, h.journal, Prune(h.table, now, accepts).entries);
  }

  lemma StoreKeeps(c: Config, h: History, now: real, lease: Lease, accepts: Sink)
    requires Safe(c.fold, h.table) && Replay(h.base, h.journal) == h.table
    requires Safe(c.fold, Put(Prune(h.table, now, accepts).table, lease.id, lease))
    ensures Kept(c, h, Store(Prune(h.table, now, accepts), lease, accepts))
  {
    SweepKeeps(c, h, now, accepts);
    var p := Prune(h.table, now, accepts);
    ReplayNext(h.base, h.journal, p.entries, Entry(lease, Active));
  }

  lemma AcquireKeeps(c: Config, h: History, req: Request, id: string, now: real, accepts: Sink)
    requires Safe(c.fold, h.table) && Replay(h.base, h.journal) == h.table
    ensures Kept(c, h, Acquire(c, h.table, req, id, now, accepts))
  {
    assert h.journal + [] == h.journal;
    SweepKeeps(c, h, now, accepts);
    var p := Prune(h.table, now, accepts);
    var lease := NewLease(c, req, id, now);
    FirstRefusalMeaning(c.fold, p.table, lease);
    if FirstRefusal(c.fold, p.table, lease).None? {
      PutSafe(c.fold, p.table, lease);
      StoreKeeps(c, h, now, lease, accepts);
    }
  }

  lemma RenewKeeps(c: Config, h: History, lease: Lease, next: Lease, now: real, accepts: Sink)
    requires Safe(c.fold, h.table) && Replay(h.base, h.journal) == h.table
    requires var current := Current(Prune(h.table, now, accepts).table, lease);
             current.Some? && SameScope(next, current.value)
    ensures Kept(c, h, Store(Prune(h.table, now, accepts), next, accepts))
  {
    SweepKeeps(c, h, now, accepts);
    var t := Prune(h.table, now, accepts).table;
    CurrentKeyed(t, lease);
    RescopeSafe(c.fold, t, Current(t, lease).value, next);
    StoreKeeps(c, h, now, next, accepts);
  }

  lemma RefreshKeeps(c: Config, h: History, lease: Lease, now: real, accepts: Sink)
    requires Safe(c.fold, h.table) && Replay(h.base, h.journal) == h.table
    ensures Kept(c, h, Refresh(c, h.table, lease, now, accepts))
  {
    var p := Prune(h.table, now, accepts);
    var current := Current(p.table, lease);
    if p.raised || current.None? {
      SweepKeeps(c, h, now, accepts);
    } else {
      var next := Renewed(c, current.value, now);
      RenewKeeps(c, h, lease, next, now, accepts);
      assert Refresh(c, h.table, lease, now, accepts) == Store(p, next, accepts);
    }
  }

  lemma SnapshotKeeps(c: Config, h: History, lease: Lease, snap: Snapshot, now: real, accepts: Sink)
    requires Safe(c.fold, h.table) && Replay(h.base, h.journal) == h.table
    ensures Kept(c, h, UpdateSnapshot(c, h.table, lease, snap, now, accepts))
  {
    assert h.journal + [] == h.journal;
    var p := Prune(h.table, now, accepts);
    var current := Current(p.table, lease);
    if p.raised || current.None? {
      SweepKeeps(c, h, now, accepts);
    } else {
      var next := Resnapped(current.value, snap);
      RenewKeeps(c, h, lease, next, now, accepts);
    }
  }

  lemma DropKeeps(c: Config, h: History, lease: Lease, change: Change, accepts: Sink)
    requires Safe(c.fold, h.table) && Replay(h.base, h.journal) == h.table
    requires change != Active
    ensures Kept(c, h, Drop(h.table, lease, change, accepts))
  {
    assert h.journal + [] == h.journal;
    RemoveSafe(c.fold, h.table, lease.id);
    var current := Current(h.table, lease);
    if current.Some? {
      CurrentKeyed(h.table, lease);
      ReplayNext(h.base, h.journal, [], Entry(current.value, change));
      assert [] + [Entry(current.value, change)] == [Entry(current.value, change)];
    }
  }

  /** Every run of calls, with notifications raising anywhere, ends in a safe
      table that replaying its journal over the last restored table rebuilds exactly. */
  lemma {:induction false} RunSafe(c: Config, calls: seq<Call>)
    ensures var h := Run(c, calls);
            Safe(c.fold, h.table) && Replay(h.base, h.journal) == h.table
  {
    if calls != [] {
      var n := |calls| - 1;
      RunSafe(c, calls[..n]);
      ApplySafe(c, Run(c, calls[..n]), calls[n]);
    }
  }

  /** In every run no path is covered by two distinct held leases of one
      workspace and working tree, not even under two spellings that fold together. */
  lemma NoPathCoveredTwice(c: Config, calls: seq<Call>, a: Lease, b: Lease,
                           p: string, ps: seq<string>, prs: seq<string>,
                           q: string, qs: seq<string>, qrs: seq<string>)
    requires var t := Run(c, calls).table; Find(t, a.id) == Some(a) && Find(t, b.id) == Some(b)
    requires a.workspace == b.workspace && a.tree == b.tree
    requires p in ps && q in qs && Fold(c.fold, p) == Fold(c.fold, q)
    requires Covers(c.rules, a, ps, prs) == Ok(true) && Covers(c.rules, b, qs, qrs) == Ok(true)
    ensures a == b
  {
    RunSafe(c, calls);
    var t := Run(c, calls).table;
    FindMember(t, a.id, a);
    FindMember(t, b.id, b);
    if a.id != b.id && !a.wide && !b.wide {
      var x :| x in a.paths && Within(p, x);
      var y :| y in b.paths && Within(q, y);
      CoveringScopesOverlap(c.fold, p, q, x, y);
      assert AnyOverlap(c.fold, a.paths, b.paths);
    }
  }
}

/** Credential slots and command profiles as values: one-shot grants, the preflights that
    name them, and the children they are injected into. */
module Credentials {
  import opened Wrappers
  import opened Sorting

  datatype Kind = Env | Keychain

  datatype Policy = Policy(slot: string, kind: Kind, source: string, profiles: seq<string>, projects: seq<string>)

  datatype Grant = Grant(id: string, slot: string, project: string, profile: string, expiresAt: real, consumedAt: Option<real>)

  type Grants = map<string, Grant>

  /** What a manager is built with. */
  datatype Vault = Vault(policies: map<string, Policy>, environ: map<string, string>, ttl: real)

  /** The keychain as one call finds it. */
  type Reader = string -> Option<string>

  datatype Error =
    | SlotUnknown | SlotDenied | SlotUnavailable | GrantInvalid | GrantExpired | GrantScopeMismatch
    | ProfileUnknown | ArgumentsInvalid | RootUnavailable | RootInvalid | GrantDenied
    | PreflightInvalid | PreflightStale | StartFailed

  /** What a child gets: its environment entries, and the values to redact from its output. */
  datatype Injection = Injection(env: map<string, string>, redact: seq<string>)

  // ---------------------------------------------------------------- slots and grants

  function Material(vault: Vault, policy: Policy, reader: Reader): (r: Option<string>)
    ensures r.Some? ==> r.value != ""
  {
    var found :=
      match policy.kind
      case Env => if policy.source in vault.environ then Some(vault.environ[policy.source]) else None
      case Keychain => reader(policy.source);
    if found.Some? && found.value == "" then None else found
  }

  /** Whether material exists, without reading it: `present` is the keychain's answer. */
  predicate Available(vault: Vault, policy: Policy, present: string -> bool) {
    match policy.kind
    case Env => policy.source in vault.environ && vault.environ[policy.source] != ""
    case Keychain => present(policy.source)
  }

  /** `validate_slot_access`. */
  function Access(vault: Vault, slot: string, project: string, profile: string, present: string -> bool): (r: Option<Error>) {
    if slot !in vault.policies then Some(SlotUnknown)
    else if project !in vault.policies[slot].projects || profile !in vault.policies[slot].profiles then Some(SlotDenied)
    else if !Available(vault, vault.policies[slot], present) then Some(SlotUnavailable)
    else None
  }

  function NewGrant(vault: Vault, id: string, slot: string, project: string, profile: string, now: real): (r: Grant) {
    Grant(id, slot, project, profile, now + vault.ttl, None)
  }

  function GrantProblem(grants: Grants, id: string, project: string, profile: string, now: real): (r: Option<Error>) {
    if id !in grants || grants[id].consumedAt.Some? then Some(GrantInvalid)
    else if now > grants[id].expiresAt then Some(GrantExpired)
    else if grants[id].project != project || grants[id].profile != profile then Some(GrantScopeMismatch)
    else None
  }

  /** The slots of grants that are all usable, or the first problem. */
  function SlotsOf(grants: Grants, ids: seq<string>, project: string, profile: string, now: real): (r: Result<seq<string>, Error>) {
    if ids == [] then Ok([])
    else
      var n := |ids| - 1;
      var before := SlotsOf(grants, ids[..n], project, profile, now);
      if before.Err? then before
      else
        var problem := GrantProblem(grants, ids[n], project, profile, now);
        if problem.Some? then Err(problem.value) else Ok(before.value + [grants[ids[n]].slot])
  }

  /** `validate_grants`. */
  function Validated(grants: Grants, ids: seq<string>, project: string, profile: string, now: real): (r: Result<seq<string>, Error>) {
    var slots := SlotsOf(grants, ids, project, profile, now);
    if slots.Ok? && !NoDuplicates(slots.value) then Err(GrantInvalid) else slots
  }

  function SlotMaterial(vault: Vault, slot: string, reader: Reader): (r: Result<string, Error>) {
    if slot !in vault.policies then Err(SlotUnknown)
    else
      var material := Material(vault, vault.policies[slot], reader);
      if material.None? then Err(SlotUnavailable) else Ok(material.value)
  }

  function WithMaterial(before: Injection, slot: string, material: string): (r: Injection) {
    Injection(before.env[slot := material], before.redact + [material])
  }

  /** The material of every slot, or the first slot's problem. */
  function Resolved(vault: Vault, slots: seq<string>, reader: Reader): (r: Result<Injection, Error>) {
    if slots == [] then Ok(Injection(map[], []))
    else
      var n := |slots| - 1;
      var before := Resolved(vault, slots[..n], reader);
      if before.Err? then before
      else
        var material := SlotMaterial(vault, slots[n], reader);
        if material.Err? then Err(material.error) else Ok(WithMaterial(before.value, slots[n], material.value))
  }

  /** `resolve_grants`. */
  function Injected(vault: Vault, grants: Grants, ids: seq<string>, project: string, profile: string,
                    reader: Reader, now: real): (r: Result<Injection, Error>)
  {
    var slots := Validated(grants, ids, project, profile, now);
    if slots.Err? then Err(slots.error) else Resolved(vault, slots.value, reader)
  }

  function Spent(g: Grant, at: real): (r: Grant) {
    g.(consumedAt := Some(at))
  }

  function Consumed(grants: Grants, ids: seq<string>, at: real): (r: Grants) {
    map k | k in grants :: if k in ids then Spent(grants[k], at) else grants[k]
  }

  // ---------------------------------------------------------------- command profiles

  /** A slot manager as a controller finds it. */
  datatype Slots = Slots(vault: Vault, grants: Grants)

  datatype Profile = Profile(id: string, definitionHash: string, slots: seq<string>)

  /** A directory as the file system answers for it. */
  datatype Root = Missing | NotDirectory | Directory(path: string, device: int, inode: int)

  datatype Preflight = Preflight(
    id: string, project: string, profile: string, profileHash: string, root: Root,
    argv: seq<string>, grants: seq<string>)

  /** A process that was started. */
  datatype Child = Child(preflight: Preflight, injection: Injection, at: real)

  /** The checks of `preflight` up to the id it draws; `rendered` is the outcome of the typed
      arguments. Without grants there is nothing to validate. */
  function Planned(profiles: map<string, Profile>, slots: Option<Slots>, root: Root, profile: string,
                   rendered: Option<seq<string>>, project: string, ids: seq<string>, id: string, now: real)
    : (r: Result<Preflight, Error>)
  {
    if profile !in profiles then Err(ProfileUnknown)
    else if rendered.None? then Err(ArgumentsInvalid)
    else if root == Missing then Err(RootUnavailable)
    else if root == NotDirectory then Err(RootInvalid)
    else
      var denied := if ids == [] then None else Denied(profiles[profile], profile, slots, ids, project, now);
      if denied.Some? then Err(denied.value)
      else Ok(Preflight(id, project, profile, profiles[profile].definitionHash, root, rendered.value, ids))
  }

  /** Why grants cannot be bound to a command of the profile. */
  function Denied(definition: Profile, profile: string, slots: Option<Slots>, ids: seq<string>, project: string, now: real): (r: Option<Error>) {
    if slots.None? then Some(GrantDenied)
    else
      var granted := Validated(slots.value.grants, ids, project, profile, now);
      if granted.Err? then Some(granted.error)
      else if exists i :: 0 <= i < |granted.value| && granted.value[i] !in definition.slots then Some(GrantDenied)
      else None
  }

  /** The checks of `run` on the preflight it popped. */
  function Stale(profiles: map<string, Profile>, p: Preflight, root: Root): bool {
    p.profile !in profiles || profiles[p.profile].definitionHash != p.profileHash || root == Missing || root != p.root
  }

  /** What the child of a popped preflight gets, or why the run is refused. */
  function Outcome(profiles: map<string, Profile>, slots: Option<Slots>, p: Preflight, root: Root, reader: Reader, now: real)
    : (r: Result<Injection, Error>)
  {
    if Stale(profiles, p, root) then Err(PreflightStale)
    else if p.grants == [] then Ok(Injection(map[], []))
    else if slots.None? then Err(GrantDenied)
    else Injected(slots.value.vault, slots.value.grants, p.grants, p.project, p.profile, reader, now)
  }

  /** A slot manager after grants were consumed. */
  function Drained(slots: Option<Slots>, ids: seq<string>, at: real): (r: Option<Slots>) {
    if slots.None? then None else Some(slots.value.(grants := Consumed(slots.value.grants, ids, at)))
  }

  /** What `run` answers once its checks are done: a process that does not start is an error,
      but its grants were consumed before. */
  function Reported(outcome: Result<Injection, Error>, p: Preflight, now: real, starts: bool): (r: Result<Child, Error>) {
    if outcome.Err? then Err(outcome.error)
    else if !starts then Err(StartFailed)
    else Ok(Child(p, outcome.value, now))
  }

  // ---------------------------------------------------------------- facts

  /** The policy of the slot lists the project and the profile. */
  ghost predicate Allowed(vault: Vault, slot: string, project: string, profile: string) {
    && slot in vault.policies
    && project in vault.policies[slot].projects && profile in vault.policies[slot].profiles
  }

  /** The environment holds a value, or the keychain says that it does. */
  ghost predicate HasMaterial(vault: Vault, slot: string, present: string -> bool)
    requires slot in vault.policies
  {
    var policy := vault.policies[slot];
    if policy.kind == Env then policy.source in vault.environ && vault.environ[policy.source] != ""
    else present(policy.source)
  }

  /** A slot is open exactly to the projects and profiles its policy lists, while it has material. */
  lemma AccessExactly(vault: Vault, slot: string, project: string, profile: string, present: string -> bool)
    ensures var r := Access(vault, slot, project, profile, present);
            && (r == None <==> Allowed(vault, slot, project, profile) && HasMaterial(vault, slot, present))
            && (r == Some(SlotUnknown) <==> slot !in vault.policies)
            && (r == Some(SlotDenied) <==> slot in vault.policies && !Allowed(vault, slot, project, profile))
            && (r == Some(SlotUnavailable) <==> Allowed(vault, slot, project, profile) && !HasMaterial(vault, slot, present))
  {
  }

  /** The value is what the slot's source holds, and is not empty. */
  ghost predicate MaterialOf(vault: Vault, slot: string, reader: Reader, value: string) {
    && slot in vault.policies && value != ""
    && var policy := vault.policies[slot];
    && (policy.kind == Env ==> policy.source in vault.environ && vault.environ[policy.source] == value)
    && (policy.kind == Keychain ==> reader(policy.source) == Some(value))
  }

  lemma MaterialExactly(vault: Vault, slot: string, reader: Reader, value: string)
    ensures SlotMaterial(vault, slot, reader) == Ok(value) <==> MaterialOf(vault, slot, reader, value)
    ensures SlotMaterial(vault, slot, reader) == Err(SlotUnknown) <==> slot !in vault.policies
    ensures SlotMaterial(vault, slot, reader).Err? ==> SlotMaterial(vault, slot, reader).error in {SlotUnknown, SlotUnavailable}
  {
  }

  /** A held grant that was not spent, in time, for this project and profile. */
  ghost predicate Usable(grants: Grants, id: string, project: string, profile: string, now: real) {
    && id in grants && grants[id].consumedAt == None && now <= grants[id].expiresAt
    && grants[id].project == project && grants[id].profile == profile
  }

  lemma UsableExactly(grants: Grants, id: string, project: string, profile: string, now: real)
    ensures GrantProblem(grants, id, project, profile, now) == None <==> Usable(grants, id, project, profile, now)
  {
  }

  /** Grants pass exactly when all are usable and no two of them are for one slot. */
  lemma GrantsPassExactly(grants: Grants, ids: seq<string>, project: string, profile: string, now: real)
    ensures Validated(grants, ids, project, profile, now).Ok?
            <==> && (forall i :: 0 <= i < |ids| ==> Usable(grants, ids[i], project, profile, now))
                 && (forall i, j :: 0 <= i < j < |ids| ==> grants[ids[i]].slot != grants[ids[j]].slot)
  {
    SlotsExact(grants, ids, project, profile, now);
    forall i | 0 <= i < |ids|
      ensures GrantProblem(grants, ids[i], project, profile, now) == None <==> Usable(grants, ids[i], project, profile, now)
    {
      UsableExactly(grants, ids[i], project, profile, now);
    }
    var slots := SlotsOf(grants, ids, project, profile, now);
    if slots.Ok? {
      assert NoDuplicates(slots.value)
             <==> forall i, j :: 0 <= i < j < |ids| ==> grants[ids[i]].slot != grants[ids[j]].slot;
    }
  }

  lemma {:induction false} ResolvedWhenAll(vault: Vault, slots: seq<string>, reader: Reader)
    requires forall i :: 0 <= i < |slots| ==> SlotMaterial(vault, slots[i], reader).Ok?
    ensures Resolved(vault, slots, reader).Ok?
  {
    if slots != [] {
      ResolvedWhenAll(vault, slots[..|slots| - 1], reader);
    }
  }

  /** A command is planned exactly for a known profile, valid arguments and an existing directory, with
      usable grants, at most one for each slot and all of slots the profile names; it binds what it was given. */
  lemma PlannedExactly(profiles: map<string, Profile>, slots: Option<Slots>, root: Root, profile: string,
                       rendered: Option<seq<string>>, project: string, ids: seq<string>, id: string, now: real)
    ensures var r := Planned(profiles, slots, root, profile, rendered, project, ids, id, now);
            && (r.Ok? <==>
                  && profile in profiles && rendered.Some? && root.Directory?
                  && (ids != [] ==> slots.Some? && Bindable(profiles[profile], slots.value.grants, ids, project, profile, now)))
            && (r.Ok? ==> r.value == Preflight(id, project, profile, profiles[profile].definitionHash, root, rendered.value, ids))
  {
    if profile in profiles && slots.Some? && ids != [] {
      BindableExactly(profiles[profile], profile, slots.value, ids, project, now);
    }
  }

  ghost predicate Bindable(definition: Profile, grants: Grants, ids: seq<string>, project: string, profile: string, now: real) {
    && (forall i :: 0 <= i < |ids| ==> Usable(grants, ids[i], project, profile, now) && grants[ids[i]].slot in definition.slots)
    && (forall i, j :: 0 <= i < j < |ids| ==> grants[ids[i]].slot != grants[ids[j]].slot)
  }

  lemma BindableExactly(definition: Profile, profile: string, slots: Slots, ids: seq<string>, project: string, now: real)
    ensures Denied(definition, profile, Some(slots), ids, project, now) == None
            <==> Bindable(definition, slots.grants, ids, project, profile, now)
  {
    GrantsPassExactly(slots.grants, ids, project, profile, now);
    SlotsExact(slots.grants, ids, project, profile, now);
  }

  /** A run is refused as stale exactly when the profile is gone or redefined, or the directory is not the one planned for. */
  lemma StaleExactly(profiles: map<string, Profile>, slots: Option<Slots>, p: Preflight, root: Root, reader: Reader, now: real)
    requires p.root.Directory?
    ensures Outcome(profiles, slots, p, root, reader, now) == Err(PreflightStale)
            <==> p.profile !in profiles || profiles[p.profile].definitionHash != p.profileHash
                 || !root.Directory? || root.path != p.root.path || root.device != p.root.device || root.inode != p.root.inode
  {
    if !Stale(profiles, p, root) && p.grants != [] && slots.Some? {
      InjectedErrors(slots.value.vault, slots.value.grants, p.grants, p.project, p.profile, reader, now);
    }
  }

  lemma {:induction false} SlotErrors(grants: Grants, ids: seq<string>, project: string, profile: string, now: real)
    ensures SlotsOf(grants, ids, project, profile, now).Err? ==>
              SlotsOf(grants, ids, project, profile, now).error in {GrantInvalid, GrantExpired, GrantScopeMismatch}
  {
    if ids != [] {
      SlotErrors(grants, ids[..|ids| - 1], project, profile, now);
    }
  }

  lemma {:induction false} ResolvedErrors(vault: Vault, slots: seq<string>, reader: Reader)
    ensures Resolved(vault, slots, reader).Err? ==> Resolved(vault, slots, reader).error in {SlotUnknown, SlotUnavailable}
  {
    if slots != [] {
      ResolvedErrors(vault, slots[..|slots| - 1], reader);
    }
  }

  lemma InjectedErrors(vault: Vault, grants: Grants, ids: seq<string>, project: string, profile: string, reader: Reader, now: real)
    ensures Injected(vault, grants, ids, project, profile, reader, now) != Err(PreflightStale)
  {
    SlotErrors(grants, ids, project, profile, now);
    var slots := Validated(grants, ids, project, profile, now);
    if slots.Ok? {
      ResolvedErrors(vault, slots.value, reader);
    }
  }

  /** A planned command runs while nothing has changed: same profiles, same directory, its grants in
      time, their slots with material. */
  lemma PlanThenRun(profiles: map<string, Profile>, slots: Slots, root: Root, profile: string, rendered: Option<seq<string>>,
                    project: string, ids: seq<string>, id: string, now: real, reader: Reader, later: real)
    requires Planned(profiles, Some(slots), root, profile, rendered, project, ids, id, now).Ok?
    requires forall i :: 0 <= i < |ids| && ids[i] in slots.grants ==> later <= slots.grants[ids[i]].expiresAt
    requires forall i :: 0 <= i < |ids| && ids[i] in slots.grants ==> exists v :: MaterialOf(slots.vault, slots.grants[ids[i]].slot, reader, v)
    ensures var p := Planned(profiles, Some(slots), root, profile, rendered, project, ids, id, now).value;
            Outcome(profiles, Some(slots), p, root, reader, later).Ok?
  {
    PlannedExactly(profiles, Some(slots), root, profile, rendered, project, ids, id, now);
    if ids != [] {
      GrantsPassExactly(slots.grants, ids, project, profile, later);
      SlotsExact(slots.grants, ids, project, profile, later);
      var found := Validated(slots.grants, ids, project, profile, later).value;
      forall i | 0 <= i < |found| ensures SlotMaterial(slots.vault, found[i], reader).Ok? {
        var v :| MaterialOf(slots.vault, slots.grants[ids[i]].slot, reader, v);
        MaterialExactly(slots.vault, found[i], reader, v);
      }
      ResolvedWhenAll(slots.vault, found, reader);
    }
  }

  lemma SlotsNext(grants: Grants, ids: seq<string>, k: nat, project: string, profile: string, now: real, before: seq<string>)
    requires k < |ids| && SlotsOf(grants, ids[..k], project, profile, now) == Ok(before)
    ensures var problem := GrantProblem(grants, ids[k], project, profile, now);
            SlotsOf(grants, ids[..k + 1], project, profile, now)
            == if problem.Some? then Err(problem.value) else Ok(before + [grants[ids[k]].slot])
  {
    assert ids[..k + 1][..k] == ids[..k];
  }

  lemma {:induction false} SlotsErrorSticks(grants: Grants, ids: seq<string>, k: nat, project: string, profile: string, now: real, e: Error)
    requires k <= |ids| && SlotsOf(grants, ids[..k], project, profile, now) == Err(e)
    ensures SlotsOf(grants, ids, project, profile, now) == Err(e)
    decreases |ids|
  {
    if k == |ids| {
      assert ids[..k] == ids;
    } else {
      assert ids[..|ids| - 1][..k] == ids[..k];
      SlotsErrorSticks(grants, ids[..|ids| - 1], k, project, profile, now, e);
    }
  }

  lemma ResolvedNext(vault: Vault, slots: seq<string>, k: nat, reader: Reader, before: Injection)
    requires k < |slots| && Resolved(vault, slots[..k], reader) == Ok(before)
    ensures var material := SlotMaterial(vault, slots[k], reader);
            Resolved(vault, slots[..k + 1], reader)
            == if material.Err? then Err(material.error) else Ok(WithMaterial(before, slots[k], material.value))
  {
    assert slots[..k + 1][..k] == slots[..k];
  }

  lemma {:induction false} ResolvedErrorSticks(vault: Vault, slots: seq<string>, k: nat, reader: Reader, e: Error)
    requires k <= |slots| && Resolved(vault, slots[..k], reader) == Err(e)
    ensures Resolved(vault, slots, reader) == Err(e)
    decreases |slots|
  {
    if k == |slots| {
      assert slots[..k] == slots;
    } else {
      assert slots[..|slots| - 1][..k] == slots[..k];
      ResolvedErrorSticks(vault, slots[..|slots| - 1], k, reader, e);
    }
  }

  /** Grants that pass are present, unused, in time and for this project and profile, and
      their slots come in the order of the ids. */
  lemma {:induction false} SlotsExact(grants: Grants, ids: seq<string>, project: string, profile: string, now: real)
    ensures SlotsOf(grants, ids, project, profile, now).Ok?
            <==> forall i :: 0 <= i < |ids| ==> GrantProblem(grants, ids[i], project, profile, now) == None
    ensures var r := SlotsOf(grants, ids, project, profile, now);
            r.Ok? ==> |r.value| == |ids| && forall i :: 0 <= i < |ids| ==> ids[i] in grants && r.value[i] == grants[ids[i]].slot
  {
    if ids != [] {
      var n := |ids| - 1;
      SlotsExact(grants, ids[..n], project, profile, now);
      assert forall i :: 0 <= i < n ==> ids[..n][i] == ids[i];
    }
  }

  /** A validated list names no grant twice: a repeated grant would repeat its slot. */
  lemma ValidatedDistinct(grants: Grants, ids: seq<string>, project: string, profile: string, now: real)
    requires Validated(grants, ids, project, profile, now).Ok?
    ensures NoDuplicates(ids)
  {
    SlotsExact(grants, ids, project, profile, now);
    var slots := Validated(grants, ids, project, profile, now).value;
    forall i, j | 0 <= i < j < |ids| ensures ids[i] != ids[j] {
      assert slots[i] != slots[j];
    }
  }

  /** A child gets exactly the slots asked for, each with its own material. */
  lemma {:induction false} ResolvedExact(vault: Vault, slots: seq<string>, reader: Reader, r: Injection)
    requires Resolved(vault, slots, reader) == Ok(r)
    ensures forall s :: s in r.env <==> s in slots
    ensures forall s :: s in r.env ==> SlotMaterial(vault, s, reader) == Ok(r.env[s]) && r.env[s] in r.redact
    decreases |slots|
  {
    if slots != [] {
      var n := |slots| - 1;
      var before := Resolved(vault, slots[..n], reader).value;
      ResolvedExact(vault, slots[..n], reader, before);
      assert slots == slots[..n] + [slots[n]];
      var material := SlotMaterial(vault, slots[n], reader).value;
      assert r == WithMaterial(before, slots[n], material);
      assert r.redact[|before.redact|] == material;
    }
  }
}

/** `CredentialSlotManager` and `CommandProfileController`: grants spent in place, preflights popped by runs. */
module CommandProfiles {
  import opened Wrappers
  import opened Sorting
  import opened Credentials

  class CredentialSlotManager {
    const policies: map<string, Policy>
    const environ: map<string, string>
    const ttl: real
    var grants: Grants

    function Setup(): Vault {
      Vault(policies, environ, ttl)
    }

    constructor (policies: map<string, Policy>, environ: map<string, string>, ttl: real)
      ensures Setup() == Vault(policies, environ, ttl) && grants == map[]
    {
      this.policies, this.environ, this.ttl := policies, environ, ttl;
      grants := map[];
    }

    /** `preflight`: issue a one-shot grant; the material is not read. */
    method Preflight(slot: string, project: string, profile: string, present: string -> bool, id: string, now: real)
      returns (r: Result<Grant, Error>)
      modifies this
      ensures r == (var problem := Access(Setup(), slot, project, profile, present);
                    if problem.Some? then Err(problem.value) else Ok(NewGrant(Setup(), id, slot, project, profile, now)))
      ensures r.Ok? <==> Allowed(Setup(), slot, project, profile) && HasMaterial(Setup(), slot, present)
      ensures r.Ok? ==> r.value == Grant(id, slot, project, profile, now + ttl, None)
      ensures grants == if r.Ok? then old(grants)[id := r.value] else old(grants)
    {
      AccessExactly(Setup(), slot, project, profile, present);
      var problem := Access(Setup(), slot, project, profile, present);
      if problem.Some? {
        return Err(problem.value);
      }
      r := Ok(NewGrant(Setup(), id, slot, project, profile, now));
      grants := grants[id := r.value];
    }

    method ValidateGrants(ids: seq<string>, project: string, profile: string, now: real) returns (r: Result<seq<string>, Error>)
      ensures r == Validated(grants, ids, project, profile, now)
    {
      var slots: seq<string> := [];
      var i := 0;
      while i < |ids|
        invariant i <= |ids| && SlotsOf(grants, ids[..i], project, profile, now) == Ok(slots)
      {
        var id := ids[i];
        SlotsNext(grants, ids, i, project, profile, now, slots);
        var problem :=
          if id !in grants || grants[id].consumedAt.Some? then Some(GrantInvalid)
          else if now > grants[id].expiresAt then Some(GrantExpired)
          else if grants[id].project != project || grants[id].profile != profile then Some(GrantScopeMismatch)
          else None;
        if problem.Some? {
          SlotsErrorSticks(grants, ids, i + 1, project, profile, now, problem.value);
          return Err(problem.value);
        }
        slots := slots + [grants[id].slot];
        i := i + 1;
      }
      assert ids[..i] == ids;
      return if NoDuplicates(slots) then Ok(slots) else Err(GrantInvalid);
    }

    method ResolveGrants(ids: seq<string>, project: string, profile: string, reader: Reader, now: real)
      returns (r: Result<Injection, Error>)
      ensures r == Injected(Setup(), grants, ids, project, profile, reader, now)
    {
      var slots := ValidateGrants(ids, project, profile, now);
      if slots.Err? {
        return Err(slots.error);
      }
      SlotsExact(grants, ids, project, profile, now);
      var injection := Injection(map[], []);
      var i := 0;
      while i < |ids|
        invariant i <= |ids| && Resolved(Setup(), slots.value[..i], reader) == Ok(injection)
      {
        var slot := grants[ids[i]].slot;
        ResolvedNext(Setup(), slots.value, i, reader, injection);
        var material := SlotMaterial(Setup(), slot, reader);
        if material.Err? {
          ResolvedErrorSticks(Setup(), slots.value, i + 1, reader, material.error);
          return Err(material.error);
        }
        injection := WithMaterial(injection, slot, material.value);
        i := i + 1;
      }
      assert slots.value[..i] == slots.value;
      return Ok(injection);
    }

    /** `consume_grants`: resolve all first, then mark each grant; a refusal marks none. */
    method ConsumeGrants(ids: seq<string>, project: string, profile: string, reader: Reader, now: real, later: real)
      returns (r: Result<Injection, Error>)
      modifies this`grants
      ensures r == Injected(Setup(), old(grants), ids, project, profile, reader, now)
      ensures grants == if r.Ok? then Consumed(old(grants), ids, later) else old(grants)
    {
      r := ResolveGrants(ids, project, profile, reader, now);
      if r.Err? {
        return;
      }
      SlotsExact(grants, ids, project, profile, now);
      var i := 0;
      assert Consumed(grants, ids[..0], later) == grants;
      while i < |ids|
        invariant i <= |ids| && grants == Consumed(old(grants), ids[..i], later)
      {
        ConsumedNext(old(grants), ids, i, later);
        grants := grants[ids[i] := Spent(grants[ids[i]], later)];
        i := i + 1;
      }
      assert ids[..i] == ids;
    }

    method InvalidateAllGrants()
      modifies this`grants
      ensures grants == map[]
    {
      grants := map[];
    }
  }

  lemma ConsumedNext(grants: Grants, ids: seq<string>, k: nat, at: real)
    requires k < |ids| && ids[k] in grants
    ensures var before := Consumed(grants, ids[..k], at);
            ids[k] in before && Consumed(grants, ids[..k + 1], at) == before[ids[k] := Spent(before[ids[k]], at)]
  {
    var before := Consumed(grants, ids[..k], at);
    assert ids[..k + 1] == ids[..k] + [ids[k]];
    assert before.Keys == grants.Keys;
  }

  class CommandProfileController {
    const profiles: map<string, Profile>
    const slots: Option<CredentialSlotManager>
    var preflights: map<string, Preflight>

    function Held(): (r: Option<Slots>)
      reads if slots.Some? then {slots.value} else {}
    {
      if slots.Some? then Some(Slots(slots.value.Setup(), slots.value.grants)) else None
    }

    constructor (profiles: map<string, Profile>, slots: Option<CredentialSlotManager>)
      ensures this.profiles == profiles && this.slots == slots && preflights == map[]
    {
      this.profiles, this.slots := profiles, slots;
      preflights := map[];
    }

    /** Why the grants named by a preflight cannot be bound to its command, if they cannot. */
    method Deny(profile: string, project: string, ids: seq<string>, now: real) returns (r: Option<Error>)
      requires profile in profiles
      ensures r == Denied(profiles[profile], profile, Held(), ids, project, now)
    {
      if slots.None? {
        return Some(GrantDenied);
      }
      var granted := slots.value.ValidateGrants(ids, project, profile, now);
      if granted.Err? {
        return Some(granted.error);
      }
      return if exists i :: 0 <= i < |granted.value| && granted.value[i] !in profiles[profile].slots
             then Some(GrantDenied) else None;
    }

    /** `preflight`: bind a command, its directory and its grants under a new id. */
    method Plan(root: Root, profile: string, rendered: Option<seq<string>>, project: string,
                ids: seq<string>, id: string, now: real) returns (r: Result<Preflight, Error>)
      modifies this`preflights
      ensures r == Planned(profiles, old(Held()), root, profile, rendered, project, ids, id, now)
      ensures preflights == if r.Ok? then old(preflights)[id := r.value] else old(preflights)
    {
      if profile !in profiles {
        return Err(ProfileUnknown);
      }
      if rendered.None? {
        return Err(ArgumentsInvalid);
      }
      if root == Missing {
        return Err(RootUnavailable);
      }
      if root == NotDirectory {
        return Err(RootInvalid);
      }
      if ids != [] {
        var denied := Deny(profile, project, ids, now);
        if denied.Some? {
          return Err(denied.value);
        }
      }
      r := Ok(Preflight.Preflight(id, project, profile, profiles[profile].definitionHash, root, rendered.value, ids));
      preflights := preflights[id := r.value];
    }

    /** `run` up to the end of the process start, which `starts` says succeeded: the preflight is
        popped first, so it is used at most once; the grants are consumed after every check and
        before the start, all of them or none. */
    method Run(root: Root, id: string, reader: Reader, now: real, later: real, starts: bool) returns (r: Result<Child, Error>)
      modifies this`preflights
      modifies if slots.Some? then {slots.value} else {}
      ensures preflights == old(preflights) - {id}
      ensures id !in old(preflights) ==> r == Err(PreflightInvalid) && Held() == old(Held())
      ensures id in old(preflights) ==>
                var p := old(preflights)[id];
                var outcome := Outcome(profiles, old(Held()), p, root, reader, now);
                && r == Reported(outcome, p, now, starts)
                && Held() == if outcome.Ok? then Drained(old(Held()), p.grants, later) else old(Held())
    {
      if id !in preflights {
        assert preflights - {id} == preflights;
        return Err(PreflightInvalid);
      }
      var p := preflights[id];
      preflights := preflights - {id};
      if Stale(profiles, p, root) {
        return Err(PreflightStale);
      }
      var injection := Injection(map[], []);
      if p.grants == [] {
        if slots.Some? {
          assert Consumed(slots.value.grants, [], later) == slots.value.grants;
        }
      } else {
        if slots.None? {
          return Err(GrantDenied);
        }
        var injected := slots.value.ConsumeGrants(p.grants, p.project, p.profile, reader, now, later);
        if injected.Err? {
          return Err(injected.error);
        }
        injection := injected.value;
      }
      return if starts then Ok(Child(p, injection, now)) else Err(StartFailed);
    }
  }
}

/** Which slots a child may be given in any run: those whose policy names its project and profile. */
module CredentialScopes {
  import opened Wrappers
  import opened Credentials
  import opened CredentialRuns

  /** Every grant ever issued was for a slot whose policy lists its project and profile. */
  ghost predicate IssuedAllowed(vault: Vault, issued: Grants) {
    forall k :: k in issued ==> Allowed(vault, issued[k].slot, issued[k].project, issued[k].profile)
  }

  lemma ApplyAllowed(sys: System, step: Step)
    requires IssuedAllowed(sys.vault, sys.issued)
    ensures Apply(sys, step).vault == sys.vault && IssuedAllowed(sys.vault, Apply(sys, step).issued)
  {
    if step.IssueGrant? {
      AccessExactly(sys.vault, step.slot, step.project, step.profile, step.present);
    }
  }

  lemma {:induction false} RunAllowed(vault: Vault, profiles: map<string, Profile>, steps: seq<Step>)
    ensures var sys := Run(vault, profiles, steps);
            sys.vault == vault && IssuedAllowed(vault, sys.issued)
  {
    if steps != [] {
      var n := |steps| - 1;
      RunAllowed(vault, profiles, steps[..n]);
      ApplyAllowed(Run(vault, profiles, steps[..n]), steps[n]);
    }
  }

  /** In every run each slot in a child's environment has a policy that lists the child's project and
      profile, and is one of the slots that the command's profile names. */
  lemma ChildrenWithinPolicy(vault: Vault, profiles: map<string, Profile>, steps: seq<Step>, i: nat, slot: string)
    requires FreshIds(vault, profiles, steps) && i < |Run(vault, profiles, steps).children|
    requires slot in Run(vault, profiles, steps).children[i].injection.env
    ensures var p := Run(vault, profiles, steps).children[i].preflight;
            && Allowed(vault, slot, p.project, p.profile)
            && p.profile in profiles && slot in profiles[p.profile].slots
  {
    var sys := Run(vault, profiles, steps);
    var c := sys.children[i];
    ChildrenProper(vault, profiles, steps, i);
    RunAllowed(vault, profiles, steps);
    var k :| 0 <= k < |c.preflight.grants| && HasSlot(c.preflight.grants[k], slot, sys.issued);
    assert Scoped(c.preflight.grants[k], c, sys.grants, sys.issued);
  }

  /** A child's values are what the sources of its slots held when it was started. */
  lemma InjectedMaterial(sys: System, p: Preflight, root: Root, reader: Reader, now: real, injection: Injection, slot: string)
    requires Decided(sys, p, root, reader, now) == Ok(injection) && slot in injection.env
    ensures MaterialOf(sys.vault, slot, reader, injection.env[slot]) && injection.env[slot] in injection.redact
    ensures exists i :: 0 <= i < |p.grants| && p.grants[i] in sys.grants && sys.grants[p.grants[i]].slot == slot
  {
    SlotsExact(sys.grants, p.grants, p.project, p.profile, now);
    var slots := Validated(sys.grants, p.grants, p.project, p.profile, now).value;
    ResolvedExact(sys.vault, slots, reader, injection);
    MaterialExactly(sys.vault, slot, reader, injection.env[slot]);
    var i :| 0 <= i < |slots| && slots[i] == slot;
  }
}

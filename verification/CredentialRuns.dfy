/** Every sequence of grants, command preflights and command runs over one slot manager. */
module CredentialRuns {
  import opened Wrappers
  import opened Sorting
  import opened Credentials

  /** The manager's grants, the controller's preflights, the preflights whose runs passed every
      check, the children that were started for them, and every grant ever issued. */
  datatype System = System(
    vault: Vault, profiles: map<string, Profile>, grants: Grants, preflights: map<string, Preflight>,
    passed: seq<Preflight>, children: seq<Child>, issued: Grants)

  datatype Step =
    | IssueGrant(slot: string, project: string, profile: string, present: string -> bool, id: string, now: real)
    | PlanCommand(root: Root, profile: string, rendered: Option<seq<string>>, project: string, ids: seq<string>, id: string, now: real)
    | RunCommand(root: Root, id: string, reader: Reader, now: real, later: real, starts: bool)
    | InvalidateAll

  /** A popped preflight whose run passed its checks: grants are spent, then a child starts or not. */
  function Launched(sys: System, p: Preflight, injection: Injection, now: real, later: real, starts: bool): System {
    sys.(grants := Consumed(sys.grants, p.grants, later), passed := sys.passed + [p],
         children := if starts then sys.children + [Child(p, injection, now)] else sys.children)
  }

  /** What the child of a preflight gets, or why the run is refused. */
  function Decided(sys: System, p: Preflight, root: Root, reader: Reader, now: real): (r: Result<Injection, Error>) {
    Outcome(sys.profiles, Some(Slots(sys.vault, sys.grants)), p, root, reader, now)
  }

  function Ran(sys: System, p: Preflight, root: Root, reader: Reader, now: real, later: real, starts: bool): System {
    var popped := sys.(preflights := sys.preflights - {p.id});
    var outcome := Decided(sys, p, root, reader, now);
    if outcome.Err? then popped else Launched(popped, p, outcome.value, now, later, starts)
  }

  function Issued(sys: System, g: Grant): System {
    sys.(grants := sys.grants[g.id := g], issued := sys.issued[g.id := g])
  }

  function Apply(sys: System, step: Step): (r: System) {
    match step
    case IssueGrant(slot, project, profile, present, id, now) =>
      if Access(sys.vault, slot, project, profile, present).Some? then sys
      else
        Issued(sys, NewGrant(sys.vault, id, slot, project, profile, now))
    case PlanCommand(root, profile, rendered, project, ids, id, now) =>
      var p := Planned(sys.profiles, Some(Slots(sys.vault, sys.grants)), root, profile, rendered, project, ids, id, now);
      if p.Err? then sys else sys.(preflights := sys.preflights[id := p.value])
    case RunCommand(root, id, reader, now, later, starts) =>
      if id !in sys.preflights then sys else Ran(sys, sys.preflights[id], root, reader, now, later, starts)
    case InvalidateAll => sys.(grants := map[])
  }

  function Run(vault: Vault, profiles: map<string, Profile>, steps: seq<Step>): (sys: System) {
    if steps == [] then System(vault, profiles, map[], map[], [], [], map[])
    else Apply(Run(vault, profiles, steps[..|steps| - 1]), steps[|steps| - 1])
  }

  /** Random grant ids are new. */
  ghost predicate FreshIds(vault: Vault, profiles: map<string, Profile>, steps: seq<Step>) {
    steps == [] ||
    var n := |steps| - 1;
    && FreshIds(vault, profiles, steps[..n])
    && (steps[n].IssueGrant? ==> steps[n].id !in Run(vault, profiles, steps[..n]).issued)
  }

  // ---------------------------------------------------------------- invariants

  /** Held grants are issued grants, changed at most by being spent. */
  ghost predicate GrantsIssued(grants: Grants, issued: Grants) {
    forall k :: k in grants ==> k in issued && grants[k].(consumedAt := None) == issued[k]
  }

  /** What a planned command may get: grants once issued, of slots its profile allows. */
  ghost predicate Bound(p: Preflight, profiles: map<string, Profile>, issued: Grants) {
    && p.profile in profiles
    && forall i :: 0 <= i < |p.grants| ==> p.grants[i] in issued && issued[p.grants[i]].slot in profiles[p.profile].slots
  }

  /** What a child got: its own grants, in time, of its project and profile, each once; exactly
      their slots; and all of them spent. */
  ghost predicate Proper(c: Child, grants: Grants, issued: Grants) {
    && NoDuplicates(c.preflight.grants)
    && (forall i :: 0 <= i < |c.preflight.grants| ==> Scoped(c.preflight.grants[i], c, grants, issued))
    && (forall s :: s in c.injection.env ==> exists i :: 0 <= i < |c.preflight.grants| && HasSlot(c.preflight.grants[i], s, issued))
    && (forall i, s :: 0 <= i < |c.preflight.grants| && HasSlot(c.preflight.grants[i], s, issued) ==> s in c.injection.env)
  }

  ghost predicate HasSlot(g: string, s: string, issued: Grants) {
    g in issued && issued[g].slot == s
  }

  ghost predicate Scoped(g: string, c: Child, grants: Grants, issued: Grants) {
    && g in issued && issued[g].project == c.preflight.project && issued[g].profile == c.preflight.profile
    && c.at <= issued[g].expiresAt && (g in grants ==> grants[g].consumedAt.Some?)
  }

  ghost predicate Apart(a: Child, b: Child) {
    forall g :: g in a.preflight.grants ==> g !in b.preflight.grants
  }

  ghost predicate AllApart(children: seq<Child>) {
    forall i, j :: 0 <= i < j < |children| ==> Apart(children[i], children[j])
  }

  ghost predicate Inv(sys: System) {
    && GrantsIssued(sys.grants, sys.issued)
    && (forall k :: k in sys.preflights ==> sys.preflights[k].id == k && Bound(sys.preflights[k], sys.profiles, sys.issued))
    && (forall i :: 0 <= i < |sys.children| ==> Proper(sys.children[i], sys.grants, sys.issued))
    && (forall i :: 0 <= i < |sys.children| ==> Bound(sys.children[i].preflight, sys.profiles, sys.issued))
    && AllApart(sys.children)
  }

  lemma ProperKept(c: Child, grants: Grants, issued: Grants, grants': Grants, issued': Grants)
    requires Proper(c, grants, issued)
    requires forall k :: k in issued ==> k in issued' && issued'[k] == issued[k]
    requires forall k :: k in grants' && k in issued ==> k in grants && (grants[k].consumedAt.Some? ==> grants'[k].consumedAt.Some?)
    ensures Proper(c, grants', issued')
  {
    assert forall i :: 0 <= i < |c.preflight.grants| ==> Scoped(c.preflight.grants[i], c, grants, issued);
    forall s | s in c.injection.env
      ensures exists i :: 0 <= i < |c.preflight.grants| && HasSlot(c.preflight.grants[i], s, issued')
    {
      var i :| 0 <= i < |c.preflight.grants| && HasSlot(c.preflight.grants[i], s, issued);
      assert HasSlot(c.preflight.grants[i], s, issued');
    }
    forall i, s | 0 <= i < |c.preflight.grants| && HasSlot(c.preflight.grants[i], s, issued')
      ensures s in c.injection.env
    {
      assert HasSlot(c.preflight.grants[i], s, issued);
    }
  }

  lemma IssueKeeps(sys: System, g: Grant)
    requires Inv(sys) && g.id !in sys.issued && g.consumedAt == None
    ensures Inv(Issued(sys, g))
  {
    var grants, issued := sys.grants[g.id := g], sys.issued[g.id := g];
    forall i | 0 <= i < |sys.children| ensures Proper(sys.children[i], grants, issued) {
      ProperKept(sys.children[i], sys.grants, sys.issued, grants, issued);
    }
  }

  lemma PlanBound(sys: System, root: Root, profile: string, rendered: Option<seq<string>>, project: string,
                  ids: seq<string>, id: string, now: real)
    requires GrantsIssued(sys.grants, sys.issued)
    requires Planned(sys.profiles, Some(Slots(sys.vault, sys.grants)), root, profile, rendered, project, ids, id, now).Ok?
    ensures var p := Planned(sys.profiles, Some(Slots(sys.vault, sys.grants)), root, profile, rendered, project, ids, id, now).value;
            p.id == id && Bound(p, sys.profiles, sys.issued)
  {
    if ids != [] {
      SlotsExact(sys.grants, ids, project, profile, now);
      var slots := Validated(sys.grants, ids, project, profile, now).value;
      forall i | 0 <= i < |ids| ensures ids[i] in sys.issued && sys.issued[ids[i]].slot in sys.profiles[profile].slots {
        assert slots[i] in sys.profiles[profile].slots;
      }
    }
  }

  lemma MakeProper(c: Child, slots: seq<string>, grants: Grants, issued: Grants)
    requires NoDuplicates(c.preflight.grants) && |slots| == |c.preflight.grants|
    requires forall i :: 0 <= i < |slots| ==> Scoped(c.preflight.grants[i], c, grants, issued)
    requires forall i :: 0 <= i < |slots| ==> HasSlot(c.preflight.grants[i], slots[i], issued)
    requires forall s :: s in c.injection.env <==> s in slots
    ensures Proper(c, grants, issued)
  {
    forall s | s in c.injection.env
      ensures exists i :: 0 <= i < |c.preflight.grants| && HasSlot(c.preflight.grants[i], s, issued)
    {
      var i :| 0 <= i < |slots| && slots[i] == s;
      assert HasSlot(c.preflight.grants[i], s, issued);
    }
    forall i, s | 0 <= i < |slots| && HasSlot(c.preflight.grants[i], s, issued) ensures s in c.injection.env {
      assert HasSlot(c.preflight.grants[i], slots[i], issued) && slots[i] in slots;
    }
  }

  lemma GrantScoped(sys: System, c: Child, g: string, slot: string, later: real)
    requires GrantsIssued(sys.grants, sys.issued) && g in c.preflight.grants
    requires GrantProblem(sys.grants, g, c.preflight.project, c.preflight.profile, c.at) == None && slot == sys.grants[g].slot
    ensures Scoped(g, c, Consumed(sys.grants, c.preflight.grants, later), sys.issued) && HasSlot(g, slot, sys.issued)
  {
    assert sys.grants[g].(consumedAt := None) == sys.issued[g];
  }

  /** A run that goes through started from unspent grants in scope, and its child gets their slots. */
  lemma InjectedProper(sys: System, p: Preflight, reader: Reader, now: real, later: real, injection: Injection)
    requires GrantsIssued(sys.grants, sys.issued)
    requires Injected(sys.vault, sys.grants, p.grants, p.project, p.profile, reader, now) == Ok(injection)
    ensures Proper(Child(p, injection, now), Consumed(sys.grants, p.grants, later), sys.issued)
    ensures forall g :: g in p.grants ==> g in sys.grants && sys.grants[g].consumedAt.None?
  {
    var ids, c := p.grants, Child(p, injection, now);
    var slots := Validated(sys.grants, ids, p.project, p.profile, now).value;
    SlotsExact(sys.grants, ids, p.project, p.profile, now);
    ValidatedDistinct(sys.grants, ids, p.project, p.profile, now);
    ResolvedExact(sys.vault, slots, reader, injection);
    forall i | 0 <= i < |ids|
      ensures Scoped(ids[i], c, Consumed(sys.grants, ids, later), sys.issued) && HasSlot(ids[i], slots[i], sys.issued)
    {
      GrantScoped(sys, c, ids[i], slots[i], later);
    }
    MakeProper(c, slots, Consumed(sys.grants, ids, later), sys.issued);
  }

  lemma LaunchApart(sys: System, c: Child)
    requires Inv(sys)
    requires forall g :: g in c.preflight.grants ==> g in sys.grants && sys.grants[g].consumedAt.None?
    ensures AllApart(sys.children + [c])
  {
    forall i | 0 <= i < |sys.children| ensures Apart(sys.children[i], c) {
      var older := sys.children[i];
      forall g | g in older.preflight.grants ensures g !in c.preflight.grants {
        var k :| 0 <= k < |older.preflight.grants| && older.preflight.grants[k] == g;
        assert Scoped(older.preflight.grants[k], older, sys.grants, sys.issued);
      }
    }
  }

  lemma LaunchKeeps(sys: System, p: Preflight, injection: Injection, now: real, later: real, starts: bool)
    requires Inv(sys) && Bound(p, sys.profiles, sys.issued)
    requires Proper(Child(p, injection, now), Consumed(sys.grants, p.grants, later), sys.issued)
    requires forall g :: g in p.grants ==> g in sys.grants && sys.grants[g].consumedAt.None?
    ensures Inv(Launched(sys, p, injection, now, later, starts))
  {
    var grants := Consumed(sys.grants, p.grants, later);
    forall i | 0 <= i < |sys.children| ensures Proper(sys.children[i], grants, sys.issued) {
      ProperKept(sys.children[i], sys.grants, sys.issued, grants, sys.issued);
    }
    LaunchApart(sys, Child(p, injection, now));
  }

  lemma NothingInjected(p: Preflight, now: real, grants: Grants, issued: Grants)
    requires p.grants == []
    ensures Proper(Child(p, Injection(map[], []), now), grants, issued)
  {
  }

  lemma RanKeeps(sys: System, id: string, root: Root, reader: Reader, now: real, later: real, starts: bool)
    requires Inv(sys) && id in sys.preflights
    ensures Inv(Ran(sys, sys.preflights[id], root, reader, now, later, starts))
  {
    var p := sys.preflights[id];
    var popped := sys.(preflights := sys.preflights - {p.id});
    assert Inv(popped);
    var outcome := Decided(sys, p, root, reader, now);
    if outcome.Ok? {
      if p.grants == [] {
        NothingInjected(p, now, Consumed(sys.grants, p.grants, later), sys.issued);
      } else {
        InjectedProper(sys, p, reader, now, later, outcome.value);
      }
      LaunchKeeps(popped, p, outcome.value, now, later, starts);
    }
  }

  lemma InvalidateKeeps(sys: System)
    requires Inv(sys)
    ensures Inv(sys.(grants := map[]))
  {
    forall i | 0 <= i < |sys.children| ensures Proper(sys.children[i], map[], sys.issued) {
      ProperKept(sys.children[i], sys.grants, sys.issued, map[], sys.issued);
    }
  }

  lemma PlanKeeps(sys: System, root: Root, profile: string, rendered: Option<seq<string>>, project: string,
                  ids: seq<string>, id: string, now: real)
    requires Inv(sys)
    requires Planned(sys.profiles, Some(Slots(sys.vault, sys.grants)), root, profile, rendered, project, ids, id, now).Ok?
    ensures var p := Planned(sys.profiles, Some(Slots(sys.vault, sys.grants)), root, profile, rendered, project, ids, id, now).value;
            Inv(sys.(preflights := sys.preflights[id := p]))
  {
    PlanBound(sys, root, profile, rendered, project, ids, id, now);
  }

  lemma ApplyKeeps(sys: System, step: Step)
    requires Inv(sys) && (step.IssueGrant? ==> step.id !in sys.issued)
    ensures Inv(Apply(sys, step))
  {
    match step
    case IssueGrant(slot, project, profile, present, id, now) =>
      if Access(sys.vault, slot, project, profile, present).None? {
        IssueKeeps(sys, NewGrant(sys.vault, id, slot, project, profile, now));
      }
    case PlanCommand(root, profile, rendered, project, ids, id, now) =>
      if Planned(sys.profiles, Some(Slots(sys.vault, sys.grants)), root, profile, rendered, project, ids, id, now).Ok? {
        PlanKeeps(sys, root, profile, rendered, project, ids, id, now);
      }
    case RunCommand(root, id, reader, now, later, starts) =>
      if id in sys.preflights {
        RanKeeps(sys, id, root, reader, now, later, starts);
      }
    case InvalidateAll =>
      InvalidateKeeps(sys);
  }

  lemma {:induction false} RunInv(vault: Vault, profiles: map<string, Profile>, steps: seq<Step>)
    requires FreshIds(vault, profiles, steps)
    ensures Inv(Run(vault, profiles, steps)) && Run(vault, profiles, steps).profiles == profiles
  {
    if steps != [] {
      var n := |steps| - 1;
      RunInv(vault, profiles, steps[..n]);
      ApplyKeeps(Run(vault, profiles, steps[..n]), steps[n]);
    }
  }

  // ---------------------------------------------------------------- theorems

  /** In every run, a credential grant is injected into at most one child, and only once into it. */
  lemma GrantInjectedOnce(vault: Vault, profiles: map<string, Profile>, steps: seq<Step>, i: nat, j: nat, k: nat, m: nat)
    requires FreshIds(vault, profiles, steps)
    requires var children := Run(vault, profiles, steps).children;
             && i < |children| && j < |children|
             && k < |children[i].preflight.grants| && m < |children[j].preflight.grants|
             && children[i].preflight.grants[k] == children[j].preflight.grants[m]
    ensures i == j && k == m
  {
    RunInv(vault, profiles, steps);
    var children := Run(vault, profiles, steps).children;
    var g := children[i].preflight.grants[k];
    assert g in children[i].preflight.grants && g in children[j].preflight.grants;
    assert i < j ==> Apart(children[i], children[j]);
    assert j < i ==> Apart(children[j], children[i]);
  }

  /** In every run, a child gets only grants of its own project and profile, in time, of slots
      its profile allows, and its injected environment is exactly their slots. */
  lemma ChildrenProper(vault: Vault, profiles: map<string, Profile>, steps: seq<Step>, i: nat)
    requires FreshIds(vault, profiles, steps) && i < |Run(vault, profiles, steps).children|
    ensures var sys := Run(vault, profiles, steps);
            Proper(sys.children[i], sys.grants, sys.issued) && Bound(sys.children[i].preflight, profiles, sys.issued)
  {
    RunInv(vault, profiles, steps);
  }

  // ---------------------------------------------------------------- spending

  /** Grants that a run past its checks finds are held and unspent. */
  lemma DecidedUnspent(sys: System, p: Preflight, root: Root, reader: Reader, now: real)
    requires Decided(sys, p, root, reader, now).Ok?
    ensures forall g :: g in p.grants ==> g in sys.grants && sys.grants[g].consumedAt.None?
  {
    if p.grants != [] {
      SlotsExact(sys.grants, p.grants, p.project, p.profile, now);
      forall g | g in p.grants ensures g in sys.grants && sys.grants[g].consumedAt.None? {
        var i :| 0 <= i < |p.grants| && p.grants[i] == g;
        assert GrantProblem(sys.grants, p.grants[i], p.project, p.profile, now) == None;
      }
    }
  }

  /** A run leaves every grant as it was if and only if it is refused by a check before its process
      is started; whether the process then starts decides only whether there is a child. */
  lemma RunSpendsExactly(sys: System, root: Root, id: string, reader: Reader, now: real, later: real, starts: bool)
    requires id in sys.preflights && sys.preflights[id].grants != []
    ensures var p := sys.preflights[id];
            var next := Apply(sys, RunCommand(root, id, reader, now, later, starts));
            && (next.grants == sys.grants <==> Decided(sys, p, root, reader, now).Err?)
            && (next.children != sys.children <==> Decided(sys, p, root, reader, now).Ok? && starts)
  {
    var p := sys.preflights[id];
    if Decided(sys, p, root, reader, now).Ok? {
      DecidedUnspent(sys, p, root, reader, now);
      assert p.grants[0] in p.grants;
      assert Consumed(sys.grants, p.grants, later)[p.grants[0]].consumedAt.Some?;
    }
  }

  /** A run that is refused by a check starts no child and spends no grant, whatever its reason. */
  lemma RefusedSpendsNothing(sys: System, root: Root, id: string, reader: Reader, now: real, later: real, starts: bool)
    requires id in sys.preflights ==> Decided(sys, sys.preflights[id], root, reader, now).Err?
    ensures var next := Apply(sys, RunCommand(root, id, reader, now, later, starts));
            next.grants == sys.grants && next.children == sys.children
  {
  }

  ghost predicate Named(passed: seq<Preflight>, g: string) {
    exists i :: 0 <= i < |passed| && g in passed[i].grants
  }

  ghost predicate SpentByPassed(sys: System) {
    && (forall g :: Named(sys.passed, g) ==> g in sys.issued)
    && (forall g :: g in sys.grants ==> g in sys.issued && (sys.grants[g].consumedAt.Some? <==> Named(sys.passed, g)))
  }

  lemma NamedNext(passed: seq<Preflight>, p: Preflight, g: string)
    ensures Named(passed + [p], g) <==> Named(passed, g) || g in p.grants
  {
    var all := passed + [p];
    assert all[|passed|] == p;
    if Named(passed, g) {
      var i :| 0 <= i < |passed| && g in passed[i].grants;
      assert all[i] == passed[i];
    }
  }

  lemma RanSpends(sys: System, p: Preflight, root: Root, reader: Reader, now: real, later: real, starts: bool)
    requires SpentByPassed(sys)
    ensures SpentByPassed(Ran(sys, p, root, reader, now, later, starts))
  {
    if Decided(sys, p, root, reader, now).Ok? {
      DecidedUnspent(sys, p, root, reader, now);
      forall g ensures Named(sys.passed + [p], g) <==> Named(sys.passed, g) || g in p.grants {
        NamedNext(sys.passed, p, g);
      }
    }
  }

  /** In every run a held grant is spent if and only if a run of a preflight naming it passed its
      checks, whether or not its child started; a spent grant came from no other cause. */
  lemma {:induction false} SpentExactly(vault: Vault, profiles: map<string, Profile>, steps: seq<Step>)
    requires FreshIds(vault, profiles, steps)
    ensures SpentByPassed(Run(vault, profiles, steps))
  {
    if steps != [] {
      var n := |steps| - 1;
      var sys, step := Run(vault, profiles, steps[..n]), steps[n];
      SpentExactly(vault, profiles, steps[..n]);
      if step.RunCommand? && step.id in sys.preflights {
        RanSpends(sys, sys.preflights[step.id], step.root, step.reader, step.now, step.later, step.starts);
      }
    }
  }

  /** A process that fails to start costs its grants: each was unspent, is spent, and no child exists. */
  lemma FailedStartSpends(sys: System, root: Root, id: string, reader: Reader, now: real, later: real)
    requires id in sys.preflights && Decided(sys, sys.preflights[id], root, reader, now).Ok?
    ensures var next := Apply(sys, RunCommand(root, id, reader, now, later, false));
            && next.children == sys.children
            && forall g :: g in sys.preflights[id].grants ==>
                 && g in sys.grants && sys.grants[g].consumedAt.None?
                 && g in next.grants && next.grants[g].consumedAt == Some(later)
  {
    DecidedUnspent(sys, sys.preflights[id], root, reader, now);
  }

  /** One grant, one preflight naming it, one run of a program that cannot be started. */
  function FailingRun(slot: string, project: string, profile: string, present: string -> bool, g: string,
                      root: Root, argv: seq<string>, id: string, reader: Reader, now: real): seq<Step>
  {
    [IssueGrant(slot, project, profile, present, g, now),
     PlanCommand(root, profile, Some(argv), project, [g], id, now),
     RunCommand(root, id, reader, now, now, false)]
  }

  /** The loss is reached from the empty manager, for every slot that is open to a profile. */
  lemma FailedStartReached(vault: Vault, profiles: map<string, Profile>, slot: string, project: string, profile: string,
                           present: string -> bool, g: string, root: Root, argv: seq<string>, id: string, reader: Reader, now: real)
    requires Access(vault, slot, project, profile, present).None? && SlotMaterial(vault, slot, reader).Ok?
    requires profile in profiles && slot in profiles[profile].slots && root.Directory? && vault.ttl >= 0.0
    ensures var steps := FailingRun(slot, project, profile, present, g, root, argv, id, reader, now);
            var sys := Run(vault, profiles, steps);
            && FreshIds(vault, profiles, steps)
            && sys.children == [] && g in sys.grants && sys.grants[g].consumedAt == Some(now)
  {
    var steps := FailingRun(slot, project, profile, present, g, root, argv, id, reader, now);
    var grant := NewGrant(vault, g, slot, project, profile, now);
    var p := Preflight(id, project, profile, profiles[profile].definitionHash, root, argv, [g]);
    var none := System(vault, profiles, map[], map[], [], [], map[]);
    assert steps[..0] == [] && steps[..3] == steps;
    RunNext(vault, profiles, steps, 0);
    RunNext(vault, profiles, steps, 1);
    RunNext(vault, profiles, steps, 2);
    var one := Issued(none, grant);
    assert Run(vault, profiles, steps[..1]) == Apply(none, steps[0]) == one;
    OneGrantPlanned(one, p, slot, g, now);
    var two := one.(preflights := map[id := p]);
    assert Run(vault, profiles, steps[..2]) == Apply(one, steps[1]) == two;
    OneGrantDecided(two, p, slot, g, reader, now);
    FailedStartSpends(two, root, id, reader, now, now);
  }

  lemma RunNext(vault: Vault, profiles: map<string, Profile>, steps: seq<Step>, k: nat)
    requires k < |steps|
    ensures Run(vault, profiles, steps[..k + 1]) == Apply(Run(vault, profiles, steps[..k]), steps[k])
    ensures FreshIds(vault, profiles, steps[..k + 1])
            <==> && FreshIds(vault, profiles, steps[..k])
                 && (steps[k].IssueGrant? ==> steps[k].id !in Run(vault, profiles, steps[..k]).issued)
  {
    assert steps[..k + 1][..k] == steps[..k];
  }

  lemma OneGrantPlanned(sys: System, p: Preflight, slot: string, g: string, now: real)
    requires p.profile in sys.profiles && slot in sys.profiles[p.profile].slots && p.root.Directory?
    requires p.profileHash == sys.profiles[p.profile].definitionHash && p.grants == [g]
    requires g in sys.grants && GrantProblem(sys.grants, g, p.project, p.profile, now) == None && sys.grants[g].slot == slot
    ensures Planned(sys.profiles, Some(Slots(sys.vault, sys.grants)), p.root, p.profile, Some(p.argv), p.project, [g], p.id, now) == Ok(p)
  {
    OneSlot(sys.grants, g, slot, p.project, p.profile, now);
  }

  lemma OneGrantDecided(sys: System, p: Preflight, slot: string, g: string, reader: Reader, now: real)
    requires p.profile in sys.profiles && p.root.Directory? && SlotMaterial(sys.vault, slot, reader).Ok?
    requires p.profileHash == sys.profiles[p.profile].definitionHash && p.grants == [g]
    requires g in sys.grants && GrantProblem(sys.grants, g, p.project, p.profile, now) == None && sys.grants[g].slot == slot
    ensures Decided(sys, p, p.root, reader, now).Ok?
  {
    OneSlot(sys.grants, g, slot, p.project, p.profile, now);
    var slots := [slot];
    assert slots[..0] == [] && slots[..1] == slots;
    ResolvedNext(sys.vault, slots, 0, reader, Injection(map[], []));
  }

  lemma OneSlot(grants: Grants, g: string, slot: string, project: string, profile: string, now: real)
    requires g in grants && GrantProblem(grants, g, project, profile, now) == None && grants[g].slot == slot
    ensures Validated(grants, [g], project, profile, now) == Ok([slot])
  {
    var ids := [g];
    assert ids[..0] == [] && ids[..1] == ids && [] + [slot] == [slot];
    SlotsNext(grants, ids, 0, project, profile, now, []);
  }
}

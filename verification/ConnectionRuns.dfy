/** Every sequence of dispatches and closes: which markers stay refused, and how sessions are numbered. */
module ConnectionRuns {
  import opened Wrappers
  import opened Largest
  import opened Connections

  datatype Step = Dispatch(request: Request, world: World) | Close

  /** A request that reached a session, with the markers retired until then. */
  datatype Event = Event(marker: Option<string>, number: nat, retiredBefore: set<string>)

  /** The manager, all markers ever retired, the numbers of the sessions installed, and the dispatches. */
  datatype System = System(manager: Manager, ever: set<string>, installed: seq<nat>, log: seq<Event>)

  /** The number of a session that a call installed. */
  function NewNumber(before: Manager, after: Manager): (r: seq<nat>) {
    if after.current.Some? && (before.current.None? || before.current.value.number != after.current.value.number)
    then [after.current.value.number] else []
  }

  function Apply(sys: System, step: Step): (r: System) {
    match step
    case Close => sys.(manager := sys.manager.(current := None))
    case Dispatch(request, world) =>
      var (next, reply) := Dispatched(sys.manager, request, world);
      var retires := Retires(sys.manager, request, world);
      System(next,
             if retires.Some? then sys.ever + {retires.value} else sys.ever,
             sys.installed + NewNumber(sys.manager, next),
             if reply == Selected && next.current.Some?
             then sys.log + [Event(request.marker, next.current.value.number, sys.ever)] else sys.log)
  }

  function Start(initial: bool): System {
    System(Manager(None, {}, 0, initial), {}, [], [])
  }

  function Run(initial: bool, steps: seq<Step>): (sys: System) {
    if steps == [] then Start(initial) else Apply(Run(initial, steps[..|steps| - 1]), steps[|steps| - 1])
  }

  // ---------------------------------------------------------------- retired markers

  /** At every point of every run the retired markers are exactly the 32 largest of all that
      were ever retired. */
  lemma {:induction false} RetiredAreLargest(initial: bool, steps: seq<Step>)
    ensures var sys := Run(initial, steps);
            sys.manager.retired == Top(MAX_RETIRED, sys.ever) && |sys.manager.retired| <= MAX_RETIRED
  {
    if steps == [] {
      TopWhole(MAX_RETIRED, {});
    } else {
      var before, step := Run(initial, steps[..|steps| - 1]), steps[|steps| - 1];
      RetiredAreLargest(initial, steps[..|steps| - 1]);
      StepRetires(before, step);
    }
    TopSize(MAX_RETIRED, Run(initial, steps).ever);
  }

  lemma StepRetires(sys: System, step: Step)
    requires sys.manager.retired == Top(MAX_RETIRED, sys.ever)
    ensures Apply(sys, step).manager.retired == Top(MAX_RETIRED, Apply(sys, step).ever)
  {
    if step.Dispatch? {
      DispatchedRetired(sys.manager, step.request, step.world);
      var retires := Retires(sys.manager, step.request, step.world);
      if retires.Some? {
        TrimmedTop(sys.manager.retired + {retires.value});
        TopAdd(MAX_RETIRED, sys.ever, retires.value);
      }
    }
  }

  /** The dispatched request carried no marker that was then among the retired. */
  ghost predicate Admissible(e: Event) {
    e.marker.Some? ==> e.marker.value !in Top(MAX_RETIRED, e.retiredBefore)
  }

  lemma DispatchAdmissible(sys: System, request: Request, world: World)
    requires sys.manager.retired == Top(MAX_RETIRED, sys.ever)
    requires Dispatched(sys.manager, request, world).1 == Selected
    ensures request.marker.Some? ==> request.marker.value !in Top(MAX_RETIRED, sys.ever)
  {
  }

  /** In every run each dispatched request is admissible, and what was retired before it stays
      among what was ever retired. */
  lemma {:induction false} DispatchesAdmissible(initial: bool, steps: seq<Step>, i: nat)
    requires i < |Run(initial, steps).log|
    ensures Admissible(Run(initial, steps).log[i]) && Run(initial, steps).log[i].retiredBefore <= Run(initial, steps).ever
    decreases |steps|
  {
    var before, step := Run(initial, steps[..|steps| - 1]), steps[|steps| - 1];
    if i < |before.log| {
      DispatchesAdmissible(initial, steps[..|steps| - 1], i);
    } else {
      RetiredAreLargest(initial, steps[..|steps| - 1]);
      DispatchAdmissible(before, step.request, step.world);
    }
  }

  /** In every run that retires at most 32 distinct markers, a request carrying a marker retired
      before it is never dispatched, whatever resets or session builds failed in between. */
  lemma RetiredNeverDispatched(initial: bool, steps: seq<Step>, i: nat)
    requires |Run(initial, steps).ever| <= MAX_RETIRED && i < |Run(initial, steps).log|
    ensures var e := Run(initial, steps).log[i];
            e.marker.Some? ==> e.marker.value !in e.retiredBefore
  {
    DispatchesAdmissible(initial, steps, i);
    var e := Run(initial, steps).log[i];
    SubsetSize(e.retiredBefore, Run(initial, steps).ever);
    TopWhole(MAX_RETIRED, e.retiredBefore);
  }

  /** When nothing else stands in the way, an initialize request reaches a session exactly when
      its marker is not one of the 32 largest markers retired so far. */
  lemma InitializeReachesExactly(initial: bool, steps: seq<Step>, request: Request, world: World)
    requires request.kind == Initialize && request.marker.Some?
    requires world.block == None && !world.resetFails && world.build == Built
    ensures Dispatched(Run(initial, steps).manager, request, world).1 == Selected
            <==> request.marker.value !in Top(MAX_RETIRED, Run(initial, steps).ever)
  {
    RetiredAreLargest(initial, steps);
  }

  // ---------------------------------------------------------------- numbering

  ghost predicate Increasing(numbers: seq<nat>) {
    forall i, j :: 0 <= i < j < |numbers| ==> numbers[i] < numbers[j]
  }

  ghost predicate Numbered(sys: System) {
    && Increasing(sys.installed)
    && (forall i :: 0 <= i < |sys.installed| ==> sys.installed[i] <= sys.manager.sequence)
    && (sys.manager.current.Some? ==> sys.manager.current.value.number <= sys.manager.sequence)
  }

  /** A call counts at most once, and a session it installs has the new count. */
  lemma DispatchNumbers(m: Manager, request: Request, world: World)
    requires m.current.Some? ==> m.current.value.number <= m.sequence
    ensures var next := Dispatched(m, request, world).0;
            && m.sequence <= next.sequence <= m.sequence + 1
            && (next.current.Some? ==> next.current.value.number <= next.sequence)
            && (NewNumber(m, next) == [] || (NewNumber(m, next) == [next.sequence] && next.sequence == m.sequence + 1))
  {
  }

  lemma InstalledGrows(numbers: seq<nat>, sequence: nat, next: seq<nat>)
    requires Increasing(numbers) && forall i :: 0 <= i < |numbers| ==> numbers[i] <= sequence
    requires next == numbers + [sequence + 1]
    ensures Increasing(next) && forall i :: 0 <= i < |next| ==> next[i] <= sequence + 1
  {
  }

  /** In every run, the numbers of the sessions installed strictly increase. */
  lemma {:induction false} NumbersIncrease(initial: bool, steps: seq<Step>)
    ensures Numbered(Run(initial, steps))
  {
    if steps != [] {
      var before, step := Run(initial, steps[..|steps| - 1]), steps[|steps| - 1];
      NumbersIncrease(initial, steps[..|steps| - 1]);
      if step.Dispatch? {
        DispatchNumbers(before.manager, step.request, step.world);
        var next := Dispatched(before.manager, step.request, step.world).0;
        if NewNumber(before.manager, next) != [] {
          InstalledGrows(before.installed, before.manager.sequence, Apply(before, step).installed);
        }
      }
    }
  }
}

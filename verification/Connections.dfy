/** Logical connections over one process runtime: rotation, retired markers, and what is dispatched. */
module Connections {
  import opened Wrappers
  import opened Sorting
  import opened Largest

  const MAX_RETIRED := 32

  datatype Phase = New | Initializing | Ready | Closing | Closed

  /** A logical session: its connection number, and its protocol state. */
  datatype Session = Session(number: nat, marker: Option<string>, phase: Phase, operationStarted: bool)

  datatype Manager = Manager(current: Option<Session>, retired: set<string>, sequence: nat, initial: bool)

  datatype Method = Initialize | Discover | OtherMethod

  datatype Request = Request(marker: Option<string>, kind: Method)

  /** How far building a session gets: without a runtime, counted but not installed, installed
      but not reported, or all the way. */
  datatype Build = Built | NoRuntime | NotInstalled | NotReported

  datatype Block = OutcomeUnknown | RequestInProgress

  /** What the rest of the process answers during one call: the registry's objection to a
      replacement, whether the protocol reset raises, how building a session ends, and the
      protocol state that dispatching leaves. */
  datatype World = World(block: Option<Block>, resetFails: bool, build: Build, phase: Phase, started: bool)

  datatype Reply = Selected | Stale | Blocked(block: Block) | ResetFailed | BuildFailed | Raised

  /** `_new_session_locked`; `given` says that the caller passes its runtime on. */
  function Opened(m: Manager, marker: Option<string>, given: bool, build: Build): (r: (Manager, bool)) {
    if !given && !m.initial && build == NoRuntime then (m, false)
    else
      var counted := m.(sequence := m.sequence + 1, initial := given && m.initial);
      var session := Session(counted.sequence, marker, New, false);
      if build == NotInstalled then (counted, false)
      else (counted.(current := Some(session)), build != NotReported)
  }

  /** The retired markers after a rotation away from `old` towards `marker`. */
  function Retired(retired: set<string>, left: Option<string>, marker: Option<string>): (r: set<string>) {
    var added := if left.Some? && left != marker then Trimmed(retired + {left.value}) else retired;
    if marker.Some? then added - {marker.value} else added
  }

  function Trimmed(s: set<string>): (r: set<string>) {
    if |s| > MAX_RETIRED then Top(MAX_RETIRED, s) else s
  }

  /** `_rotate_locked` on the current session. */
  function Rotated(m: Manager, marker: Option<string>, world: World): (r: (Manager, Reply))
    requires m.current.Some?
  {
    if world.block.Some? then (m, Blocked(world.block.value))
    else
      var closed := m.(retired := Retired(m.retired, m.current.value.marker, marker), current := None);
      if world.resetFails then (closed, ResetFailed)
      else
        var (next, ok) := Opened(closed, marker, true, world.build);
        (next, if ok then Selected else BuildFailed)
  }

  /** Whether a request is answered stale in a session, or calls for another one. */
  datatype Choice = Keep | Refuse | Replace

  function Chosen(s: Session, retired: set<string>, request: Request): (r: Choice) {
    if request.marker.Some? && request.marker.value in retired then Refuse
    else if s.marker.Some? && request.marker.Some? && request.marker != s.marker then
      if request.kind == OtherMethod then Refuse else Replace
    else if request.kind == Discover && s.phase == Ready then Replace
    else if request.kind == Initialize && s.phase == Ready && s.operationStarted then Replace
    else Keep
  }

  function Acted(m: Manager, request: Request, world: World): (r: (Manager, Reply))
    requires m.current.Some?
  {
    match Chosen(m.current.value, m.retired, request)
    case Keep => (m, Selected)
    case Refuse => (m, Stale)
    case Replace => Rotated(m, request.marker, world)
  }

  /** `_prepare_locked`: open a session when there is none, then choose. */
  function Prepared(m: Manager, request: Request, world: World): (r: (Manager, Reply)) {
    if m.current.Some? then Acted(m, request, world)
    else
      var (next, ok) := Opened(m, request.marker, false, world.build);
      if ok then Acted(next, request, world) else (next, Raised)
  }

  /** Dispatching binds an unmarked session to the request's marker. */
  function Touched(s: Session, request: Request, world: World): (r: Session) {
    s.(marker := if s.marker.None? then request.marker else s.marker, phase := world.phase, operationStarted := world.started)
  }

  /** `dispatch`. */
  function Dispatched(m: Manager, request: Request, world: World): (r: (Manager, Reply)) {
    var (prepared, reply) := Prepared(m, request, world);
    if reply != Selected || prepared.current.None? then (prepared, reply)
    else (prepared.(current := Some(Touched(prepared.current.value, request, world))), Selected)
  }

  // ---------------------------------------------------------------- facts about one call

  lemma TrimmedTop(s: set<string>)
    ensures Trimmed(s) == Top(MAX_RETIRED, s)
  {
    if |s| <= MAX_RETIRED {
      TopWhole(MAX_RETIRED, s);
    }
  }

  /** A request that is dispatched has a session to go to. */
  lemma SelectedHasSession(m: Manager, request: Request, world: World)
    requires Prepared(m, request, world).1 == Selected
    ensures Prepared(m, request, world).0.current.Some?
  {
  }

  /** Session and request carry different markers. */
  ghost predicate Differ(s: Session, request: Request) {
    s.marker.Some? && request.marker.Some? && s.marker.value != request.marker.value
  }

  /** When a request is answered stale: its marker was retired, or it is a plain request with
      another marker than the session's. When it replaces the session: an initialize or discover with
      another marker, a discover in a ready session, or an initialize after an operation there. */
  lemma ChosenExactly(s: Session, retired: set<string>, request: Request)
    ensures var gone := request.marker.Some? && request.marker.value in retired;
            var choice := Chosen(s, retired, request);
            && (choice == Refuse <==> gone || (Differ(s, request) && request.kind != Initialize && request.kind != Discover))
            && (choice == Replace <==>
                  !gone && (|| (Differ(s, request) && request.kind in {Initialize, Discover})
                           || (s.phase == Ready && request.kind == Discover)
                           || (s.phase == Ready && request.kind == Initialize && s.operationStarted)))
  {
  }

  /** A session just opened: the next number, the marker it is opened for, nothing done yet. */
  ghost predicate Fresh(m: Manager, marker: Option<string>, s: Session) {
    s.number == m.sequence + 1 && s.marker == marker && s.phase == New && !s.operationStarted
  }

  /** Opening counts once a runtime is at hand, the caller's, the initial one or a new one, and installs a
      fresh session unless it fails before; only taking the initial runtime uses that up. */
  lemma OpenedExactly(m: Manager, marker: Option<string>, given: bool, build: Build)
    ensures var (next, ok) := Opened(m, marker, given, build);
            var runtime := given || m.initial || build != NoRuntime;
            && next.retired == m.retired && next.sequence == (if runtime then m.sequence + 1 else m.sequence)
            && (next.initial <==> m.initial && given)
            && (if runtime && build != NotInstalled then next.current.Some? && Fresh(m, marker, next.current.value)
                else next.current == m.current)
            && (ok <==> runtime && build != NotInstalled && build != NotReported)
  {
  }

  /** The session that handles a request: the fresh one, the current one, or the one that replaces it;
      dispatching binds an unmarked session to the marker, and leaves the protocol state it is told of. */
  lemma DispatchedSession(m: Manager, request: Request, world: World)
    requires Dispatched(m, request, world).1 == Selected
    ensures var next := Dispatched(m, request, world).0.current;
            && next.Some? && next.value.phase == world.phase && next.value.operationStarted == world.started
            && (m.current == None ==> next.value.number == m.sequence + 1 && next.value.marker == request.marker)
            && (m.current.Some? && Chosen(m.current.value, m.retired, request) == Keep ==>
                  && next.value.number == m.current.value.number
                  && next.value.marker == (if m.current.value.marker.Some? then m.current.value.marker else request.marker))
            && (m.current.Some? && Chosen(m.current.value, m.retired, request) == Replace ==>
                  next.value.number == m.sequence + 1 && next.value.marker == request.marker)
  {
    SelectedHasSession(m, request, world);
  }

  /** How a rotation ends: blocked with nothing changed; or the old session is gone, and a fresh one
      is there exactly if the reset worked and one could be built. */
  lemma RotatedExactly(m: Manager, marker: Option<string>, world: World)
    requires m.current.Some?
    ensures var (next, reply) := Rotated(m, marker, world);
            && (world.block.Some? ==> next == m && reply == Blocked(world.block.value))
            && (world.block == None && world.resetFails ==> next.current == None && reply == ResetFailed)
            && (world.block == None && !world.resetFails ==>
                  && (reply == Selected <==> world.build == Built || world.build == NoRuntime)
                  && (reply != Selected ==> reply == BuildFailed)
                  && (world.build != NotInstalled ==> next.current.Some? && Fresh(m, marker, next.current.value)))
  {
  }

  /** Which marker a call retires: the session's own, when a rotation leaves it behind. */
  function Retires(m: Manager, request: Request, world: World): (r: Option<string>) {
    if m.current.Some? && Chosen(m.current.value, m.retired, request) == Replace && world.block.None?
       && m.current.value.marker != request.marker
    then m.current.value.marker
    else None
  }

  /** The retired markers after a call are trimmed from those before and the one it retires. */
  lemma DispatchedRetired(m: Manager, request: Request, world: World)
    ensures var retires := Retires(m, request, world);
            Dispatched(m, request, world).0.retired
            == if retires.Some? then Trimmed(m.retired + {retires.value}) else m.retired
  {
    if m.current.Some? && Chosen(m.current.value, m.retired, request) == Replace {
      RetiredExact(m.retired, m.current.value.marker, request.marker);
    }
  }

  lemma RetiredExact(retired: set<string>, left: Option<string>, marker: Option<string>)
    requires marker.Some? ==> marker.value !in retired
    ensures Retired(retired, left, marker) == if left.Some? && left != marker then Trimmed(retired + {left.value}) else retired
  {
  }

  /** A retired marker is answered stale, or no session could be opened; nothing is dispatched. */
  lemma RetiredIsRefused(m: Manager, request: Request, world: World)
    requires request.marker.Some? && request.marker.value in m.retired
    ensures Dispatched(m, request, world).1 in {Stale, Raised}
    ensures Dispatched(m, request, world).1 == Raised ==> m.current.None?
  {
  }

  /** The session is bound to another marker than the request's. */
  predicate Foreign(m: Manager, request: Request) {
    m.current.Some? && m.current.value.marker.Some? && m.current.value.marker != request.marker
  }

  /** A marked request is only ever dispatched into a session of its own marker; a session of
      another marker is left alone, except by a rotation that an initialize or discover calls for. */
  lemma DispatchIsolated(m: Manager, request: Request, world: World)
    requires request.marker.Some?
    ensures var (next, reply) := Dispatched(m, request, world);
            && (reply == Selected ==> next.current.Some? && next.current.value.marker == request.marker)
            && (Foreign(m, request) && request.kind == OtherMethod ==> reply == Stale && next == m)
  {
    if Prepared(m, request, world).1 == Selected {
      SelectedHasSession(m, request, world);
    }
  }
}

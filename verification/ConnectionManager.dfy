/** `ConnectionRuntimeManager`: the session, the retired markers and the counter that each call updates. */
module ConnectionManager {
  import opened Wrappers
  import opened Sorting
  import opened Largest
  import opened Connections

  class ConnectionRuntimeManager {
    var current: Option<Session>
    var retired: set<string>
    var sequence: nat
    var initial: bool

    function State(): Manager
      reads this
    {
      Manager(current, retired, sequence, initial)
    }

    constructor (initial: bool)
      ensures State() == Manager(None, {}, 0, initial)
    {
      current, retired, sequence, this.initial := None, {}, 0, initial;
    }

    /** `_new_session_locked`: `ok` is false where the source raises. */
    method NewSession(marker: Option<string>, given: bool, build: Build) returns (ok: bool)
      modifies this
      ensures (State(), ok) == Opened(old(State()), marker, given, build)
    {
      if !given {
        if initial {
          initial := false;
        } else if build == NoRuntime {
          return false;
        }
      }
      sequence := sequence + 1;
      if build == NotInstalled {
        return false;
      }
      current := Some(Session(sequence, marker, New, false));
      return build != NotReported;
    }

    /** Retire the marker left behind, keeping the largest only. */
    method Retire(left: Option<string>, marker: Option<string>)
      modifies this`retired
      ensures retired == Retired(old(retired), left, marker)
    {
      if left.Some? && left != marker {
        retired := retired + {left.value};
        if |retired| > MAX_RETIRED {
          var sorted := SortedSet(retired);
          Members(sorted, retired);
          var last := sorted[|sorted| - MAX_RETIRED..];
          SortedTop(sorted, retired, MAX_RETIRED, last);
          retired := set x | x in last;
        }
      }
      if marker.Some? {
        retired := retired - {marker.value};
      }
    }

    method Rotate(marker: Option<string>, world: World) returns (reply: Reply)
      requires current.Some?
      modifies this
      ensures (State(), reply) == Rotated(old(State()), marker, world)
    {
      if world.block.Some? {
        return Blocked(world.block.value);
      }
      Retire(current.value.marker, marker);
      current := None;
      if world.resetFails {
        return ResetFailed;
      }
      var ok := NewSession(marker, true, world.build);
      return if ok then Selected else BuildFailed;
    }

    method Prepare(request: Request, world: World) returns (reply: Reply)
      modifies this
      ensures (State(), reply) == Prepared(old(State()), request, world)
    {
      if current.None? {
        var ok := NewSession(request.marker, false, world.build);
        if !ok {
          return Raised;
        }
      }
      var session, marker := current.value, request.marker;
      if marker.Some? && marker.value in retired {
        return Stale;
      }
      if session.marker.Some? && marker.Some? && marker != session.marker {
        if request.kind == OtherMethod {
          return Stale;
        }
        reply := Rotate(marker, world);
        return;
      }
      if request.kind == Discover && session.phase == Ready {
        reply := Rotate(marker, world);
        return;
      }
      if request.kind == Initialize && session.phase == Ready && session.operationStarted {
        reply := Rotate(marker, world);
        return;
      }
      return Selected;
    }

    method Dispatch(request: Request, world: World) returns (reply: Reply)
      modifies this
      ensures (State(), reply) == Dispatched(old(State()), request, world)
      ensures request.marker.Some? && request.marker.value in old(retired) ==> reply in {Stale, Raised}
    {
      ghost var before := State();
      if request.marker.Some? && request.marker.value in retired {
        RetiredIsRefused(State(), request, world);
      }
      reply := Prepare(request, world);
      if reply == Selected {
        SelectedHasSession(before, request, world);
        current := Some(Touched(current.value, request, world));
      }
    }

    method Close()
      modifies this`current
      ensures current == None
    {
      current := None;
    }
  }
}

/**
 * The session runner of pkg/ares/phase/runner.go. Hooks are functions on a context of any type; the
 * runner keeps a record of the hook calls it makes, so that their order can be spoken of.
 */
module Runner {
  import opened Wrappers
  import opened Pipeline

  datatype Call = Entered(phase: nat) | Got(phase: nat) | Exited(phase: nat)

  datatype Session<C> = Session(state: string, current: Option<nat>, entered: bool, ctx: C, calls: seq<Call>)

  datatype RunError =
    | EmptySessionId | AlreadyActive | NotActive | NoInitialPhase | NotConsumed
    | HookFailed(phase: nat) | CommitFailed(phase: nat) | Unclaimed | HopLimit | Unreachable | NoCurrent

  datatype Outcome = Stayed | Moved | Refused(error: RunError)

  /** A composed pipeline; `commit` runs after each Exit and does nothing on runners without lineage. */
  datatype Machine<!C> = Machine(phases: seq<Phase<C>>, tables: Tables, commit: (nat, C) -> Hook<C>)

  ghost predicate Composed<C>(m: Machine<C>) { WellFormed(m.phases) && TablesOk(m.phases, m.tables) }

  function Record<C>(s: Session<C>, ctx: C, call: Call): Session<C> { s.(ctx := ctx, calls := s.calls + [call]) }

  // ---- one hop ------------------------------------------------------------------------

  /** Leaving the current phase ends at the terminal state, inside the next phase, or in an error. */
  datatype Hop<C> = AtEnd(s: Session<C>) | Inside(s: Session<C>) | Broken(s: Session<C>, error: RunError)

  function EnterPhase<C>(m: Machine<C>, s: Session<C>, state: string, j: nat): Hop<C> {
    if j >= |m.phases| then Broken(s, Unclaimed) else
      var r := m.phases[j].enter(s.ctx);
      var t := Record(s.(state := state, current := Some(j), entered := false), r.ctx, Entered(j));
      if r.Failed? then Broken(t, HookFailed(j)) else Inside(t.(entered := true))
  }

  function HopOn<C>(m: Machine<C>, s: Session<C>): Hop<C> {
    if s.current.None? || s.current.value >= |m.phases| then Broken(s, NoCurrent) else
      var i := s.current.value;
      var left := m.phases[i].leave(s.ctx);
      var t := Record(s, left.ctx, Exited(i));
      if left.Failed? then Broken(t, HookFailed(i)) else
        var done := m.commit(i, t.ctx);
        var u := t.(ctx := done.ctx);
        if done.Failed? then Broken(u, CommitFailed(i))
        else if m.phases[i].exit == StateNone then AtEnd(u)
        else if m.phases[i].exit !in m.tables.byEntry then Broken(u, Unclaimed)
        else EnterPhase(m, u, m.phases[i].exit, m.tables.byEntry[m.phases[i].exit])
  }

  /** Does the cascade walk past a phase it has just entered? */
  predicate PassesThrough<C>(m: Machine<C>, s: Session<C>) {
    s.current.Some? && s.current.value < |m.phases|
    && m.phases[s.current.value].consumes == [] && m.phases[s.current.value].complete(s.ctx)
  }

  /** Hop, and hop on through every phase entered complete, within a number of hops. */
  function Cascade<C>(hop: Session<C> -> Hop<C>, passes: Session<C> -> bool, s: Session<C>, hops: nat): (Session<C>, Outcome)
    decreases hops
  {
    if hops == 0 then (s, Refused(HopLimit)) else
      match hop(s)
      case Broken(t, e) => (t, Refused(e))
      case AtEnd(t) => (t.(state := StateNone, current := None), Moved)
      case Inside(t) => if passes(t) then Cascade(hop, passes, t, hops - 1) else (t, Moved)
  }

  /** Hop until the target state, within a number of hops. */
  function Walk<C>(hop: Session<C> -> Hop<C>, s: Session<C>, target: string, hops: nat): (Session<C>, Outcome)
    decreases hops
  {
    if hops == 0 then (s, Refused(HopLimit))
    else if s.state == target then (s, Moved)
    else
      match hop(s)
      case Broken(t, e) => (t, Refused(e))
      case AtEnd(t) => (t, Refused(Unreachable))
      case Inside(t) => Walk(hop, t, target, hops - 1)
  }

  function HopOf<C>(m: Machine<C>): Session<C> -> Hop<C> { s => HopOn(m, s) }
  function PassOf<C>(m: Machine<C>): Session<C> -> bool { s => PassesThrough(m, s) }
  function HopCap<C>(m: Machine<C>): nat { |m.phases| + 1 }

  function Delivered<C>(m: Machine<C>, s: Session<C>, msg: Message): (Session<C>, Outcome) {
    if s.current.None? || s.current.value >= |m.phases| then (s, Refused(NoCurrent)) else
      var i := s.current.value;
      if msg.kind !in m.phases[i].consumes then (s, Refused(NotConsumed)) else
        var r := m.phases[i].onMessage(s.ctx, msg);
        var t := Record(s, r.ctx, Got(i));
        if r.Failed? then (t, Refused(HookFailed(i)))
        else if !m.phases[i].complete(t.ctx) then (t, Stayed)
        else Cascade(HopOf(m), PassOf(m), t, HopCap(m))
  }

  function Advanced<C>(m: Machine<C>, s: Session<C>, target: string): (Session<C>, Outcome) {
    if s.state == target then (s, Stayed)
    else if s.current.Some? && s.current.value < |m.phases| && target in m.phases[s.current.value].internal then (s, Stayed)
    else Walk(HopOf(m), s, target, HopCap(m))
  }

  /** A new session in the first inline phase; it does not cascade, even if that phase is complete. */
  function Begun<C>(m: Machine<C>, ctx: C): Hop<C> {
    var s := Session(m.tables.initial, None, false, ctx, []);
    if m.tables.initial !in m.tables.byEntry then Broken(s, NoInitialPhase)
    else EnterPhase(m, s, m.tables.initial, m.tables.byEntry[m.tables.initial])
  }

  // ---- the runner object ------------------------------------------------------------------

  class SessionRunner<C> {
    const m: Machine<C>
    var sessions: map<string, Session<C>>

    constructor (m: Machine<C>)
      ensures this.m == m && sessions == map[]
    {
      this.m := m;
      sessions := map[];
    }

    method BeginSession(id: string, ctx: C) returns (r: Result<C, RunError>)
      modifies this
      ensures id == "" ==> r == Err(EmptySessionId)
      ensures id != "" && id in old(sessions) ==> r == Err(AlreadyActive)
      ensures r.Ok? <==> id != "" && id !in old(sessions) && Begun(m, ctx).Inside?
      ensures r.Ok? ==> sessions == old(sessions)[id := Begun(m, ctx).s] && r.value == Begun(m, ctx).s.ctx
      ensures r.Err? ==> sessions == old(sessions)
    {
      if id == "" { return Err(EmptySessionId); }
      if id in sessions { return Err(AlreadyActive); }
      if m.tables.initial !in m.tables.byEntry { return Err(NoInitialPhase); }
      var hop := EnterPhase(m, Session(m.tables.initial, None, false, ctx, []), m.tables.initial, m.tables.byEntry[m.tables.initial]);
      if hop.Broken? { return Err(hop.error); }
      sessions := sessions[id := hop.s];
      return Ok(hop.s.ctx);
    }

    /** The cascade: exit, commit, enter, and on through every phase that completes at once. */
    method Advance(s: Session<C>) returns (t: Session<C>, out: Outcome)
      ensures (t, out) == Cascade(HopOf(m), PassOf(m), s, HopCap(m))
    {
      var hopCap := |m.phases| + 1;
      t := s;
      for hop := 0 to hopCap
        invariant Cascade(HopOf(m), PassOf(m), s, HopCap(m)) == Cascade(HopOf(m), PassOf(m), t, hopCap - hop)
      {
        match HopOf(m)(t)
        case Broken(u, e) => return u, Refused(e);
        case AtEnd(u) => return u.(state := StateNone, current := None), Moved;
        case Inside(u) =>
          if !PassOf(m)(u) { return u, Moved; }
          t := u;
      }
      return t, Refused(HopLimit);
    }

    /** Routes one message to the session's current phase; a finished session has none to route to. */
    method HandleMessage(id: string, msg: Message) returns (out: Outcome)
      requires id in sessions ==> sessions[id].current.Some? && sessions[id].current.value < |m.phases|
      modifies this
      ensures id !in old(sessions) ==> out == Refused(NotActive) && sessions == old(sessions)
      ensures id in old(sessions) ==> var (t, o) := Delivered(m, old(sessions)[id], msg);
        out == o && sessions == old(sessions)[id := t]
    {
      if id !in sessions { return Refused(NotActive); }
      var s := sessions[id];
      var i := s.current.value;
      if msg.kind !in m.phases[i].consumes {
        assert sessions[id := s] == sessions;
        return Refused(NotConsumed);
      }
      var r := m.phases[i].onMessage(s.ctx, msg);
      var t := Record(s, r.ctx, Got(i));
      if r.Failed? {
        sessions := sessions[id := t];
        return Refused(HookFailed(i));
      }
      if !m.phases[i].complete(t.ctx) {
        sessions := sessions[id := t];
        return Stayed;
      }
      t, out := Advance(t);
      sessions := sessions[id := t];
    }

    method AdvanceToState(id: string, target: string) returns (out: Outcome)
      modifies this
      ensures id !in old(sessions) ==> out == Refused(NotActive) && sessions == old(sessions)
      ensures id in old(sessions) ==> var (t, o) := Advanced(m, old(sessions)[id], target);
        out == o && sessions == old(sessions)[id := t]
    {
      if id !in sessions { return Refused(NotActive); }
      var s := sessions[id];
      assert sessions[id := s] == sessions;
      if s.state == target { return Stayed; }
      if s.current.Some? && s.current.value < |m.phases| && target in m.phases[s.current.value].internal { return Stayed; }
      var t;
      t, out := WalkTo(s, target);
      sessions := sessions[id := t];
    }

    method WalkTo(s: Session<C>, target: string) returns (t: Session<C>, out: Outcome)
      ensures (t, out) == Walk(HopOf(m), s, target, HopCap(m))
    {
      var hopCap := |m.phases| + 1;
      t := s;
      for hop := 0 to hopCap
        invariant Walk(HopOf(m), s, target, HopCap(m)) == Walk(HopOf(m), t, target, hopCap - hop)
      {
        if t.state == target { return t, Moved; }
        match HopOf(m)(t)
        case Broken(u, e) => return u, Refused(e);
        case AtEnd(u) => return u, Refused(Unreachable);
        case Inside(u) => t := u;
      }
      return t, Refused(HopLimit);
    }

    method EndSession(id: string)
      modifies this
      ensures sessions == old(sessions) - {id}
    {
      sessions := sessions - {id};
    }
  }
}

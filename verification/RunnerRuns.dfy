/** What runs of the session runner promise about the order of hook calls and about reaching a state. */
module RunnerRuns {
  import opened Wrappers
  import opened Pipeline
  import opened Runner

  /** The last inline phase ends the session; Compose does not check this. */
  ghost predicate EndsWell<C>(ps: seq<Phase<C>>) {
    forall i :: 0 <= i < |ps| && ps[i].inline && NextInline(ps, i).None? ==> ps[i].exit == StateNone
  }

  /** What a run needs of a pipeline: each inline phase leads to the next one, and the last one ends. */
  ghost predicate Chained<C>(m: Machine<C>) {
    forall i :: 0 <= i < |m.phases| && m.phases[i].inline ==> Links(m, i)
  }

  ghost predicate Links<C>(m: Machine<C>, i: nat)
    requires i < |m.phases|
  {
    match NextInline(m.phases, i)
    case None => m.phases[i].exit == StateNone
    case Some(n) =>
      && m.phases[i].exit != StateNone && m.phases[i].exit in m.tables.byEntry && m.tables.byEntry[m.phases[i].exit] == n
      && m.phases[n].entry == m.phases[i].exit
  }

  lemma ComposedIsChained<C>(m: Machine<C>)
    requires Composed(m)
    ensures EndsWell(m.phases) <==> Chained(m)
  {
    forall i | 0 <= i < |m.phases| && m.phases[i].inline && NextInline(m.phases, i).Some? ensures Links(m, i) {
      ExitLeadsOn(m.phases, m.tables, i);
    }
    if Chained(m) {
      forall i | 0 <= i < |m.phases| && m.phases[i].inline && NextInline(m.phases, i).None? ensures m.phases[i].exit == StateNone {
        assert Links(m, i);
      }
    }
  }

  // ---- the order of hook calls -------------------------------------------------------------

  /** The calls so far end inside phase i: entered, perhaps given messages, not exited. */
  ghost predicate InPhase<C>(ps: seq<Phase<C>>, calls: seq<Call>, i: nat)
    decreases |calls|
  {
    calls != [] && i < |ps| && ps[i].inline &&
    var front, last := calls[..|calls| - 1], calls[|calls| - 1];
    match last
    case Got(j) => j == i && InPhase(ps, front, i)
    case Entered(j) => j == i && var p := PrevInline(ps, i); if p.None? then front == [] else OutOf(ps, front, p.value)
    case Exited(_) => false
  }

  /** ... or end just after the exit of phase i. */
  ghost predicate OutOf<C>(ps: seq<Phase<C>>, calls: seq<Call>, i: nat)
    decreases |calls|
  {
    calls != [] && calls[|calls| - 1] == Exited(i) && InPhase(ps, calls[..|calls| - 1], i)
  }

  function Rank(c: Call): nat { if c.Entered? then 0 else if c.Got? then 1 else 2 }

  /** Enter, then messages, then Exit; one phase after the other; only messages repeat. */
  predicate Before(a: Call, b: Call) {
    a.phase < b.phase || (a.phase == b.phase && (Rank(a) < Rank(b) || (a.Got? && b.Got?)))
  }

  lemma {:induction false} CallsAreOrdered<C>(ps: seq<Phase<C>>, calls: seq<Call>, i: nat)
    requires InPhase(ps, calls, i)
    ensures forall a :: 0 <= a < |calls| ==> calls[a].phase < i || (calls[a].phase == i && !calls[a].Exited?)
    ensures forall a, b :: 0 <= a < b < |calls| ==> Before(calls[a], calls[b])
    decreases |calls|
  {
    var n := |calls| - 1;
    var front := calls[..n];
    if calls[n].Got? {
      CallsAreOrdered(ps, front, i);
    } else if PrevInline(ps, i).Some? {
      CallsAreOrdered(ps, front[..n - 1], PrevInline(ps, i).value);
      assert front == front[..n - 1] + [Exited(PrevInline(ps, i).value)];
    }
    assert calls == front + [calls[n]];
  }

  /** No inline phase on the way is skipped. */
  lemma {:induction false} NoPhaseIsSkipped<C>(ps: seq<Phase<C>>, calls: seq<Call>, i: nat, j: nat)
    requires InPhase(ps, calls, i) && j <= i && ps[j].inline
    ensures Entered(j) in calls && (j < i ==> Exited(j) in calls)
    decreases |calls|
  {
    var n := |calls| - 1;
    var front := calls[..n];
    if calls[n].Got? {
      NoPhaseIsSkipped(ps, front, i, j);
    } else if j < i {
      var p := PrevInline(ps, i).value;
      assert front[n - 1] == Exited(p);
      NoPhaseIsSkipped(ps, front[..n - 1], p, j);
    }
  }

  // ---- sessions ------------------------------------------------------------------------------

  /** Inside one phase, in its entry state, with the calls to show for it. */
  ghost predicate Inner<C>(m: Machine<C>, s: Session<C>) {
    s.current.Some? && s.current.value < |m.phases|
    && s.state == m.phases[s.current.value].entry && InPhase(m.phases, s.calls, s.current.value)
  }

  /** Just left the last phase. */
  ghost predicate Leaving<C>(m: Machine<C>, s: Session<C>) {
    exists i :: 0 <= i < |m.phases| && NextInline(m.phases, i).None? && OutOf(m.phases, s.calls, i)
  }

  ghost predicate Finished<C>(m: Machine<C>, s: Session<C>) {
    s.current.None? && s.state == StateNone && Leaving(m, s)
  }

  /** A session in order. */
  ghost predicate InOrder<C>(m: Machine<C>, s: Session<C>) { Inner(m, s) || Finished(m, s) }

  function Left<C>(m: Machine<C>, s: Session<C>): nat {
    if s.current.Some? && s.current.value < |m.phases| then |m.phases| - s.current.value else 0
  }

  ghost function InnerOf<C>(m: Machine<C>): Session<C> -> bool { x => Inner(m, x) }
  ghost function LeavingOf<C>(m: Machine<C>): Session<C> -> bool { x => Leaving(m, x) }
  function LeftOf<C>(m: Machine<C>): Session<C> -> nat { x => Left(m, x) }

  predicate HookError(e: RunError) { e.HookFailed? || e.CommitFailed? }

  /** A hop from inside a phase goes to the next inline phase, or leaves the last one, or hits a failing hook. */
  ghost predicate HopInOrder<C>(m: Machine<C>, s: Session<C>) {
    match HopOn(m, s)
    case Inside(t) => Inner(m, t) && s.current.Some? && s.current.value < |m.phases| && t.current == NextInline(m.phases, s.current.value)
    case AtEnd(t) => Leaving(m, t) && s.current.Some? && s.current.value < |m.phases| && NextInline(m.phases, s.current.value).None?
    case Broken(_, e) => HookError(e)
  }

  lemma EnterInOrder<C>(m: Machine<C>, s: Session<C>, j: nat)
    requires j < |m.phases| && m.phases[j].inline
    requires var p := PrevInline(m.phases, j); if p.None? then s.calls == [] else OutOf(m.phases, s.calls, p.value)
    ensures match EnterPhase(m, s, m.phases[j].entry, j)
      case Inside(t) => Inner(m, t) && t.current == Some(j)
      case AtEnd(_) => false
      case Broken(_, e) => HookError(e)
  {
    var calls := s.calls + [Entered(j)];
    assert calls[..|calls| - 1] == s.calls;
  }

  lemma InnerHops<C>(m: Machine<C>, s: Session<C>)
    requires Chained(m) && Inner(m, s)
    ensures HopInOrder(m, s)
  {
    var i := s.current.value;
    var calls := s.calls + [Exited(i)];
    assert Links(m, i) && calls[..|calls| - 1] == s.calls;
    assert OutOf(m.phases, calls, i);
    if NextInline(m.phases, i).Some? {
      NextThenPrev(m.phases, i);
      var left := m.phases[i].leave(s.ctx);
      var u := Record(s, left.ctx, Exited(i)).(ctx := m.commit(i, left.ctx).ctx);
      EnterInOrder(m, u, NextInline(m.phases, i).value);
    }
  }

  // ---- loops over hops ----------------------------------------------------------------------

  /** One hop keeps `inner` and uses up some of `left`, or ends in `ended`, or breaks benignly. */
  ghost predicate Keeps<C>(hop: Session<C> -> Hop<C>, inner: Session<C> -> bool, left: Session<C> -> nat,
                           ended: Session<C> -> bool, s: Session<C>) {
    match hop(s)
    case Inside(t) => inner(t) && left(t) < left(s)
    case AtEnd(t) => ended(t)
    case Broken(_, e) => HookError(e)
  }

  lemma {:induction false} CascadeKeeps<C(!new)>(hop: Session<C> -> Hop<C>, passes: Session<C> -> bool, inner: Session<C> -> bool,
                           left: Session<C> -> nat, ended: Session<C> -> bool, s: Session<C>, hops: nat)
    requires forall u: Session<C> :: inner(u) ==> Keeps(hop, inner, left, ended, u)
    requires inner(s) && hops > left(s)
    ensures var (t, o) := Cascade(hop, passes, s, hops);
      match o
      case Stayed => false
      case Refused(e) => HookError(e)
      case Moved => inner(t) || exists u: Session<C> :: ended(u) && t == u.(state := StateNone, current := None)
    decreases hops
  {
    assert Keeps(hop, inner, left, ended, s);
    match hop(s)
    case Inside(t) => if passes(t) { CascadeKeeps(hop, passes, inner, left, ended, t, hops - 1); }
    case AtEnd(_) =>
    case Broken(_, _) =>
  }

  lemma {:induction false} WalkKeeps<C(!new)>(hop: Session<C> -> Hop<C>, inner: Session<C> -> bool, left: Session<C> -> nat,
                        ended: Session<C> -> bool, s: Session<C>, target: string, hops: nat)
    requires forall u: Session<C> :: inner(u) ==> Keeps(hop, inner, left, ended, u)
    requires inner(s) && hops > left(s)
    ensures var (t, o) := Walk(hop, s, target, hops);
      match o
      case Stayed => false
      case Refused(e) => HookError(e) || e == Unreachable
      case Moved => inner(t) && t.state == target && left(t) <= left(s)
    decreases hops
  {
    assert Keeps(hop, inner, left, ended, s);
    if s.state == target { return; }
    match hop(s)
    case Inside(t) => WalkKeeps(hop, inner, left, ended, t, target, hops - 1);
    case AtEnd(_) =>
    case Broken(_, _) =>
  }

  lemma AllKeep<C(!new)>(m: Machine<C>)
    requires Chained(m)
    ensures forall u: Session<C> :: Inner(m, u) ==> Keeps(HopOf(m), InnerOf(m), LeftOf(m), LeavingOf(m), u)
  {
    forall u: Session<C> | Inner(m, u) ensures Keeps(HopOf(m), InnerOf(m), LeftOf(m), LeavingOf(m), u) {
      InnerHops(m, u);
    }
  }

  /** The cascade ends in order or at a failing hook: the hop limit and unclaimed states are out of reach. */
  lemma CascadeInOrder<C(!new)>(m: Machine<C>, s: Session<C>)
    requires Chained(m) && Inner(m, s)
    ensures var (t, o) := Cascade(HopOf(m), PassOf(m), s, HopCap(m));
      if o.Refused? then HookError(o.error) else o == Moved && InOrder(m, t)
  {
    AllKeep(m);
    CascadeKeeps(HopOf(m), PassOf(m), InnerOf(m), LeftOf(m), LeavingOf(m), s, HopCap(m));
  }

  lemma WalkInOrder<C(!new)>(m: Machine<C>, s: Session<C>, target: string)
    requires Chained(m) && Inner(m, s)
    ensures var (t, o) := Walk(HopOf(m), s, target, HopCap(m));
      if o.Refused? then HookError(o.error) || o.error == Unreachable
      else o == Moved && InnerOf(m)(t) && t.state == target && LeftOf(m)(t) <= LeftOf(m)(s)
  {
    AllKeep(m);
    WalkKeeps(HopOf(m), InnerOf(m), LeftOf(m), LeavingOf(m), s, target, HopCap(m));
  }

  // ---- whole runs ------------------------------------------------------------------------------

  lemma DeliveryInOrder<C(!new)>(m: Machine<C>, s: Session<C>, msg: Message)
    requires Chained(m) && Inner(m, s)
    ensures var (t, o) := Delivered(m, s, msg);
      if o.Refused? then HookError(o.error) || o.error == NotConsumed else InOrder(m, t)
  {
    var i := s.current.value;
    if msg.kind in m.phases[i].consumes {
      var r := m.phases[i].onMessage(s.ctx, msg);
      var t := Record(s, r.ctx, Got(i));
      assert t.calls[..|t.calls| - 1] == s.calls;
      assert Inner(m, t);
      CascadeInOrder(m, t);
    }
  }

  datatype Act = Deliver(msg: Message) | AdvanceTo(target: string)

  function Applied<C>(m: Machine<C>, s: Session<C>, act: Act): (Session<C>, Outcome) {
    match act
    case Deliver(msg) => Delivered(m, s, msg)
    case AdvanceTo(target) => Advanced(m, s, target)
  }

  /** The acts lead from s to t without an error. */
  ghost predicate RunsTo<C(!new)>(m: Machine<C>, s: Session<C>, acts: seq<Act>, t: Session<C>)
    decreases |acts|
  {
    if acts == [] then t == s
    else var (u, o) := Applied(m, s, acts[0]); !o.Refused? && RunsTo(m, u, acts[1..], t)
  }

  /** From a session that is inside a phase, only a failing hook, an unconsumed message or an unreachable target is refused. */
  lemma ActInOrder<C(!new)>(m: Machine<C>, s: Session<C>, act: Act)
    requires Chained(m) && InOrder(m, s)
    ensures var (t, o) := Applied(m, s, act);
      if o.Refused? then s.current.Some? ==> HookError(o.error) || o.error == NotConsumed || o.error == Unreachable
      else InOrder(m, t)
  {
    if s.current.Some? {
      match act
      case Deliver(msg) => DeliveryInOrder(m, s, msg);
      case AdvanceTo(target) => WalkInOrder(m, s, target);
    } else {
      assert HopOf(m)(s) == Broken(s, NoCurrent);
    }
  }

  lemma {:induction false} RunInOrder<C(!new)>(m: Machine<C>, s: Session<C>, acts: seq<Act>, t: Session<C>)
    requires Chained(m) && InOrder(m, s) && RunsTo(m, s, acts, t)
    ensures InOrder(m, t)
    decreases |acts|
  {
    if acts == [] { return; }
    ActInOrder(m, s, acts[0]);
    RunInOrder(m, Applied(m, s, acts[0]).0, acts[1..], t);
  }

  lemma InitialPhase<C>(m: Machine<C>) returns (i: nat)
    requires Composed(m) && exists j :: 0 <= j < |m.phases| && m.phases[j].inline
    ensures i < |m.phases| && m.phases[i].inline && PrevInline(m.phases, i).None?
    ensures m.tables.initial in m.tables.byEntry && m.tables.byEntry[m.tables.initial] == i && m.phases[i].entry == m.tables.initial
  {
    i :| 0 <= i < |m.phases| && m.phases[i].inline;
    while PrevInline(m.phases, i).Some?
      invariant i < |m.phases| && m.phases[i].inline
      decreases i
    {
      i := PrevInline(m.phases, i).value;
    }
  }

  /**
   * For any accepted pipeline with an inline phase whose last one ends the session: every error-free run
   * calls the hooks as Enter, OnMessage*, Exit, phase by phase in list order, none twice and none skipped.
   */
  lemma HooksRunInOrder<C(!new)>(m: Machine<C>, ctx: C, acts: seq<Act>, t: Session<C>)
    requires Composed(m) && EndsWell(m.phases) && exists j :: 0 <= j < |m.phases| && m.phases[j].inline
    requires Begun(m, ctx).Inside? && RunsTo(m, Begun(m, ctx).s, acts, t)
    ensures InOrder(m, t)
    ensures forall a, b :: 0 <= a < b < |t.calls| ==> Before(t.calls[a], t.calls[b])
    ensures var top := if t.current.Some? then t.current.value else |m.phases|;
      forall j :: 0 <= j < top && j < |m.phases| && m.phases[j].inline ==> Entered(j) in t.calls && Exited(j) in t.calls
  {
    ComposedIsChained(m);
    var first := InitialPhase(m);
    EnterInOrder(m, Session(m.tables.initial, None, false, ctx, []), first);
    RunInOrder(m, Begun(m, ctx).s, acts, t);
    if Inner(m, t) { InnerOrdered(m, t); } else { FinishedOrdered(m, t); }
  }

  lemma InnerOrdered<C>(m: Machine<C>, t: Session<C>)
    requires Inner(m, t)
    ensures forall a, b :: 0 <= a < b < |t.calls| ==> Before(t.calls[a], t.calls[b])
    ensures forall j :: 0 <= j < t.current.value && m.phases[j].inline ==> Entered(j) in t.calls && Exited(j) in t.calls
  {
    var i := t.current.value;
    CallsAreOrdered(m.phases, t.calls, i);
    forall j | 0 <= j < i && m.phases[j].inline ensures Entered(j) in t.calls && Exited(j) in t.calls {
      NoPhaseIsSkipped(m.phases, t.calls, i, j);
    }
  }

  lemma FinishedOrdered<C>(m: Machine<C>, t: Session<C>)
    requires Finished(m, t)
    ensures forall a, b :: 0 <= a < b < |t.calls| ==> Before(t.calls[a], t.calls[b])
    ensures forall j :: 0 <= j < |m.phases| && m.phases[j].inline ==> Entered(j) in t.calls && Exited(j) in t.calls
  {
    var i :| 0 <= i < |m.phases| && NextInline(m.phases, i).None? && OutOf(m.phases, t.calls, i);
    var front := t.calls[..|t.calls| - 1];
    CallsAreOrdered(m.phases, front, i);
    assert t.calls == front + [Exited(i)];
    forall j | 0 <= j < |m.phases| && m.phases[j].inline ensures Entered(j) in t.calls && Exited(j) in t.calls {
      assert j <= i;
      NoPhaseIsSkipped(m.phases, front, i, j);
    }
  }

  // ---- when a message moves a session on ---------------------------------------------------------

  /** A hop records the exit of the phase it leaves before anything else. */
  ghost predicate LeavesFirst<C>(hop: Session<C> -> Hop<C>, s: Session<C>) {
    s.current.Some? && s.calls + [Exited(s.current.value)] <= hop(s).s.calls
  }

  ghost predicate Extends<C>(hop: Session<C> -> Hop<C>, s: Session<C>) { s.calls <= hop(s).s.calls }

  lemma HopExtends<C>(m: Machine<C>, s: Session<C>)
    ensures Extends(HopOf(m), s)
    ensures s.current.Some? && s.current.value < |m.phases| ==> LeavesFirst(HopOf(m), s)
  {}

  lemma {:induction false} CascadeExtends<C(!new)>(hop: Session<C> -> Hop<C>, passes: Session<C> -> bool, s: Session<C>, hops: nat)
    requires forall u: Session<C> :: Extends(hop, u)
    ensures s.calls <= Cascade(hop, passes, s, hops).0.calls
    ensures hops > 0 ==> hop(s).s.calls <= Cascade(hop, passes, s, hops).0.calls
    decreases hops
  {
    if hops > 0 {
      assert Extends(hop, s);
      match hop(s)
      case Inside(t) => if passes(t) { CascadeExtends(hop, passes, t, hops - 1); }
      case AtEnd(_) =>
      case Broken(_, _) =>
    }
  }

  /** The hook calls a delivery makes. */
  function NewCalls(before: seq<Call>, after: seq<Call>): seq<Call> { if before <= after then after[|before|..] else [] }

  /**
   * What a consumed message does: its phase gets it, and is exited exactly when OnMessage succeeds and the phase
   * is complete on the context OnMessage returns. Otherwise nothing but that context changes.
   */
  lemma ExitedIffComplete<C(!new)>(m: Machine<C>, s: Session<C>, msg: Message)
    requires s.current.Some? && s.current.value < |m.phases| && msg.kind in m.phases[s.current.value].consumes
    ensures var i := s.current.value;
      var r := m.phases[i].onMessage(s.ctx, msg);
      var (t, o) := Delivered(m, s, msg);
      var moves := r.Done? && m.phases[i].complete(r.ctx);
      && s.calls + [Got(i)] <= t.calls
      && (Exited(i) in NewCalls(s.calls, t.calls) <==> moves)
      && (moves ==> s.calls + [Got(i), Exited(i)] <= t.calls && o != Stayed)
      && (!moves ==> t == Record(s, r.ctx, Got(i)) && o == if r.Done? then Stayed else Refused(HookFailed(i)))
  {
    var i := s.current.value;
    var r := m.phases[i].onMessage(s.ctx, msg);
    var got := Record(s, r.ctx, Got(i));
    var t := Delivered(m, s, msg).0;
    if r.Done? && m.phases[i].complete(r.ctx) {
      forall u: Session<C> ensures Extends(HopOf(m), u) { HopExtends(m, u); }
      HopExtends(m, got);
      CascadeExtends(HopOf(m), PassOf(m), got, HopCap(m));
      CascadeMoves(HopOf(m), PassOf(m), got, HopCap(m));
      assert got.calls + [Exited(i)] == s.calls + [Got(i), Exited(i)];
      assert t.calls[|s.calls| + 1] == Exited(i);
      assert NewCalls(s.calls, t.calls)[1] == Exited(i);
    } else {
      assert NewCalls(s.calls, t.calls) == [Got(i)];
    }
  }

  lemma {:induction false} CascadeMoves<C>(hop: Session<C> -> Hop<C>, passes: Session<C> -> bool, s: Session<C>, hops: nat)
    ensures Cascade(hop, passes, s, hops).1 != Stayed
    decreases hops
  {
    if hops > 0 && hop(s).Inside? && passes(hop(s).s) { CascadeMoves(hop, passes, hop(s).s, hops - 1); }
  }

  /** A message the current phase does not consume is refused, and no hook hears of it. */
  lemma UnconsumedChangesNothing<C>(m: Machine<C>, s: Session<C>, msg: Message)
    requires s.current.Some? && s.current.value < |m.phases| && msg.kind !in m.phases[s.current.value].consumes
    ensures Delivered(m, s, msg) == (s, Refused(NotConsumed))
  {}

  /** A session has just entered a phase that takes messages, or is not complete on the context Enter returned. */
  ghost predicate Waits<C>(m: Machine<C>, s: Session<C>) {
    s.current.Some? && s.current.value < |m.phases|
    && (m.phases[s.current.value].consumes != [] || !m.phases[s.current.value].complete(s.ctx))
  }

  ghost predicate PassesOn<C>(m: Machine<C>, s: Session<C>) {
    s.current.Some? && s.current.value < |m.phases|
    && m.phases[s.current.value].consumes == [] && m.phases[s.current.value].complete(s.ctx)
  }

  /** One hop after the other, through phases that take no message and are complete as soon as entered. */
  ghost predicate PassesAlong<C>(m: Machine<C>, path: seq<Session<C>>) {
    && (forall k :: 0 <= k < |path| - 1 ==> HopOn(m, path[k]) == Inside(path[k + 1]))
    && (forall k :: 0 < k < |path| - 1 ==> PassesOn(m, path[k]))
  }

  /** The path ends in t, waiting there, or past the last phase. */
  ghost predicate StopsAt<C>(m: Machine<C>, path: seq<Session<C>>, t: Session<C>) {
    && path != [] && PassesAlong(m, path)
    && var last := path[|path| - 1];
       if t.current.Some? then |path| > 1 && last == t && Waits(m, t)
       else HopOn(m, last).AtEnd? && t == HopOn(m, last).s.(state := StateNone, current := None) && (|path| > 1 ==> PassesOn(m, last))
  }

  lemma PathGrows<C>(m: Machine<C>, s: Session<C>, rest: seq<Session<C>>, t: Session<C>)
    requires StopsAt(m, rest, t) && HopOn(m, s) == Inside(rest[0]) && PassesOn(m, rest[0])
    ensures StopsAt(m, [s] + rest, t)
  {
    var path := [s] + rest;
    assert forall k :: 1 <= k < |path| ==> path[k] == rest[k - 1];
  }

  /**
   * Where a cascade stops: in the first phase it enters that takes messages or is not complete, or past the last
   * phase, having entered only phases that take no message and are complete at once.
   */
  lemma {:induction false} CascadeStops<C>(m: Machine<C>, s: Session<C>, hops: nat) returns (path: seq<Session<C>>)
    requires Cascade(HopOf(m), PassOf(m), s, hops).1 == Moved
    ensures StopsAt(m, path, Cascade(HopOf(m), PassOf(m), s, hops).0) && path[0] == s
    decreases hops
  {
    match HopOf(m)(s)
    case AtEnd(t) => path := [s];
    case Inside(t) =>
      InsideIsCurrent(m, s);
      if PassOf(m)(t) {
        var rest := CascadeStops(m, t, hops - 1);
        path := [s] + rest;
        PathGrows(m, s, rest, Cascade(HopOf(m), PassOf(m), t, hops - 1).0);
      } else {
        path := [s, t];
      }
    case Broken(_, _) =>
  }

  lemma InsideIsCurrent<C>(m: Machine<C>, s: Session<C>)
    requires HopOn(m, s).Inside?
    ensures HopOn(m, s).s.current.Some? && HopOn(m, s).s.current.value < |m.phases|
  {}

  /** Beginning a session enters the first inline phase and stops there, complete or not. */
  lemma BeginEntersOnly<C>(m: Machine<C>, ctx: C)
    requires Composed(m) && exists j :: 0 <= j < |m.phases| && m.phases[j].inline
    ensures Begun(m, ctx).s.calls == [Entered(FirstInline(m.phases))]
    ensures Begun(m, ctx).Inside? <==> m.phases[FirstInline(m.phases)].enter(ctx).Done?
    ensures Begun(m, ctx).s.ctx == m.phases[FirstInline(m.phases)].enter(ctx).ctx
  {
    var i := InitialPhase(m);
    OnlyOneFirst(m.phases, i);
  }

  /** The first inline phase of a list that has one. */
  ghost function FirstInline<C>(ps: seq<Phase<C>>): (i: nat)
    requires exists j :: 0 <= j < |ps| && ps[j].inline
    ensures i < |ps| && ps[i].inline && forall j :: 0 <= j < i ==> !ps[j].inline
  {
    if ps[0].inline then 0 else
      assert exists j :: 0 <= j < |ps[1..]| && ps[1..][j].inline by {
        var j :| 0 <= j < |ps| && ps[j].inline;
        assert ps[1..][j - 1].inline;
      }
      assert forall j :: 0 < j < |ps| ==> ps[j] == ps[1..][j - 1];
      1 + FirstInline(ps[1..])
  }

  lemma OnlyOneFirst<C>(ps: seq<Phase<C>>, i: nat)
    requires i < |ps| && ps[i].inline && PrevInline(ps, i).None?
    ensures FirstInline(ps) == i
  {}

  // ---- reaching a state ---------------------------------------------------------------------------

  ghost predicate HooksSucceed<C(!new)>(m: Machine<C>) {
    && (forall i, c :: 0 <= i < |m.phases| ==> m.phases[i].enter(c).Done? && m.phases[i].leave(c).Done?)
    && (forall i: nat, c :: m.commit(i, c).Done?)
  }

  ghost predicate EntryAhead<C>(ps: seq<Phase<C>>, i: nat, target: string) {
    exists j :: i <= j < |ps| && ps[j].inline && ps[j].entry == target
  }

  ghost predicate Ahead<C>(m: Machine<C>, s: Session<C>, target: string) {
    s.current.Some? && EntryAhead(m.phases, s.current.value, target)
  }

  ghost function AheadOf<C>(m: Machine<C>, target: string): Session<C> -> bool { x => Ahead(m, x, target) }

  /** A hop that does not find the target takes it no further away. */
  ghost predicate Seeks<C>(hop: Session<C> -> Hop<C>, inner: Session<C> -> bool, left: Session<C> -> nat,
                           ahead: Session<C> -> bool, target: string, s: Session<C>) {
    if s.state == target then ahead(s) else
      match hop(s)
      case Inside(t) => inner(t) && left(t) < left(s) && (ahead(t) <==> ahead(s))
      case AtEnd(_) => !ahead(s)
      case Broken(_, _) => false
  }

  lemma {:induction false} WalkFinds<C(!new)>(hop: Session<C> -> Hop<C>, inner: Session<C> -> bool, left: Session<C> -> nat,
                        ahead: Session<C> -> bool, s: Session<C>, target: string, hops: nat)
    requires forall u: Session<C> :: inner(u) ==> Seeks(hop, inner, left, ahead, target, u)
    requires inner(s) && hops > left(s)
    ensures Walk(hop, s, target, hops).1 == if ahead(s) then Moved else Refused(Unreachable)
    decreases hops
  {
    assert Seeks(hop, inner, left, ahead, target, s);
    if s.state == target { return; }
    match hop(s)
    case Inside(t) => WalkFinds(hop, inner, left, ahead, t, target, hops - 1);
    case AtEnd(_) =>
    case Broken(_, _) =>
  }

  lemma HopNeverBreaks<C(!new)>(m: Machine<C>, s: Session<C>)
    requires Chained(m) && HooksSucceed(m) && Inner(m, s)
    ensures HopInOrder(m, s) && !HopOn(m, s).Broken?
  {
    InnerHops(m, s);
    var i := s.current.value;
    assert m.phases[i].leave(s.ctx).Done?;
    assert m.commit(i, m.phases[i].leave(s.ctx).ctx).Done?;
  }

  lemma AllSeek<C(!new)>(m: Machine<C>, target: string)
    requires Chained(m) && HooksSucceed(m)
    ensures forall u: Session<C> :: Inner(m, u) ==> Seeks(HopOf(m), InnerOf(m), LeftOf(m), AheadOf(m, target), target, u)
  {
    forall u: Session<C> | Inner(m, u) ensures Seeks(HopOf(m), InnerOf(m), LeftOf(m), AheadOf(m, target), target, u) {
      HopNeverBreaks(m, u);
      AheadStays(m.phases, u.current.value, target);
    }
  }

  lemma AheadStays<C>(ps: seq<Phase<C>>, i: nat, target: string)
    requires i < |ps| && ps[i].inline
    ensures ps[i].entry == target ==> EntryAhead(ps, i, target)
    ensures ps[i].entry != target ==>
      (EntryAhead(ps, i, target) <==> NextInline(ps, i).Some? && EntryAhead(ps, NextInline(ps, i).value, target))
  {}

  /**
   * AdvanceToState never rewinds, and with hooks that do not fail it succeeds exactly when the target is
   * the current state, an internal state of the current phase, or the entry state of a later inline phase.
   */
  lemma AdvanceSucceedsIff<C(!new)>(m: Machine<C>, s: Session<C>, target: string)
    requires Composed(m) && EndsWell(m.phases) && HooksSucceed(m) && Inner(m, s)
    ensures var i := s.current.value;
      var (t, o) := Advanced(m, s, target);
      && (!o.Refused? <==> target in m.phases[i].internal || EntryAhead(m.phases, i, target))
      && (!o.Refused? ==> Inner(m, t) && t.current.value >= i && (t == s || t.state == target))
  {
    ComposedIsChained(m);
    ChainedAdvance(m, s, target);
  }

  lemma WalkReaches<C(!new)>(m: Machine<C>, s: Session<C>, target: string)
    requires Chained(m) && HooksSucceed(m) && Inner(m, s)
    ensures Walk(HopOf(m), s, target, HopCap(m)).1
         == if EntryAhead(m.phases, s.current.value, target) then Moved else Refused(Unreachable)
  {
    AllSeek(m, target);
    WalkFinds(HopOf(m), InnerOf(m), LeftOf(m), AheadOf(m, target), s, target, HopCap(m));
  }

  lemma ChainedAdvance<C(!new)>(m: Machine<C>, s: Session<C>, target: string)
    requires Chained(m) && HooksSucceed(m) && Inner(m, s)
    ensures var i := s.current.value;
      var (t, o) := Advanced(m, s, target);
      && (!o.Refused? <==> target in m.phases[i].internal || EntryAhead(m.phases, i, target))
      && (!o.Refused? ==> Inner(m, t) && t.current.value >= i && (t == s || t.state == target))
  {
    WalkReaches(m, s, target);
    WalkInOrder(m, s, target);
    AheadStays(m.phases, s.current.value, target);
  }

  // ---- pipelines that do not end -------------------------------------------------------------------

  /** Every phase completes at once and consumes nothing, and no hook fails. */
  ghost predicate Inert<C(!new)>(m: Machine<C>) {
    HooksSucceed(m) && forall i, c :: 0 <= i < |m.phases| ==> m.phases[i].consumes == [] && m.phases[i].complete(c)
  }

  ghost predicate Rolls<C>(hop: Session<C> -> Hop<C>, passes: Session<C> -> bool, inner: Session<C> -> bool, s: Session<C>) {
    match hop(s)
    case Inside(t) => inner(t) && passes(t)
    case AtEnd(_) => false
    case Broken(_, _) => true
  }

  lemma {:induction false} EndlessCascade<C(!new)>(hop: Session<C> -> Hop<C>, passes: Session<C> -> bool,
                             inner: Session<C> -> bool, s: Session<C>, hops: nat)
    requires (forall u: Session<C> :: inner(u) ==> Rolls(hop, passes, inner, u)) && inner(s)
    ensures Cascade(hop, passes, s, hops).1.Refused?
    decreases hops
  {
    if hops == 0 { return; }
    assert Rolls(hop, passes, inner, s);
    match hop(s)
    case Inside(t) => EndlessCascade(hop, passes, inner, t, hops - 1);
    case AtEnd(_) =>
    case Broken(_, _) =>
  }

  /** In some inline phase, whatever led there. */
  ghost predicate AtInline<C>(m: Machine<C>, s: Session<C>) {
    s.current.Some? && s.current.value < |m.phases| && m.phases[s.current.value].inline
  }

  ghost function AtInlineOf<C>(m: Machine<C>): Session<C> -> bool { x => AtInline(m, x) }

  /** Every inline phase leads somewhere, and states lead to inline phases. */
  ghost predicate NeverEnds<C>(m: Machine<C>) {
    && (forall i :: 0 <= i < |m.phases| && m.phases[i].inline ==> m.phases[i].exit != StateNone)
    && (forall e :: e in m.tables.byEntry ==> m.tables.byEntry[e] < |m.phases| && m.phases[m.tables.byEntry[e]].inline)
  }

  lemma LoosePipelineNeverEnds<C>(m: Machine<C>)
    requires Composed(m) && !EndsWell(m.phases)
    ensures NeverEnds(m)
  {
    forall i | 0 <= i < |m.phases| && m.phases[i].inline ensures m.phases[i].exit != StateNone { NoExitEnds(m, i); }
  }

  lemma NoExitEnds<C>(m: Machine<C>, i: nat)
    requires Composed(m) && !EndsWell(m.phases) && i < |m.phases| && m.phases[i].inline
    ensures m.phases[i].exit != StateNone
  {
    if NextInline(m.phases, i).Some? {
      ExitLeadsOn(m.phases, m.tables, i);
    } else {
      var k :| 0 <= k < |m.phases| && m.phases[k].inline && NextInline(m.phases, k).None? && m.phases[k].exit != StateNone;
      assert k == i;
    }
  }

  lemma AllRoll<C(!new)>(m: Machine<C>)
    requires NeverEnds(m) && Inert(m)
    ensures forall u: Session<C> :: AtInline(m, u) ==> Rolls(HopOf(m), PassOf(m), AtInlineOf(m), u)
  {
    forall u: Session<C> | AtInline(m, u) ensures Rolls(HopOf(m), PassOf(m), AtInlineOf(m), u) {
      match HopOn(m, u)
      case Inside(t) => assert m.phases[t.current.value].complete(t.ctx);
      case AtEnd(_) =>
      case Broken(_, _) =>
    }
  }

  ghost predicate Passes<C>(hop: Session<C> -> Hop<C>, passes: Session<C> -> bool, inner: Session<C> -> bool,
                            left: Session<C> -> nat, s: Session<C>) {
    match hop(s)
    case Inside(t) => inner(t) && passes(t) && left(t) < left(s)
    case AtEnd(_) => true
    case Broken(_, _) => false
  }

  lemma {:induction false} PassingCascade<C(!new)>(hop: Session<C> -> Hop<C>, passes: Session<C> -> bool, inner: Session<C> -> bool,
                             left: Session<C> -> nat, s: Session<C>, hops: nat)
    requires forall u: Session<C> :: inner(u) ==> Passes(hop, passes, inner, left, u)
    requires inner(s) && hops > left(s)
    ensures Cascade(hop, passes, s, hops).1 == Moved && Cascade(hop, passes, s, hops).0.current.None?
    decreases hops
  {
    assert Passes(hop, passes, inner, left, s);
    match hop(s)
    case Inside(t) => PassingCascade(hop, passes, inner, left, t, hops - 1);
    case AtEnd(_) =>
    case Broken(_, _) =>
  }

  lemma AllPass<C(!new)>(m: Machine<C>)
    requires Chained(m) && Inert(m)
    ensures forall u: Session<C> :: Inner(m, u) ==> Passes(HopOf(m), PassOf(m), InnerOf(m), LeftOf(m), u)
  {
    forall u: Session<C> | Inner(m, u) ensures Passes(HopOf(m), PassOf(m), InnerOf(m), LeftOf(m), u) {
      HopNeverBreaks(m, u);
      match HopOn(m, u)
      case Inside(t) => assert m.phases[t.current.value].complete(t.ctx);
      case AtEnd(_) =>
      case Broken(_, _) =>
    }
  }

  /** A pipeline of pure-compute phases runs to its end exactly when the last inline phase ends the session. */
  lemma CascadeEndsIff<C(!new)>(m: Machine<C>, s: Session<C>)
    requires Composed(m) && Inert(m) && Inner(m, s)
    ensures Cascade(HopOf(m), PassOf(m), s, HopCap(m)).1 == Moved <==> EndsWell(m.phases)
  {
    ComposedIsChained(m);
    if EndsWell(m.phases) {
      AllPass(m);
      PassingCascade(HopOf(m), PassOf(m), InnerOf(m), LeftOf(m), s, HopCap(m));
    } else {
      LoosePipelineNeverEnds(m);
      AllRoll(m);
      EndlessCascade(HopOf(m), PassOf(m), AtInlineOf(m), s, HopCap(m));
    }
  }

  /** One pure-compute phase whose exit state is its own entry state, or a state of no phase. */
  function LastPhase(exit: string): Phase<int> {
    Phase("only", true, "start", exit, [], [], map[], map[], c => Done(c), (c, msg) => Done(c), c => true, c => Done(c))
  }

  function LastMachine(exit: string): Machine<int> {
    Machine([LastPhase(exit)], Tables(map["start" := 0], map[], "start"), (i, c) => Done(c))
  }

  lemma LastIsComposed(exit: string)
    ensures Composed(LastMachine(exit))
  {
    var ps := LastMachine(exit).phases;
    assert PhaseOk(ps, 0);
    assert EntryTable(ps, 1, map["start" := 0]);
    assert InternalTable(ps, 1, map[]);
  }

  lemma LastIsInert(exit: string)
    ensures Inert(LastMachine(exit))
  {}

  lemma LastEndsWell(exit: string)
    ensures EndsWell(LastMachine(exit).phases) <==> exit == StateNone
  {
    var ps := LastMachine(exit).phases;
    assert ps[0] == LastPhase(exit) && NextInline(ps, 0).None?;
  }

  lemma LastBegins(m: Machine<int>, exit: string)
    requires m == LastMachine(exit)
    ensures Begun(m, 0).Inside? && Inner(m, Begun(m, 0).s)
  {
    var s := Begun(m, 0).s;
    assert s.calls == [] + [Entered(0)];
    assert PrevInline(m.phases, 0).None? && s.calls[..0] == [];
    assert InPhase(m.phases, s.calls, 0);
  }

  /** Compose accepts it with any exit state, and it ends its cascade only if that state is the empty one. */
  lemma LoosePipelineIsAccepted(exit: string, m: Machine<int>)
    requires m == LastMachine(exit)
    ensures Composed(m) && Inert(m) && Begun(m, 0).Inside?
    ensures Cascade(HopOf(m), PassOf(m), Begun(m, 0).s, HopCap(m)).1 == Moved <==> exit == StateNone
  {
    LastIsComposed(exit);
    LastIsInert(exit);
    LastEndsWell(exit);
    LastBegins(m, exit);
    CascadeEndsIff(m, Begun(m, 0).s);
  }
}

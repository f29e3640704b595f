/** Phases and the validation of a phase list: pkg/ares/phase/phase.go, types.go and Compose in runner.go. */
module Pipeline {
  import opened Wrappers

  // ---- what a phase declares ------------------------------------------------------------

  /** A constraint value: how it prints, and its number when it is numeric. */
  datatype Value = Value(shown: string, number: Option<real>)

  datatype KeyType = KeyType(typeName: string, required: bool, constraints: map<string, Value>, noLineage: bool)
  type Schema = map<string, KeyType>

  /** What a hook did to the context, and whether it returned an error. */
  datatype Hook<C> = Done(ctx: C) | Failed(ctx: C)

  datatype Message = Message(kind: string, from: string, payload: string)

  /** The empty state marks phases outside the inline machine and the end of a session. */
  const StateNone := ""

  datatype Phase<!C> = Phase(
    name: string, inline: bool, entry: string, exit: string, internal: seq<string>, consumes: seq<string>,
    needs: Schema, offers: Schema,
    enter: C -> Hook<C>, onMessage: (C, Message) -> Hook<C>, complete: C -> bool, leave: C -> Hook<C>)

  datatype ComposeError =
    | NoPhases | EmptyName(i: nat) | DuplicateName(i: nat) | Unsatisfied(i: nat)
    | NoEntryState(i: nat) | EntryStateTaken(i: nat) | BadInternalState(i: nat) | NotConnected(i: nat) | StrayState(i: nat)

  // ---- context requirements ---------------------------------------------------------------

  predicate IsMinimum(c: string) { |c| > 4 && c[|c| - 4..] == "_min" }

  predicate ConstraintOk(c: string, want: Value, got: map<string, Value>) {
    if c == "" then true
    else if IsMinimum(c) then
      var k := c[..|c| - 4];
      k in got && got[k].number.Some? && want.number.Some? && got[k].number.value >= want.number.value
    else c in got && got[c].shown == want.shown
  }

  predicate ConstraintsOk(want: map<string, Value>, got: map<string, Value>) {
    forall c :: c in want ==> ConstraintOk(c, want[c], got)
  }

  /** A provided key fits a requirement: types agree where both name one, and the constraints hold. */
  predicate Fits(want: KeyType, got: KeyType) {
    && (want.typeName != "" && got.typeName != "" ==> want.typeName == got.typeName)
    && ConstraintsOk(want.constraints, got.constraints)
  }

  predicate KeyOk(key: string, want: KeyType, provided: Schema) {
    if key in provided then Fits(want, provided[key]) else !want.required
  }

  predicate Satisfied(needs: Schema, provided: Schema) { forall k :: k in needs ==> KeyOk(k, needs[k], provided) }

  /** Compares two values as numbers; none when either is not one. */
  function AtLeast(a: Value, b: Value): Option<bool> {
    if a.number.None? || b.number.None? then None else Some(a.number.value >= b.number.value)
  }

  method CheckConstraints(want: map<string, Value>, got: map<string, Value>) returns (ok: bool)
    ensures ok <==> ConstraintsOk(want, got)
  {
    var todo := want.Keys;
    while todo != {}
      invariant todo <= want.Keys
      invariant forall c :: c in want && c !in todo ==> ConstraintOk(c, want[c], got)
      decreases |todo|
    {
      var c :| c in todo;
      todo := todo - {c};
      if c == "" { continue; }
      if |c| > 4 && c[|c| - 4..] == "_min" {
        var producerKey := c[..|c| - 4];
        if producerKey !in got { return false; }
        var ok := AtLeast(got[producerKey], want[c]);
        if ok.None? || !ok.value { return false; }
        continue;
      }
      if c !in got { return false; }
      if got[c].shown != want[c].shown { return false; }
    }
    return true;
  }

  method ValidateRequires(needs: Schema, provided: Schema) returns (ok: bool)
    ensures ok <==> Satisfied(needs, provided)
  {
    var todo := needs.Keys;
    while todo != {}
      invariant todo <= needs.Keys
      invariant forall k :: k in needs && k !in todo ==> KeyOk(k, needs[k], provided)
      decreases |todo|
    {
      var k :| k in todo;
      todo := todo - {k};
      if k !in provided {
        if needs[k].required { return false; }
        continue;
      }
      var want, got := needs[k], provided[k];
      if want.typeName != "" && got.typeName != "" && want.typeName != got.typeName { return false; }
      var ok := CheckConstraints(want.constraints, got.constraints);
      if !ok { return false; }
    }
    return true;
  }

  // ---- what Compose accepts -------------------------------------------------------------------

  /** What the first i phases provide; a later provider replaces an earlier one. */
  function Provided<C>(ps: seq<Phase<C>>, i: nat): Schema
    requires i <= |ps|
  {
    if i == 0 then map[] else Provided(ps, i - 1) + ps[i - 1].offers
  }

  /** The last inline phase before i. */
  function PrevInline<C>(ps: seq<Phase<C>>, i: nat): (p: Option<nat>)
    requires i <= |ps|
    ensures p.Some? ==> p.value < i && ps[p.value].inline && forall j :: p.value < j < i ==> !ps[j].inline
    ensures p.None? ==> forall j :: 0 <= j < i ==> !ps[j].inline
  {
    if i == 0 then None else if ps[i - 1].inline then Some(i - 1) else PrevInline(ps, i - 1)
  }

  predicate EntryFree<C>(ps: seq<Phase<C>>, i: nat, s: string)
    requires i <= |ps|
  {
    forall j :: 0 <= j < i && ps[j].inline ==> ps[j].entry != s
  }

  predicate InternalFree<C>(ps: seq<Phase<C>>, i: nat, s: string)
    requires i <= |ps|
  {
    forall j :: 0 <= j < i && ps[j].inline ==> s !in ps[j].internal
  }

  /** Internal state m of phase i: named, and not claimed by anything before it. */
  predicate InternalOk<C>(ps: seq<Phase<C>>, i: nat, m: nat)
    requires i < |ps| && m < |ps[i].internal|
  {
    var s := ps[i].internal[m];
    s != StateNone && s != ps[i].entry && EntryFree(ps, i, s) && InternalFree(ps, i, s) && s !in ps[i].internal[..m]
  }

  predicate InlineOk<C>(ps: seq<Phase<C>>, i: nat)
    requires i < |ps|
  {
    && ps[i].entry != StateNone && EntryFree(ps, i, ps[i].entry)
    && (forall m :: 0 <= m < |ps[i].internal| ==> InternalOk(ps, i, m))
    && (PrevInline(ps, i).Some? ==> ps[PrevInline(ps, i).value].exit == ps[i].entry)
  }

  predicate PhaseOk<C>(ps: seq<Phase<C>>, i: nat)
    requires i < |ps|
  {
    && ps[i].name != "" && (forall j :: 0 <= j < i ==> ps[j].name != ps[i].name)
    && Satisfied(ps[i].needs, Provided(ps, i))
    && (if ps[i].inline then InlineOk(ps, i) else ps[i].entry == StateNone && ps[i].exit == StateNone)
  }

  predicate WellFormed<C>(ps: seq<Phase<C>>) { ps != [] && forall i :: 0 <= i < |ps| ==> PhaseOk(ps, i) }

  /** The state tables Compose derives; phases are named by their place in the list. */
  datatype Tables = Tables(byEntry: map<string, nat>, byInternal: map<string, nat>, initial: string)

  ghost predicate EntryTable<C>(ps: seq<Phase<C>>, i: nat, t: map<string, nat>)
    requires i <= |ps|
  {
    && (forall s :: s in t ==> t[s] < i && ps[t[s]].inline && ps[t[s]].entry == s)
    && (forall j :: 0 <= j < i && ps[j].inline ==> ps[j].entry in t && t[ps[j].entry] == j)
  }

  ghost predicate InternalTable<C>(ps: seq<Phase<C>>, i: nat, t: map<string, nat>)
    requires i <= |ps|
  {
    && (forall s :: s in t ==> t[s] < i && ps[t[s]].inline && s in ps[t[s]].internal)
    && (forall j, m :: 0 <= j < i && ps[j].inline && 0 <= m < |ps[j].internal| ==> ps[j].internal[m] in t)
  }

  ghost predicate TablesOk<C>(ps: seq<Phase<C>>, t: Tables) {
    EntryTable(ps, |ps|, t.byEntry) && InternalTable(ps, |ps|, t.byInternal)
    && forall j :: 0 <= j < |ps| && ps[j].inline && PrevInline(ps, j).None? ==> t.initial == ps[j].entry
  }

  method AddInternal<C>(ps: seq<Phase<C>>, i: nat, byEntry: map<string, nat>, byInternal: map<string, nat>)
    returns (ok: bool, table: map<string, nat>)
    requires i < |ps| && ps[i].inline && EntryTable(ps, i + 1, byEntry) && InternalTable(ps, i, byInternal)
    requires EntryFree(ps, i, ps[i].entry)
    ensures ok <==> forall m :: 0 <= m < |ps[i].internal| ==> InternalOk(ps, i, m)
    ensures ok ==> InternalTable(ps, i + 1, table)
  {
    var subs := ps[i].internal;
    table := byInternal;
    for m := 0 to |subs|
      invariant forall k :: 0 <= k < m ==> InternalOk(ps, i, k)
      invariant forall s :: s in table <==> s in byInternal || s in subs[..m]
      invariant forall s :: s in table ==> table[s] == if s in subs[..m] then i else byInternal[s]
    {
      var s := subs[m];
      assert s in byEntry <==> s == ps[i].entry || !EntryFree(ps, i, s);
      assert s in byInternal <==> !InternalFree(ps, i, s);
      assert subs[..m + 1] == subs[..m] + [s];
      if s == StateNone { assert !InternalOk(ps, i, m); return false, table; }
      if s == ps[i].entry { assert !InternalOk(ps, i, m); return false, table; }
      if s in byEntry { assert !InternalOk(ps, i, m); return false, table; }
      if s in table { assert !InternalOk(ps, i, m); return false, table; }
      table := table[s := i];
    }
    assert subs[..|subs|] == subs;
    ok := true;
  }

  /** The checks on one inline phase: its states are its own, and it continues the chain. */
  method AddInline<C>(ps: seq<Phase<C>>, i: nat, byEntry: map<string, nat>, byInternal: map<string, nat>, prev: Option<nat>)
    returns (bad: Option<ComposeError>, entries: map<string, nat>, internals: map<string, nat>)
    requires i < |ps| && ps[i].inline && EntryTable(ps, i, byEntry) && InternalTable(ps, i, byInternal) && prev == PrevInline(ps, i)
    ensures bad.None? <==> InlineOk(ps, i)
    ensures bad.None? ==> EntryTable(ps, i + 1, entries) && InternalTable(ps, i + 1, internals)
  {
    var p := ps[i];
    entries, internals := byEntry, byInternal;
    if p.entry == StateNone { return Some(NoEntryState(i)), entries, internals; }
    if p.entry in byEntry { return Some(EntryStateTaken(i)), entries, internals; }
    entries := entries[p.entry := i];
    var ok;
    ok, internals := AddInternal(ps, i, entries, internals);
    if !ok { return Some(BadInternalState(i)), entries, internals; }
    if prev.Some? && ps[prev.value].exit != p.entry { return Some(NotConnected(i)), entries, internals; }
    bad := None;
  }

  /** What Compose has gathered from the first i phases. */
  datatype Progress = Progress(names: set<string>, provided: Schema, byEntry: map<string, nat>, byInternal: map<string, nat>,
                               initial: string, prev: Option<nat>)

  ghost predicate Gathered<C>(ps: seq<Phase<C>>, i: nat, g: Progress)
    requires i <= |ps|
  {
    && NamesUpTo(ps, i, g.names)
    && g.provided == Provided(ps, i) && g.prev == PrevInline(ps, i)
    && EntryTable(ps, i, g.byEntry) && InternalTable(ps, i, g.byInternal)
    && InitialUpTo(ps, i, g.initial)
  }

  ghost predicate NamesUpTo<C>(ps: seq<Phase<C>>, i: nat, names: set<string>)
    requires i <= |ps|
  {
    forall s :: s in names <==> exists j :: 0 <= j < i && ps[j].name == s
  }

  ghost predicate InitialUpTo<C>(ps: seq<Phase<C>>, i: nat, initial: string)
    requires i <= |ps|
  {
    forall j :: 0 <= j < i && ps[j].inline && PrevInline(ps, j).None? ==> initial == ps[j].entry
  }

  lemma NameTaken<C>(ps: seq<Phase<C>>, i: nat, names: set<string>)
    requires i < |ps| && NamesUpTo(ps, i, names)
    ensures ps[i].name in names <==> exists j :: 0 <= j < i && ps[j].name == ps[i].name
    ensures NamesUpTo(ps, i + 1, names + {ps[i].name})
  {
    forall s ensures s in names + {ps[i].name} <==> exists j :: 0 <= j < i + 1 && ps[j].name == s {
      if s == ps[i].name { assert ps[i].name == s; }
    }
  }

  /** Everything one accepted phase declares is recorded. */
  lemma GatheredNext<C>(ps: seq<Phase<C>>, i: nat, g: Progress, h: Progress)
    requires i < |ps| && Gathered(ps, i, g)
    requires h.names == g.names + {ps[i].name} && h.provided == g.provided + ps[i].offers
    requires if ps[i].inline then
        EntryTable(ps, i + 1, h.byEntry) && InternalTable(ps, i + 1, h.byInternal)
        && h.initial == (if g.prev.None? then ps[i].entry else g.initial) && h.prev == Some(i)
      else h.byEntry == g.byEntry && h.byInternal == g.byInternal && h.initial == g.initial && h.prev == g.prev
    ensures Gathered(ps, i + 1, h)
  {
    NameTaken(ps, i, g.names);
    assert InitialUpTo(ps, i + 1, h.initial) by { InitialNext(ps, i, g.initial, h.initial); }
  }

  lemma InitialNext<C>(ps: seq<Phase<C>>, i: nat, was: string, now: string)
    requires i < |ps| && InitialUpTo(ps, i, was)
    requires now == if ps[i].inline && PrevInline(ps, i).None? then ps[i].entry else was
    ensures InitialUpTo(ps, i + 1, now)
  {
    forall j | 0 <= j < i + 1 && ps[j].inline && PrevInline(ps, j).None? ensures now == ps[j].entry {
      if j < i { assert was == ps[j].entry; }
    }
  }

  /** One turn of the loop: the phase is refused, or everything it declares is recorded. */
  method AddPhase<C>(ps: seq<Phase<C>>, i: nat, g: Progress) returns (bad: Option<ComposeError>, h: Progress)
    requires i < |ps| && Gathered(ps, i, g)
    ensures bad.None? <==> PhaseOk(ps, i)
    ensures bad.None? ==> Gathered(ps, i + 1, h)
  {
    var p := ps[i];
    h := g;
    NameTaken(ps, i, g.names);
    if p.name == "" { return Some(EmptyName(i)), h; }
    if p.name in g.names { return Some(DuplicateName(i)), h; }
    h := h.(names := g.names + {p.name});
    var ok := ValidateRequires(p.needs, g.provided);
    if !ok { return Some(Unsatisfied(i)), h; }
    h := h.(provided := g.provided + p.offers);
    if p.inline {
      var entries, internals;
      bad, entries, internals := AddInline(ps, i, g.byEntry, g.byInternal, g.prev);
      if bad.Some? { return; }
      h := h.(byEntry := entries, byInternal := internals, initial := if g.prev.None? then p.entry else g.initial, prev := Some(i));
    } else if p.entry != StateNone || p.exit != StateNone {
      return Some(StrayState(i)), h;
    }
    GatheredNext(ps, i, g, h);
    bad := None;
  }

  /** Validates a phase list and derives its state machine. */
  method Compose<C>(ps: seq<Phase<C>>) returns (r: Result<Tables, ComposeError>)
    ensures r.Ok? <==> WellFormed(ps)
    ensures r.Ok? ==> TablesOk(ps, r.value)
  {
    if |ps| == 0 { return Err(NoPhases); }
    var g := Progress({}, map[], map[], map[], StateNone, None);
    NothingGathered(ps);
    for i := 0 to |ps|
      invariant AllOk(ps, i) && Gathered(ps, i, g)
    {
      var bad;
      bad, g := AddPhase(ps, i, g);
      if bad.Some? { return Err(bad.value); }
      OneMoreOk(ps, i);
    }
    GatheredAll(ps, |ps|, g);
    return Ok(Tables(g.byEntry, g.byInternal, g.initial));
  }

  ghost predicate AllOk<C>(ps: seq<Phase<C>>, i: nat)
    requires i <= |ps|
  {
    forall j :: 0 <= j < i ==> PhaseOk(ps, j)
  }

  lemma OneMoreOk<C>(ps: seq<Phase<C>>, i: nat)
    requires i < |ps| && AllOk(ps, i) && PhaseOk(ps, i)
    ensures AllOk(ps, i + 1)
  {}

  lemma GatheredAll<C>(ps: seq<Phase<C>>, i: nat, g: Progress)
    requires i == |ps| && Gathered(ps, i, g)
    ensures TablesOk(ps, Tables(g.byEntry, g.byInternal, g.initial))
  {}

  lemma NothingGathered<C>(ps: seq<Phase<C>>)
    ensures Gathered(ps, 0, Progress({}, map[], map[], map[], StateNone, None))
  {}

  // ---- what an accepted list guarantees --------------------------------------------------

  lemma {:induction false} ProviderOf<C>(ps: seq<Phase<C>>, i: nat, key: string) returns (j: nat)
    requires i <= |ps| && key in Provided(ps, i)
    ensures j < i && key in ps[j].offers && Provided(ps, i)[key] == ps[j].offers[key]
    ensures forall k :: j < k < i ==> key !in ps[k].offers
  {
    if key in ps[i - 1].offers { return i - 1; }
    j := ProviderOf(ps, i - 1, key);
  }

  /** Every required key has an earlier provider, and the latest one fits it in type and constraints. */
  lemma RequiredHasProvider<C>(ps: seq<Phase<C>>, i: nat, key: string) returns (j: nat)
    requires WellFormed(ps) && i < |ps| && key in ps[i].needs && ps[i].needs[key].required
    ensures j < i && key in ps[j].offers && Fits(ps[i].needs[key], ps[j].offers[key])
    ensures forall k :: j < k < i ==> key !in ps[k].offers
  {
    assert PhaseOk(ps, i);
    assert KeyOk(key, ps[i].needs[key], Provided(ps, i));
    j := ProviderOf(ps, i, key);
  }

  /** The next inline phase after i. */
  function NextInline<C>(ps: seq<Phase<C>>, i: nat): (n: Option<nat>)
    requires i < |ps|
    ensures n.Some? ==> i < n.value < |ps| && ps[n.value].inline && forall j :: i < j < n.value ==> !ps[j].inline
    ensures n.None? ==> forall j :: i < j < |ps| ==> !ps[j].inline
    decreases |ps| - i
  {
    if i + 1 == |ps| then None else if ps[i + 1].inline then Some(i + 1) else NextInline(ps, i + 1)
  }

  lemma NextThenPrev<C>(ps: seq<Phase<C>>, i: nat)
    requires i < |ps| && ps[i].inline && NextInline(ps, i).Some?
    ensures PrevInline(ps, NextInline(ps, i).value) == Some(i)
  {}

  /** The exit of an inline phase leads to the next inline phase and to no other. */
  lemma ExitLeadsOn<C>(ps: seq<Phase<C>>, t: Tables, i: nat)
    requires WellFormed(ps) && TablesOk(ps, t) && i < |ps| && ps[i].inline && NextInline(ps, i).Some?
    ensures ps[i].exit != StateNone && ps[i].exit in t.byEntry && t.byEntry[ps[i].exit] == NextInline(ps, i).value
  {
    NextThenPrev(ps, i);
    assert PhaseOk(ps, NextInline(ps, i).value);
  }

  // ---- constraints, by name ---------------------------------------------------------------

  /** A constraint "k_min" asks for a provided number k that is at least as large. */
  lemma MinimumMeans(k: string, want: Value, got: map<string, Value>)
    requires k != ""
    ensures ConstraintsOk(map[k + "_min" := want], got) <==>
      k in got && got[k].number.Some? && want.number.Some? && want.number.value <= got[k].number.value
  {
    var c, m := k + "_min", map[k + "_min" := want];
    assert c[|c| - 4..] == "_min" && c[..|c| - 4] == k;
    assert c in m;
  }

  lemma MinimumNames(c: string)
    ensures IsMinimum(c) ==> exists k :: k != "" && c == k + "_min"
  {
    if IsMinimum(c) { assert c == c[..|c| - 4] + "_min"; }
  }

  /** Any other named constraint asks for a provided value that prints alike. */
  lemma EqualityMeans(c: string, want: Value, got: map<string, Value>)
    requires c != "" && !exists k :: k != "" && c == k + "_min"
    ensures ConstraintsOk(map[c := want], got) <==> c in got && got[c].shown == want.shown
  {
    MinimumNames(c);
    assert c in map[c := want];
  }

  // ---- who owns a state --------------------------------------------------------------------

  /** The phase claims the state, as its entry state or as one of its internal states. */
  ghost predicate Claims<C>(ps: seq<Phase<C>>, j: nat, s: string) {
    j < |ps| && ps[j].inline && (s == ps[j].entry || s in ps[j].internal)
  }

  function PhaseFor(t: Tables, s: string): Option<nat> {
    if s in t.byEntry then Some(t.byEntry[s]) else if s in t.byInternal then Some(t.byInternal[s]) else None
  }

  /** The phase that owns a state is one that claims it; there is none only when nobody does. */
  lemma OwnerClaims<C>(ps: seq<Phase<C>>, t: Tables, s: string)
    requires WellFormed(ps) && TablesOk(ps, t)
    ensures var p := PhaseFor(t, s); if p.Some? then Claims(ps, p.value, s) else forall j: nat :: !Claims(ps, j, s)
  {
    forall j: nat | j < |ps| && ps[j].inline ensures s in ps[j].internal ==> s in t.byInternal {
      if s in ps[j].internal { var m :| 0 <= m < |ps[j].internal| && ps[j].internal[m] == s; }
    }
  }

  /** A later phase may enter the very state that an earlier one declares internal. */
  ghost predicate Clashes<C>(ps: seq<Phase<C>>, j: nat, k: nat, s: string) {
    j < k < |ps| && ps[j].inline && ps[k].inline && s in ps[j].internal && s == ps[k].entry
  }

  /** In an accepted list that is the only way two phases can claim one state. */
  lemma OnlyClash<C>(ps: seq<Phase<C>>, j: nat, k: nat, s: string)
    requires WellFormed(ps) && j < k
    ensures Claims(ps, j, s) && Claims(ps, k, s) <==> Clashes(ps, j, k, s)
  {
    if k < |ps| {
      assert PhaseOk(ps, k);
      forall m | 0 <= m < |ps[k].internal| && ps[k].inline ensures !Claims(ps, j, ps[k].internal[m]) {
        assert InternalOk(ps, k, m);
      }
    }
  }

  /** The lookup finds a phase that claims the state exactly when no later phase enters what it declares internal. */
  lemma LookupFindsItIff<C>(ps: seq<Phase<C>>, t: Tables, j: nat, s: string)
    requires WellFormed(ps) && TablesOk(ps, t) && Claims(ps, j, s)
    ensures PhaseFor(t, s) == Some(j) <==> forall k: nat :: !Clashes(ps, j, k, s)
  {
    OwnerClaims(ps, t, s);
    var p := PhaseFor(t, s).value;
    if p != j { OtherOwnerClashes(ps, t, j, p, s); }
    forall k: nat | Clashes(ps, j, k, s) ensures PhaseFor(t, s) == Some(k) { EntryWins(ps, t, k, s); }
  }

  lemma EntryWins<C>(ps: seq<Phase<C>>, t: Tables, k: nat, s: string)
    requires TablesOk(ps, t) && k < |ps| && ps[k].inline && s == ps[k].entry
    ensures PhaseFor(t, s) == Some(k)
  {}

  lemma OtherOwnerClashes<C>(ps: seq<Phase<C>>, t: Tables, j: nat, p: nat, s: string)
    requires WellFormed(ps) && TablesOk(ps, t) && PhaseFor(t, s) == Some(p) && p != j && Claims(ps, p, s) && Claims(ps, j, s)
    ensures Clashes(ps, j, p, s)
  {
    if j < p { OnlyClash(ps, j, p, s); } else { OnlyClash(ps, p, j, s); EntryWins(ps, t, j, s); }
  }

  /** Compose accepts such a list: the second phase's entry state is internal to the first. */
  lemma ClashIsAccepted(ps: seq<Phase<int>>)
    requires ps == [
      Phase("first", true, "a", "b", ["b"], [], map[], map[], c => Done(c), (c, msg) => Done(c), c => true, c => Done(c)),
      Phase("second", true, "b", StateNone, [], [], map[], map[], c => Done(c), (c, msg) => Done(c), c => true, c => Done(c))]
    ensures WellFormed(ps) && Clashes(ps, 0, 1, "b")
  {
    assert ps[0].internal[0] == "b";
    assert PrevInline(ps, 1) == Some(0);
    assert PhaseOk(ps, 0) && PhaseOk(ps, 1);
  }
}

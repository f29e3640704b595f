/**
 * The lineage hooks of the runner (pkg/ares/phase/runner_lineage.go): verify before dispatch, commit after
 * Exit. The store is the append log that module Store proves its two indexes to be.
 */
module RunnerLineage {
  import opened Wrappers
  import opened Sequences
  import opened Lineage
  import opened Store
  import opened Pipeline
  import opened Runner

  /** A context entry: a byte slice, which lineage commits, or any other value, which it skips. */
  datatype Entry = Raw(bytes: Bytes) | Opaque

  /** What hooks and commits act on: a session's context and the store it shares. */
  datatype World = World(session: Bytes, values: map<string, Entry>, log: seq<Node>)

  /** `keys` is the order in which a map's keys happen to be visited. */
  datatype Config = Config(sha: Sha, signer: Signer, verifiers: map<string, Verifier>,
                           keys: Schema -> seq<string>, encode: string -> Bytes)

  /** Appending is idempotent: a node whose hash is present is not stored again. */
  function Appended(log: seq<Node>, node: Node): seq<Node> { if HasHash(log, node.hash) then log else log + [node] }

  // ---- committing a phase's outputs ----------------------------------------------------

  function FindPayload(nodes: seq<Node>, hash: NodeRef): Option<Node> {
    if nodes == [] then None else if nodes[0].payloadHash == hash then Some(nodes[0]) else FindPayload(nodes[1..], hash)
  }

  /** The node behind one required input, when its bytes have one in this session. */
  function ParentOf(cfg: Config, w: World, key: string): Option<Node> {
    if key in w.values && w.values[key].Raw? then FindPayload(OfSession(w.log, w.session), cfg.sha(w.values[key].bytes)) else None
  }

  function ParentsOf(cfg: Config, w: World, keys: seq<string>): seq<Node> {
    if keys == [] then [] else
      var n := |keys| - 1;
      ParentsOf(cfg, w, keys[..n]) + (var p := ParentOf(cfg, w, keys[n]); if p.Some? then [p.value] else [])
  }

  /** Does this output get a node of its own? */
  predicate Commits(offers: Schema, values: map<string, Entry>, key: string) {
    key in offers && !offers[key].noLineage && key in values && values[key].Raw?
  }

  function CommitKey(cfg: Config, phase: string, offers: Schema, parents: seq<Node>, key: string, w: World, log: seq<Node>): Hook<World> {
    if !Commits(offers, w.values, key) then Done(w.(log := log)) else
      var node := Committed(cfg.sha, w.session, cfg.encode(phase), cfg.encode(key), w.values[key].bytes, parents, Some(cfg.signer));
      if node.Err? then Failed(w.(log := log)) else Done(w.(log := Appended(log, node.value)))
  }

  /** Outputs k and up, committed in turn on top of a log. */
  function CommitEach(cfg: Config, phase: string, offers: Schema, parents: seq<Node>, keys: seq<string>, k: nat, w: World, log: seq<Node>): Hook<World>
    requires k <= |keys|
    decreases |keys| - k
  {
    if k == |keys| then Done(w.(log := log)) else
      var h := CommitKey(cfg, phase, offers, parents, keys[k], w, log);
      if h.Failed? then h else CommitEach(cfg, phase, offers, parents, keys, k + 1, w, h.ctx.log)
  }

  function CommitOutputs(cfg: Config, phase: string, needs: Schema, offers: Schema, w: World): Hook<World> {
    CommitEach(cfg, phase, offers, ParentsOf(cfg, w, cfg.keys(needs)), cfg.keys(offers), 0, w, w.log)
  }

  /** The parents of a phase's outputs, looked up in the store itself. */
  method ResolveParents(cfg: Config, needs: Schema, w: World, store: InMemoryStore) returns (parents: seq<Node>)
    requires store.Valid() && store.log == w.log
    ensures parents == ParentsOf(cfg, w, cfg.keys(needs))
  {
    var keys := cfg.keys(needs);
    parents := [];
    for k := 0 to |keys|
      invariant parents == ParentsOf(cfg, w, keys[..k])
    {
      assert keys[..k + 1][..k] == keys[..k];
      if keys[k] in w.values && w.values[keys[k]].Raw? {
        var hash := cfg.sha(w.values[keys[k]].bytes);
        var nodes := store.WalkSession(w.session);
        var i := 0;
        while i < |nodes| && nodes[i].payloadHash != hash
          invariant 0 <= i <= |nodes| && FindPayload(nodes, hash) == FindPayload(nodes[i..], hash)
        {
          assert nodes[i..][1..] == nodes[i + 1..];
          i := i + 1;
        }
        if i < |nodes| { parents := parents + [nodes[i]]; }
      }
    }
    assert keys[..|keys|] == keys;
  }

  /** One output: committed and stored, skipped, or refused by the signer. */
  method CommitOne(cfg: Config, phase: string, offers: Schema, parents: seq<Node>, key: string, w: World, store: InMemoryStore)
    returns (ok: bool)
    requires store.Valid()
    modifies store
    ensures store.Valid()
    ensures var h := CommitKey(cfg, phase, offers, parents, key, w, old(store.log)); ok == h.Done? && store.log == h.ctx.log
  {
    if !Commits(offers, w.values, key) { return true; }
    var node := Commit(cfg.sha, w.session, cfg.encode(phase), cfg.encode(key), w.values[key].bytes, parents, Some(cfg.signer));
    if node.Err? { return false; }
    var r := store.Append(node.value);
    return true;
  }

  /** After Exit: one node per committed output, all with the same parents. */
  method CommitPhaseOutputs(cfg: Config, phase: string, needs: Schema, offers: Schema, w: World, store: InMemoryStore)
    returns (ok: bool)
    requires store.Valid() && store.log == w.log
    modifies store
    ensures store.Valid() && ok == CommitOutputs(cfg, phase, needs, offers, w).Done?
    ensures store.log == CommitOutputs(cfg, phase, needs, offers, w).ctx.log
  {
    var parents := ResolveParents(cfg, needs, w, store);
    var keys := cfg.keys(offers);
    ghost var all := CommitOutputs(cfg, phase, needs, offers, w);
    for k := 0 to |keys|
      invariant store.Valid() && all == CommitEach(cfg, phase, offers, parents, keys, k, w, store.log)
    {
      ok := CommitOne(cfg, phase, offers, parents, keys[k], w, store);
      if !ok { return; }
    }
    return true;
  }

  // ---- the order of the log ---------------------------------------------------------------

  /** Every parent was appended strictly before its child: append order is a topological order. */
  ghost predicate ParentsFirst(log: seq<Node>) {
    forall i :: 0 <= i < |log| ==> AllPresent(log[..i], log[i].parents)
  }

  predicate AllPresent(log: seq<Node>, refs: seq<NodeRef>) { forall k :: 0 <= k < |refs| ==> HasHash(log, refs[k]) }

  ghost predicate LogOk(log: seq<Node>) { DistinctHashes(log) && ParentsFirst(log) }

  lemma AppendKeepsOrder(log: seq<Node>, node: Node)
    requires LogOk(log) && AllPresent(log, node.parents)
    ensures LogOk(Appended(log, node)) && log <= Appended(log, node)
  {
    var next := Appended(log, node);
    forall i | 0 <= i < |next| ensures AllPresent(next[..i], next[i].parents) {
      if i < |log| { assert next[..i] == log[..i] && next[i] == log[i]; } else { assert next[..i] == log; }
    }
  }

  /**
   * Appending itself checks no parents: it keeps the order exactly when the node is known already or its
   * parents are all there. Only the runner's own check, before it appends, makes that so.
   */
  lemma AppendOrderIff(log: seq<Node>, node: Node)
    requires LogOk(log)
    ensures LogOk(Appended(log, node)) <==> HasHash(log, node.hash) || AllPresent(log, node.parents)
  {
    if !HasHash(log, node.hash) {
      var next := Appended(log, node);
      assert next[|log|] == node && next[..|log|] == log;
      if AllPresent(log, node.parents) { AppendKeepsOrder(log, node); }
    }
  }

  /** A node with an unknown parent, appended to the empty store, breaks the order. */
  lemma OrphanBreaksOrder(hash: NodeRef, parent: NodeRef, payloadHash: NodeRef)
    ensures LogOk([]) && !LogOk(Appended([], Node(hash, [], [], [], [parent], [[]], payloadHash, [], [], "")))
  {
    var node := Node(hash, [], [], [], [parent], [[]], payloadHash, [], [], "");
    assert node.parents[0] == parent && !HasHash([], node.parents[0]);
    AppendOrderIff([], node);
  }

  lemma {:induction false} FoundIsThere(nodes: seq<Node>, hash: NodeRef)
    ensures var n := FindPayload(nodes, hash); n.Some? ==> n.value in nodes && n.value.payloadHash == hash
  {
    if nodes != [] { FoundIsThere(nodes[1..], hash); }
  }

  lemma {:induction false} ParentsAreLogged(cfg: Config, w: World, keys: seq<string>)
    ensures forall k :: 0 <= k < |ParentsOf(cfg, w, keys)| ==> ParentsOf(cfg, w, keys)[k] in w.log
  {
    if keys == [] { return; }
    var n := |keys| - 1;
    ParentsAreLogged(cfg, w, keys[..n]);
    if keys[n] in w.values && w.values[keys[n]].Raw? {
      FoundIsThere(OfSession(w.log, w.session), cfg.sha(w.values[keys[n]].bytes));
      SessionNodesAreLogged(w.log, w.session);
    }
  }

  /** A committed node's parents are exactly nodes it was given. */
  lemma CommittedParents(cfg: Config, session: Bytes, phase: Bytes, role: Bytes, payload: Bytes, parents: seq<Node>, log: seq<Node>)
    requires forall k :: 0 <= k < |parents| ==> parents[k] in log
    ensures var r := Committed(cfg.sha, session, phase, role, payload, parents, Some(cfg.signer));
      r.Ok? ==> AllPresent(log, r.value.parents)
  {
    var r := Committed(cfg.sha, session, phase, role, payload, parents, Some(cfg.signer));
    if r.Err? { return; }
    var ps := Paired(Hashes(parents), RolesOf(parents));
    CommitShape(cfg.sha, session, phase, role, payload, parents, cfg.signer);
    SortedRefs(ps);
    assert Refs(ps) == Hashes(parents);
    forall k | 0 <= k < |r.value.parents| ensures HasHash(log, r.value.parents[k]) {
      assert r.value.parents[k] in multiset(Hashes(parents));
      var j :| 0 <= j < |parents| && parents[j].hash == r.value.parents[k];
      var i :| 0 <= i < |log| && log[i] == parents[j];
    }
  }

  lemma {:induction false} CommitsKeepOrder(cfg: Config, phase: string, offers: Schema, parents: seq<Node>, keys: seq<string>, k: nat, w: World, log: seq<Node>)
    requires k <= |keys| && LogOk(log) && w.log <= log && forall j :: 0 <= j < |parents| ==> parents[j] in w.log
    ensures var h := CommitEach(cfg, phase, offers, parents, keys, k, w, log); LogOk(h.ctx.log) && w.log <= h.ctx.log
    decreases |keys| - k
  {
    if k < |keys| {
      KeyKeepsOrder(cfg, phase, offers, parents, keys[k], w, log);
      CommitsKeepOrder(cfg, phase, offers, parents, keys, k + 1, w, CommitKey(cfg, phase, offers, parents, keys[k], w, log).ctx.log);
    }
  }

  lemma KeyKeepsOrder(cfg: Config, phase: string, offers: Schema, parents: seq<Node>, key: string, w: World, log: seq<Node>)
    requires LogOk(log) && w.log <= log && forall k :: 0 <= k < |parents| ==> parents[k] in w.log
    ensures var h := CommitKey(cfg, phase, offers, parents, key, w, log);
      LogOk(h.ctx.log) && w.log <= h.ctx.log && h.ctx == w.(log := h.ctx.log)
  {
    if Commits(offers, w.values, key) {
      assert forall k :: 0 <= k < |parents| ==> parents[k] in log;
      CommittedParents(cfg, w.session, cfg.encode(phase), cfg.encode(key), w.values[key].bytes, parents, log);
      var node := Committed(cfg.sha, w.session, cfg.encode(phase), cfg.encode(key), w.values[key].bytes, parents, Some(cfg.signer));
      if node.Ok? { AppendKeepsOrder(log, node.value); }
    }
  }

  /** Auto-commit keeps the log in topological order and only adds to it. */
  lemma OutputsKeepOrder(cfg: Config, phase: string, needs: Schema, offers: Schema, w: World)
    requires LogOk(w.log)
    ensures var h := CommitOutputs(cfg, phase, needs, offers, w); LogOk(h.ctx.log) && w.log <= h.ctx.log
  {
    ParentsAreLogged(cfg, w, cfg.keys(needs));
    CommitsKeepOrder(cfg, phase, offers, ParentsOf(cfg, w, cfg.keys(needs)), cfg.keys(offers), 0, w, w.log);
  }

  // ---- exactly which outputs are committed -----------------------------------------------------

  /** A declared output that holds bytes and is not marked to stay out of the lineage. */
  ghost predicate Due(offers: Schema, w: World, key: string) {
    key in offers && offers[key].noLineage == false && key in w.values && w.values[key].Raw?
  }

  /** The node of a due output: its bytes, under its key, signed by this runner. */
  ghost predicate IsOutput(cfg: Config, phase: string, offers: Schema, parents: seq<Node>, w: World, key: string, n: Node) {
    Due(offers, w, key)
    && Committed(cfg.sha, w.session, cfg.encode(phase), cfg.encode(key), w.values[key].bytes, parents, Some(cfg.signer)) == Ok(n)
  }

  ghost predicate Recorded(cfg: Config, phase: string, offers: Schema, parents: seq<Node>, w: World, key: string, log: seq<Node>) {
    exists n :: IsOutput(cfg, phase, offers, parents, w, key, n) && HasHash(log, n.hash)
  }

  /** The node belongs to one of these outputs. */
  ghost predicate FromKeys(cfg: Config, phase: string, offers: Schema, parents: seq<Node>, w: World, keys: seq<string>, n: Node) {
    exists key :: key in keys && IsOutput(cfg, phase, offers, parents, w, key, n)
  }

  /** Each due output has its node, and everything past `base` is one of those nodes. */
  ghost predicate CommitsExactly(cfg: Config, phase: string, offers: Schema, parents: seq<Node>, w: World, keys: seq<string>,
                                 base: seq<Node>, log: seq<Node>) {
    && base <= log
    && (forall key :: key in keys && Due(offers, w, key) ==> Recorded(cfg, phase, offers, parents, w, key, log))
    && (forall i :: |base| <= i < |log| ==> FromKeys(cfg, phase, offers, parents, w, keys, log[i]))
  }

  lemma FromMoreKeys(cfg: Config, phase: string, offers: Schema, parents: seq<Node>, w: World, keys: seq<string>, key: string, n: Node)
    requires FromKeys(cfg, phase, offers, parents, w, keys, n) || IsOutput(cfg, phase, offers, parents, w, key, n)
    ensures FromKeys(cfg, phase, offers, parents, w, keys + [key], n)
  {
    if FromKeys(cfg, phase, offers, parents, w, keys, n) {
      var other :| other in keys && IsOutput(cfg, phase, offers, parents, w, other, n);
      assert other in keys + [key];
    } else {
      assert key in keys + [key];
    }
  }

  lemma HashStays(log: seq<Node>, node: Node, h: NodeRef)
    requires HasHash(log, h) || h == node.hash
    ensures HasHash(Appended(log, node), h)
  {
    if HasHash(log, h) {
      var i :| 0 <= i < |log| && log[i].hash == h;
      assert Appended(log, node)[i].hash == h;
    } else {
      assert Appended(log, node)[|log|].hash == h;
    }
  }

  lemma RecordStays(cfg: Config, phase: string, offers: Schema, parents: seq<Node>, w: World, key: string, log: seq<Node>, node: Node)
    requires Recorded(cfg, phase, offers, parents, w, key, log)
    ensures Recorded(cfg, phase, offers, parents, w, key, Appended(log, node))
  {
    var n :| IsOutput(cfg, phase, offers, parents, w, key, n) && HasHash(log, n.hash);
    HashStays(log, node, n.hash);
  }

  lemma OneMoreOutput(cfg: Config, phase: string, offers: Schema, parents: seq<Node>, w: World, keys: seq<string>, key: string, node: Node,
                      base: seq<Node>, log: seq<Node>)
    requires CommitsExactly(cfg, phase, offers, parents, w, keys, base, log) && IsOutput(cfg, phase, offers, parents, w, key, node)
    ensures CommitsExactly(cfg, phase, offers, parents, w, keys + [key], base, Appended(log, node))
  {
    var now := Appended(log, node);
    forall k | k in keys + [key] && Due(offers, w, k) ensures Recorded(cfg, phase, offers, parents, w, k, now) {
      if k in keys { RecordStays(cfg, phase, offers, parents, w, k, log, node); } else { HashStays(log, node, node.hash); }
    }
    forall i | |base| <= i < |now| ensures FromKeys(cfg, phase, offers, parents, w, keys + [key], now[i]) {
      FromMoreKeys(cfg, phase, offers, parents, w, keys, key, now[i]);
    }
  }

  lemma OneMoreKey(cfg: Config, phase: string, offers: Schema, parents: seq<Node>, w: World, keys: seq<string>, key: string,
                   base: seq<Node>, log: seq<Node>)
    requires CommitsExactly(cfg, phase, offers, parents, w, keys, base, log)
    ensures var h := CommitKey(cfg, phase, offers, parents, key, w, log);
      h.Done? ==> CommitsExactly(cfg, phase, offers, parents, w, keys + [key], base, h.ctx.log)
  {
    if Due(offers, w, key) {
      var node := Committed(cfg.sha, w.session, cfg.encode(phase), cfg.encode(key), w.values[key].bytes, parents, Some(cfg.signer));
      if node.Ok? { OneMoreOutput(cfg, phase, offers, parents, w, keys, key, node.value, base, log); }
    } else {
      forall i | |base| <= i < |log| ensures FromKeys(cfg, phase, offers, parents, w, keys + [key], log[i]) {
        FromMoreKeys(cfg, phase, offers, parents, w, keys, key, log[i]);
      }
    }
  }

  lemma {:induction false} EachIsCommitted(cfg: Config, phase: string, offers: Schema, parents: seq<Node>, keys: seq<string>, k: nat, w: World,
                                           base: seq<Node>, log: seq<Node>)
    requires k <= |keys| && CommitsExactly(cfg, phase, offers, parents, w, keys[..k], base, log)
    ensures var h := CommitEach(cfg, phase, offers, parents, keys, k, w, log);
      h.Done? ==> CommitsExactly(cfg, phase, offers, parents, w, keys, base, h.ctx.log)
    decreases |keys| - k
  {
    if k == |keys| { assert keys[..k] == keys; return; }
    OneMoreKey(cfg, phase, offers, parents, w, keys[..k], keys[k], base, log);
    assert keys[..k + 1] == keys[..k] + [keys[k]];
    var h := CommitKey(cfg, phase, offers, parents, keys[k], w, log);
    if h.Done? { EachIsCommitted(cfg, phase, offers, parents, keys, k + 1, w, base, h.ctx.log); }
  }

  /** Every key of the map is visited. */
  ghost predicate VisitsAll(cfg: Config, schema: Schema) { forall key :: key in schema ==> key in cfg.keys(schema) }

  /**
   * After a commit without an error, each byte output that is not marked NoLineage has its node in the store, and
   * nothing else was added.
   */
  lemma CommitIsExact(cfg: Config, phase: string, needs: Schema, offers: Schema, w: World)
    requires VisitsAll(cfg, offers)
    ensures var h, parents := CommitOutputs(cfg, phase, needs, offers, w), ParentsOf(cfg, w, cfg.keys(needs));
      h.Done? ==>
        && w.log <= h.ctx.log
        && (forall key :: Due(offers, w, key) ==> Recorded(cfg, phase, offers, parents, w, key, h.ctx.log))
        && (forall i :: |w.log| <= i < |h.ctx.log| ==> FromKeys(cfg, phase, offers, parents, w, cfg.keys(offers), h.ctx.log[i]))
  {
    var keys, parents := cfg.keys(offers), ParentsOf(cfg, w, cfg.keys(needs));
    assert CommitsExactly(cfg, phase, offers, parents, w, keys[..0], w.log, w.log);
    EachIsCommitted(cfg, phase, offers, parents, keys, 0, w, w.log, w.log);
    assert forall key :: Due(offers, w, key) ==> key in keys;
  }

  /** A logged node of this session over the bytes of this input. */
  ghost predicate IsInput(cfg: Config, w: World, key: string, n: Node) {
    key in w.values && w.values[key].Raw? && n in w.log && n.session == w.session && n.payloadHash == cfg.sha(w.values[key].bytes)
  }

  lemma {:induction false} NotFoundIsNotThere(nodes: seq<Node>, hash: NodeRef)
    ensures FindPayload(nodes, hash).None? ==> forall n :: n in nodes ==> n.payloadHash != hash
  {
    if nodes != [] { NotFoundIsNotThere(nodes[1..], hash); assert nodes == [nodes[0]] + nodes[1..]; }
  }

  lemma ParentIsInput(cfg: Config, w: World, key: string)
    ensures var p := ParentOf(cfg, w, key);
      if p.Some? then IsInput(cfg, w, key, p.value) else forall n :: !IsInput(cfg, w, key, n)
  {
    if key in w.values && w.values[key].Raw? {
      var hash := cfg.sha(w.values[key].bytes);
      FoundIsThere(OfSession(w.log, w.session), hash);
      NotFoundIsNotThere(OfSession(w.log, w.session), hash);
      SessionNodesAreLogged(w.log, w.session);
    }
  }

  ghost predicate OfSome(cfg: Config, w: World, keys: seq<string>, n: Node) { exists key :: key in keys && IsInput(cfg, w, key, n) }
  ghost predicate HasOne(cfg: Config, w: World, key: string, ps: seq<Node>) { exists m :: m in ps && IsInput(cfg, w, key, m) }

  lemma {:induction false} ParentsAreOfInputs(cfg: Config, w: World, keys: seq<string>, n: Node)
    requires n in ParentsOf(cfg, w, keys)
    ensures OfSome(cfg, w, keys, n)
    decreases |keys|
  {
    var z := |keys| - 1;
    if n in ParentsOf(cfg, w, keys[..z]) {
      ParentsAreOfInputs(cfg, w, keys[..z], n);
      var key :| key in keys[..z] && IsInput(cfg, w, key, n);
      assert key in keys;
    } else {
      ParentIsInput(cfg, w, keys[z]);
      assert keys[z] in keys;
    }
  }

  lemma {:induction false} InputsHaveParents(cfg: Config, w: World, keys: seq<string>, key: string, n: Node)
    requires key in keys && IsInput(cfg, w, key, n)
    ensures HasOne(cfg, w, key, ParentsOf(cfg, w, keys))
    decreases |keys|
  {
    var z := |keys| - 1;
    var before, all := ParentsOf(cfg, w, keys[..z]), ParentsOf(cfg, w, keys);
    if key in keys[..z] {
      InputsHaveParents(cfg, w, keys[..z], key, n);
      var m :| m in before && IsInput(cfg, w, key, m);
      assert m in all;
    } else {
      ParentIsInput(cfg, w, key);
      assert ParentOf(cfg, w, key).value in all;
    }
  }

  /** The parents of a phase's outputs are nodes of its inputs, and every input that has a node has one among them. */
  lemma ParentsAreInputs(cfg: Config, w: World, keys: seq<string>)
    ensures forall n :: n in ParentsOf(cfg, w, keys) ==> OfSome(cfg, w, keys, n)
    ensures forall key, n :: key in keys && IsInput(cfg, w, key, n) ==> HasOne(cfg, w, key, ParentsOf(cfg, w, keys))
  {
    forall n | n in ParentsOf(cfg, w, keys) ensures OfSome(cfg, w, keys, n) { ParentsAreOfInputs(cfg, w, keys, n); }
    forall key, n | key in keys && IsInput(cfg, w, key, n) ensures HasOne(cfg, w, key, ParentsOf(cfg, w, keys)) {
      InputsHaveParents(cfg, w, keys, key, n);
    }
  }

  // ---- where the nodes come from -------------------------------------------------------------

  /** Some payload is behind the node, and either the runner signed it or its registered verifier accepts it. */
  ghost predicate Genuine(cfg: Config, node: Node) {
    (exists payload :: Describes(cfg.sha, node, payload)) && (SignedBy(node, cfg.signer) || Attested(node, cfg.verifiers))
  }

  ghost predicate AllGenuine(cfg: Config, log: seq<Node>) { forall i :: 0 <= i < |log| ==> Genuine(cfg, log[i]) }

  lemma AppendKeepsGenuine(cfg: Config, log: seq<Node>, node: Node)
    requires AllGenuine(cfg, log) && Genuine(cfg, node)
    ensures AllGenuine(cfg, Appended(log, node))
  {}

  lemma CommittedIsGenuine(cfg: Config, session: Bytes, phase: Bytes, role: Bytes, payload: Bytes, parents: seq<Node>)
    ensures var r := Committed(cfg.sha, session, phase, role, payload, parents, Some(cfg.signer));
      r.Ok? ==> Genuine(cfg, r.value)
  {
    CommitShape(cfg.sha, session, phase, role, payload, parents, cfg.signer);
    var r := Committed(cfg.sha, session, phase, role, payload, parents, Some(cfg.signer));
    if r.Ok? { assert Describes(cfg.sha, r.value, payload); }
  }

  lemma KeyKeepsGenuine(cfg: Config, phase: string, offers: Schema, parents: seq<Node>, key: string, w: World, log: seq<Node>)
    requires AllGenuine(cfg, log)
    ensures AllGenuine(cfg, CommitKey(cfg, phase, offers, parents, key, w, log).ctx.log)
  {
    if Commits(offers, w.values, key) {
      CommittedIsGenuine(cfg, w.session, cfg.encode(phase), cfg.encode(key), w.values[key].bytes, parents);
      var node := Committed(cfg.sha, w.session, cfg.encode(phase), cfg.encode(key), w.values[key].bytes, parents, Some(cfg.signer));
      if node.Ok? { AppendKeepsGenuine(cfg, log, node.value); }
    }
  }

  lemma {:induction false} CommitsKeepGenuine(cfg: Config, phase: string, offers: Schema, parents: seq<Node>, keys: seq<string>, k: nat, w: World, log: seq<Node>)
    requires k <= |keys| && AllGenuine(cfg, log)
    ensures AllGenuine(cfg, CommitEach(cfg, phase, offers, parents, keys, k, w, log).ctx.log)
    decreases |keys| - k
  {
    if k < |keys| {
      KeyKeepsGenuine(cfg, phase, offers, parents, keys[k], w, log);
      CommitsKeepGenuine(cfg, phase, offers, parents, keys, k + 1, w, CommitKey(cfg, phase, offers, parents, keys[k], w, log).ctx.log);
    }
  }

  lemma OutputsKeepGenuine(cfg: Config, phase: string, needs: Schema, offers: Schema, w: World)
    requires AllGenuine(cfg, w.log)
    ensures AllGenuine(cfg, CommitOutputs(cfg, phase, needs, offers, w).ctx.log)
  {
    CommitsKeepGenuine(cfg, phase, offers, ParentsOf(cfg, w, cfg.keys(needs)), cfg.keys(offers), 0, w, w.log);
  }

  // ---- runs of the pipeline -------------------------------------------------------------------

  /** A lineage-enabled pipeline: hooks leave the store alone, and each Exit is followed by the commit. */
  ghost predicate Committing(m: Machine<World>, cfg: Config) {
    && (forall i, w :: 0 <= i < |m.phases| ==>
          m.phases[i].enter(w).ctx.log == w.log && m.phases[i].leave(w).ctx.log == w.log)
    && (forall i, w, msg :: 0 <= i < |m.phases| ==> m.phases[i].onMessage(w, msg).ctx.log == w.log)
    && (forall i, w :: 0 <= i < |m.phases| ==>
          m.commit(i, w) == CommitOutputs(cfg, m.phases[i].name, m.phases[i].needs, m.phases[i].offers, w))
  }

  /** The store has only grown since `base`, is in order, and holds genuine nodes if it did before. */
  ghost predicate Grown(cfg: Config, base: seq<Node>, s: Session<World>) {
    LogOk(s.ctx.log) && base <= s.ctx.log && (AllGenuine(cfg, base) ==> AllGenuine(cfg, s.ctx.log))
  }

  lemma HopGrows(m: Machine<World>, cfg: Config, base: seq<Node>, s: Session<World>)
    requires Committing(m, cfg) && Grown(cfg, base, s)
    ensures Grown(cfg, base, HopOn(m, s).s)
  {
    if s.current.None? || s.current.value >= |m.phases| { return; }
    var i := s.current.value;
    var left := m.phases[i].leave(s.ctx);
    OutputsKeepOrder(cfg, m.phases[i].name, m.phases[i].needs, m.phases[i].offers, left.ctx);
    if AllGenuine(cfg, base) { OutputsKeepGenuine(cfg, m.phases[i].name, m.phases[i].needs, m.phases[i].offers, left.ctx); }
  }

  lemma {:induction false} CascadeGrows(cfg: Config, hop: Session<World> -> Hop<World>, passes: Session<World> -> bool, base: seq<Node>, s: Session<World>, hops: nat)
    requires (forall u: Session<World> :: Grown(cfg, base, u) ==> Grown(cfg, base, hop(u).s)) && Grown(cfg, base, s)
    ensures Grown(cfg, base, Cascade(hop, passes, s, hops).0)
    decreases hops
  {
    if hops > 0 {
      assert Grown(cfg, base, hop(s).s);
      match hop(s)
      case Inside(t) => CascadeGrows(cfg, hop, passes, base, t, hops - 1);
      case AtEnd(_) =>
      case Broken(_, _) =>
    }
  }

  lemma {:induction false} WalkGrows(cfg: Config, hop: Session<World> -> Hop<World>, base: seq<Node>, s: Session<World>, target: string, hops: nat)
    requires (forall u: Session<World> :: Grown(cfg, base, u) ==> Grown(cfg, base, hop(u).s)) && Grown(cfg, base, s)
    ensures Grown(cfg, base, Walk(hop, s, target, hops).0)
    decreases hops
  {
    if hops > 0 && s.state != target {
      assert Grown(cfg, base, hop(s).s);
      match hop(s)
      case Inside(t) => WalkGrows(cfg, hop, base, t, target, hops - 1);
      case AtEnd(_) =>
      case Broken(_, _) =>
    }
  }

  lemma HopsGrow(m: Machine<World>, cfg: Config, base: seq<Node>)
    requires Committing(m, cfg)
    ensures forall u: Session<World> :: Grown(cfg, base, u) ==> Grown(cfg, base, HopOf(m)(u).s)
  {
    forall u: Session<World> | Grown(cfg, base, u) ensures Grown(cfg, base, HopOf(m)(u).s) { HopGrows(m, cfg, base, u); }
  }

  lemma DeliveryGrows(m: Machine<World>, cfg: Config, s: Session<World>, msg: Message)
    requires Committing(m, cfg) && LogOk(s.ctx.log)
    ensures Grown(cfg, s.ctx.log, Delivered(m, s, msg).0)
  {
    if s.current.None? || s.current.value >= |m.phases| { return; }
    var i := s.current.value;
    var t := Record(s, m.phases[i].onMessage(s.ctx, msg).ctx, Got(i));
    HopsGrow(m, cfg, s.ctx.log);
    CascadeGrows(cfg, HopOf(m), PassOf(m), s.ctx.log, t, HopCap(m));
  }

  lemma AdvanceGrows(m: Machine<World>, cfg: Config, s: Session<World>, target: string)
    requires Committing(m, cfg) && LogOk(s.ctx.log)
    ensures Grown(cfg, s.ctx.log, Advanced(m, s, target).0)
  {
    HopsGrow(m, cfg, s.ctx.log);
    WalkGrows(cfg, HopOf(m), s.ctx.log, s, target, HopCap(m));
  }

  // ---- the runner ---------------------------------------------------------------------------------

  datatype Verdict = NoNode | Mismatched(reason: Mismatch) | MissingParent(index: nat) | Dispatched(outcome: Outcome)

  /** The runner's state: the sessions it tracks and the store they share. */
  datatype Runtime = Runtime(sessions: map<string, Session<World>>, log: seq<Node>)

  /** What can be asked of a runner; Seed is a caller setting a value in a session's context. */
  datatype Request =
    | Begin(id: string)
    | Seed(id: string, key: string, entry: Entry)
    | Plain(id: string, msg: Message)
    | WithNode(id: string, msg: Message, payload: Bytes, node: Option<Node>)
    | Advance(id: string, target: string)
    | End(id: string)

  /** A session with the shared store lent to it. */
  function Lent(s: Session<World>, log: seq<Node>): Session<World> { s.(ctx := s.ctx.(log := log)) }

  function FirstPhase(m: Machine<World>, cfg: Config, id: string, log: seq<Node>): Hop<World> {
    Begun(m, World(cfg.encode(id), map[], log))
  }

  predicate Accepts(cfg: Config, log: seq<Node>, payload: Bytes, node: Option<Node>) {
    node.Some? && Verify(cfg.sha, node.value, payload, cfg.verifiers).None? && AllPresent(log, node.value.parents)
  }

  function Kept(r: Runtime, id: string, t: Session<World>): Runtime { Runtime(r.sessions[id := t], t.ctx.log) }

  function Serve(m: Machine<World>, cfg: Config, r: Runtime, q: Request): Runtime {
    match q
    case Begin(id) =>
      if id == "" || id in r.sessions then r else
        var h := FirstPhase(m, cfg, id, r.log);
        if h.Inside? then Kept(r, id, h.s) else r.(log := h.s.ctx.log)
    case Seed(id, key, entry) =>
      if id !in r.sessions then r else
        var s := r.sessions[id];
        r.(sessions := r.sessions[id := s.(ctx := s.ctx.(values := s.ctx.values[key := entry]))])
    case Plain(id, msg) => if id !in r.sessions then r else Kept(r, id, Delivered(m, Lent(r.sessions[id], r.log), msg).0)
    case WithNode(id, msg, payload, node) =>
      if !Accepts(cfg, r.log, payload, node) then r else
        var stored := r.(log := Appended(r.log, node.value));
        if id !in r.sessions then stored else Kept(stored, id, Delivered(m, Lent(r.sessions[id], stored.log), msg).0)
    case Advance(id, target) => if id !in r.sessions then r else Kept(r, id, Advanced(m, Lent(r.sessions[id], r.log), target).0)
    case End(id) => r.(sessions := r.sessions - {id})
  }

  function Served(m: Machine<World>, cfg: Config, r: Runtime, qs: seq<Request>): Runtime {
    if qs == [] then r else Serve(m, cfg, Served(m, cfg, r, qs[..|qs| - 1]), qs[|qs| - 1])
  }

  lemma BeginGrows(m: Machine<World>, cfg: Config, id: string, log: seq<Node>)
    requires Committing(m, cfg)
    ensures FirstPhase(m, cfg, id, log).s.ctx.log == log
  {}

  lemma AcceptedIsGenuine(cfg: Config, log: seq<Node>, payload: Bytes, node: Option<Node>)
    requires Accepts(cfg, log, payload, node)
    ensures Genuine(cfg, node.value)
  {
    VerifyMeans(cfg.sha, node.value, payload, cfg.verifiers);
  }

  /** A message whose node its verifier rejects, or that describes another payload, changes nothing at all. */
  lemma ForgeryChangesNothing(m: Machine<World>, cfg: Config, r: Runtime, id: string, msg: Message, payload: Bytes, node: Node)
    requires !Attested(node, cfg.verifiers) || !Describes(cfg.sha, node, payload)
    ensures Serve(m, cfg, r, WithNode(id, msg, payload, Some(node))) == r
  {
    VerifyMeans(cfg.sha, node, payload, cfg.verifiers);
  }

  lemma AcceptedGrows(cfg: Config, log: seq<Node>, payload: Bytes, node: Option<Node>)
    requires LogOk(log) && Accepts(cfg, log, payload, node)
    ensures LogOk(Appended(log, node.value)) && log <= Appended(log, node.value)
    ensures AllGenuine(cfg, log) ==> AllGenuine(cfg, Appended(log, node.value))
  {
    AppendKeepsOrder(log, node.value);
    AcceptedIsGenuine(cfg, log, payload, node);
    if AllGenuine(cfg, log) { AppendKeepsGenuine(cfg, log, node.value); }
  }

  /** Whatever is asked, the store stays in topological order and only grows, and nothing forged gets in. */
  lemma ServeKeepsOrder(m: Machine<World>, cfg: Config, r: Runtime, q: Request)
    requires Committing(m, cfg) && LogOk(r.log)
    ensures LogOk(Serve(m, cfg, r, q).log) && r.log <= Serve(m, cfg, r, q).log
    ensures AllGenuine(cfg, r.log) ==> AllGenuine(cfg, Serve(m, cfg, r, q).log)
  {
    match q
    case Begin(id) => BeginGrows(m, cfg, id, r.log);
    case Seed(_, _, _) =>
    case Plain(id, msg) => if id in r.sessions { DeliveryGrows(m, cfg, Lent(r.sessions[id], r.log), msg); }
    case WithNode(id, msg, payload, node) =>
      if Accepts(cfg, r.log, payload, node) {
        AcceptedGrows(cfg, r.log, payload, node);
        if id in r.sessions { DeliveryGrows(m, cfg, Lent(r.sessions[id], Appended(r.log, node.value)), msg); }
      }
    case Advance(id, target) => if id in r.sessions { AdvanceGrows(m, cfg, Lent(r.sessions[id], r.log), target); }
    case End(_) =>
  }

  /** From an empty store, any sequence of requests over any sessions leaves a topologically ordered DAG of genuine nodes. */
  lemma {:induction false} RunKeepsOrder(m: Machine<World>, cfg: Config, qs: seq<Request>)
    requires Committing(m, cfg)
    ensures LogOk(Served(m, cfg, Runtime(map[], []), qs).log)
    ensures AllGenuine(cfg, Served(m, cfg, Runtime(map[], []), qs).log)
    ensures qs != [] ==> Served(m, cfg, Runtime(map[], []), qs[..|qs| - 1]).log <= Served(m, cfg, Runtime(map[], []), qs).log
  {
    if qs != [] {
      RunKeepsOrder(m, cfg, qs[..|qs| - 1]);
      ServeKeepsOrder(m, cfg, Served(m, cfg, Runtime(map[], []), qs[..|qs| - 1]), qs[|qs| - 1]);
    }
  }

  class LineageRunner {
    const m: Machine<World>
    const cfg: Config
    var sessions: map<string, Session<World>>
    var log: seq<Node>

    ghost function View(): Runtime
      reads this
    {
      Runtime(sessions, log)
    }

    constructor (m: Machine<World>, cfg: Config)
      ensures this.m == m && this.cfg == cfg && View() == Runtime(map[], [])
    {
      this.m, this.cfg, sessions, log := m, cfg, map[], [];
    }

    method BeginSession(id: string) returns (r: Result<World, RunError>)
      modifies this
      ensures View() == Serve(m, cfg, old(View()), Begin(id))
      ensures r.Ok? <==> id != "" && id !in old(sessions) && FirstPhase(m, cfg, id, old(log)).Inside?
      ensures r.Ok? ==> id in sessions && r.value == sessions[id].ctx
    {
      if id == "" { return Err(EmptySessionId); }
      if id in sessions { return Err(AlreadyActive); }
      var h := FirstPhase(m, cfg, id, log);
      log := h.s.ctx.log;
      if h.Broken? { return Err(h.error); }
      sessions := sessions[id := h.s];
      return Ok(h.s.ctx);
    }

    /** A caller writes into the context that BeginSession handed out. */
    method SetValue(id: string, key: string, entry: Entry)
      modifies this
      ensures View() == Serve(m, cfg, old(View()), Seed(id, key, entry))
    {
      if id in sessions {
        var s := sessions[id];
        sessions := sessions[id := s.(ctx := s.ctx.(values := s.ctx.values[key := entry]))];
      }
    }

    /** The plain path: no node, so nothing is verified or stored before the dispatch. */
    method HandleMessage(id: string, msg: Message) returns (out: Outcome)
      requires id in sessions ==> sessions[id].current.Some?
      modifies this
      ensures View() == Serve(m, cfg, old(View()), Plain(id, msg))
      ensures out == if id !in old(sessions) then Refused(NotActive) else Delivered(m, Lent(old(sessions)[id], old(log)), msg).1
    {
      if id !in sessions { return Refused(NotActive); }
      var (t, o) := Delivered(m, Lent(sessions[id], log), msg);
      sessions, log := sessions[id := t], t.ctx.log;
      return o;
    }

    /**
     * An inbound message with its node: verified, its parents known, stored, and only then dispatched.
     * A message that fails any of these leaves the store and every session as they were.
     */
    method HandleLineageMessage(id: string, msg: Message, payload: Bytes, node: Option<Node>) returns (r: Verdict)
      requires id in sessions ==> sessions[id].current.Some?
      modifies this
      ensures View() == Serve(m, cfg, old(View()), WithNode(id, msg, payload, node))
      ensures r == NoNode <==> node.None?
      ensures r.Dispatched? <==> Accepts(cfg, old(log), payload, node)
      ensures r.Dispatched? && id in old(sessions) ==>
        r.outcome == Delivered(m, Lent(old(sessions)[id], Appended(old(log), node.value)), msg).1
      ensures r.MissingParent? ==> r.index < |node.value.parents| && !HasHash(old(log), node.value.parents[r.index])
    {
      if node.None? { return NoNode; }
      var n := node.value;
      var bad := Verify(cfg.sha, n, payload, cfg.verifiers);
      if bad.Some? { return Mismatched(bad.value); }
      for i := 0 to |n.parents|
        invariant forall k :: 0 <= k < i ==> HasHash(log, n.parents[k])
      {
        if !HasHash(log, n.parents[i]) { return MissingParent(i); }
      }
      log := Appended(log, n);
      var out := HandleMessage(id, msg);
      return Dispatched(out);
    }

    method AdvanceToState(id: string, target: string) returns (out: Outcome)
      modifies this
      ensures View() == Serve(m, cfg, old(View()), Advance(id, target))
      ensures out == if id !in old(sessions) then Refused(NotActive) else Advanced(m, Lent(old(sessions)[id], old(log)), target).1
    {
      if id !in sessions { return Refused(NotActive); }
      var (t, o) := Advanced(m, Lent(sessions[id], log), target);
      sessions, log := sessions[id := t], t.ctx.log;
      return o;
    }

    method EndSession(id: string)
      modifies this
      ensures View() == Serve(m, cfg, old(View()), End(id))
    {
      sessions := sessions - {id};
    }
  }

  // ---- no cycles -----------------------------------------------------------------------------------

  /** A walk from child to parent through the store, by position. */
  ghost predicate Ancestry(log: seq<Node>, path: seq<nat>) {
    && (forall k :: 0 <= k < |path| ==> path[k] < |log|)
    && forall k :: 0 <= k < |path| - 1 ==> log[path[k + 1]].hash in log[path[k]].parents
  }

  lemma ParentIsEarlier(log: seq<Node>, i: nat, j: nat)
    requires LogOk(log) && i < |log| && j < |log| && log[j].hash in log[i].parents
    ensures j < i
  {
    var k :| 0 <= k < |log[i].parents| && log[i].parents[k] == log[j].hash;
    assert AllPresent(log[..i], log[i].parents);
    var p :| 0 <= p < i && log[..i][p].hash == log[j].hash;
    HashesDiffer(log, log[p], log[j]);
    assert p == j;
  }

  /** In an ordered log every walk to ancestors goes strictly back in time, so the DAG has no cycle. */
  lemma {:induction false} AncestryGoesBack(log: seq<Node>, path: seq<nat>, a: nat, b: nat)
    requires LogOk(log) && Ancestry(log, path) && a < b < |path|
    ensures path[b] < path[a]
    decreases b
  {
    ParentIsEarlier(log, path[b - 1], path[b]);
    if a < b - 1 { AncestryGoesBack(log, path, a, b - 1); }
  }
}

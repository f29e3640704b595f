/** The in-memory lineage store of pkg/ares/lineage/inmemory.go: two indexes over one append log. */
module Store {
  import opened Wrappers
  import opened Sequences
  import opened Lineage

  datatype StoreError = NodeExists | NodeNotFound

  // ---- the log the indexes stand for ---------------------------------------------------

  /** The live nodes of one session, in append order. */
  function OfSession(log: seq<Node>, session: Bytes): seq<Node> {
    if log == [] then [] else
      var last := log[|log| - 1];
      OfSession(log[..|log| - 1], session) + (if last.session == session then [last] else [])
  }

  /** The live nodes of every other session, in append order. */
  function Outside(log: seq<Node>, session: Bytes): seq<Node> {
    if log == [] then [] else
      var last := log[|log| - 1];
      Outside(log[..|log| - 1], session) + (if last.session != session then [last] else [])
  }

  ghost predicate DistinctHashes(log: seq<Node>) { forall i, j :: 0 <= i < j < |log| ==> log[i].hash != log[j].hash }

  predicate HasHash(log: seq<Node>, h: NodeRef) { exists i :: 0 <= i < |log| && log[i].hash == h }

  ghost predicate Indexed(log: seq<Node>, byHash: map<NodeRef, Node>) {
    && (forall i :: 0 <= i < |log| ==> log[i].hash in byHash && byHash[log[i].hash] == log[i])
    && (forall h :: h in byHash ==> HasHash(log, h))
  }

  ghost predicate Listed(log: seq<Node>, bySession: map<Bytes, seq<NodeRef>>) {
    forall s: Bytes :: SessionRefs(bySession, s) == Hashes(OfSession(log, s))
  }

  function SessionRefs(bySession: map<Bytes, seq<NodeRef>>, s: Bytes): seq<NodeRef> {
    if s in bySession then bySession[s] else []
  }

  class InMemoryStore {
    var byHash: map<NodeRef, Node>
    var bySession: map<Bytes, seq<NodeRef>>
    ghost var log: seq<Node>

    /** Both indexes agree with the append log. */
    ghost predicate Valid()
      reads this
    {
      DistinctHashes(log) && Indexed(log, byHash) && Listed(log, bySession)
    }

    constructor ()
      ensures Valid() && log == []
    {
      byHash, bySession, log := map[], map[], [];
    }

    method Append(node: Node) returns (r: Option<StoreError>)
      requires Valid()
      modifies this
      ensures Valid()
      ensures r == (if HasHash(old(log), node.hash) then Some(NodeExists) else None)
      ensures log == if r.None? then old(log) + [node] else old(log)
    {
      if node.hash in byHash { return Some(NodeExists); }
      AppendKeeps(log, byHash, bySession, node);
      byHash := byHash[node.hash := node];
      bySession := bySession[node.session := SessionRefs(bySession, node.session) + [node.hash]];
      log := log + [node];
      return None;
    }

    method Get(hash: NodeRef) returns (r: Result<Node, StoreError>)
      requires Valid()
      ensures r.Ok? ==> r.value in log && r.value.hash == hash
      ensures r.Err? ==> r == Err(NodeNotFound) && !HasHash(log, hash)
    {
      if hash !in byHash { return Err(NodeNotFound); }
      return Ok(byHash[hash]);
    }

    /** The session's live nodes in append order, as of the call. */
    method WalkSession(session: Bytes) returns (snapshot: seq<Node>)
      requires Valid()
      ensures snapshot == OfSession(log, session)
    {
      var refs := SessionRefs(bySession, session);
      ghost var live := OfSession(log, session);
      SessionNodesAreLogged(log, session);
      snapshot := [];
      for i := 0 to |refs|
        invariant snapshot == live[..i] && refs == Hashes(live)
      {
        assert live[i] in log;
        if refs[i] in byHash { snapshot := snapshot + [byHash[refs[i]]]; }
      }
    }

    /** Drops the session's nodes and no others. */
    method Clear(session: Bytes)
      requires Valid()
      modifies this
      ensures Valid() && log == Outside(old(log), session)
    {
      var refs := SessionRefs(bySession, session);
      ghost var keep := Outside(log, session);
      for i := 0 to |refs|
        invariant log == old(log) && bySession == old(bySession) && refs == SessionRefs(bySession, session)
        invariant forall h :: h in byHash <==> h in old(byHash) && h !in refs[..i]
        invariant forall h :: h in byHash ==> byHash[h] == old(byHash)[h]
      {
        assert refs[..i + 1] == refs[..i] + [refs[i]];
        byHash := byHash - {refs[i]};
      }
      assert refs[..|refs|] == refs;
      ClearKeeps(log, old(byHash), bySession, byHash, session);
      bySession := bySession - {session};
      log := keep;
    }
  }

  lemma AppendKeeps(log: seq<Node>, byHash: map<NodeRef, Node>, bySession: map<Bytes, seq<NodeRef>>, node: Node)
    requires DistinctHashes(log) && Indexed(log, byHash) && Listed(log, bySession) && node.hash !in byHash
    ensures DistinctHashes(log + [node]) && Indexed(log + [node], byHash[node.hash := node])
    ensures Listed(log + [node], bySession[node.session := SessionRefs(bySession, node.session) + [node.hash]])
  {
    AppendDistinct(log, byHash, node);
    AppendIndexed(log, byHash, node);
    AppendListed(log, bySession, node);
  }

  lemma AppendDistinct(log: seq<Node>, byHash: map<NodeRef, Node>, node: Node)
    requires DistinctHashes(log) && Indexed(log, byHash) && node.hash !in byHash
    ensures DistinctHashes(log + [node])
  {
    forall i | 0 <= i < |log| ensures log[i].hash != node.hash { assert log[i].hash in byHash; }
  }

  lemma AppendIndexed(log: seq<Node>, byHash: map<NodeRef, Node>, node: Node)
    requires Indexed(log, byHash) && node.hash !in byHash
    ensures Indexed(log + [node], byHash[node.hash := node])
  {
    var log', index := log + [node], byHash[node.hash := node];
    forall i | 0 <= i < |log'| ensures log'[i].hash in index && index[log'[i].hash] == log'[i] {
      if i < |log| { assert log[i].hash in byHash; }
    }
    forall h | h in index ensures HasHash(log', h) {
      if h == node.hash { assert log'[|log|].hash == h; }
      else { var i :| 0 <= i < |log| && log[i].hash == h; assert log'[i].hash == h; }
    }
  }

  lemma AppendListed(log: seq<Node>, bySession: map<Bytes, seq<NodeRef>>, node: Node)
    requires Listed(log, bySession)
    ensures Listed(log + [node], bySession[node.session := SessionRefs(bySession, node.session) + [node.hash]])
  {
    var log', by' := log + [node], bySession[node.session := SessionRefs(bySession, node.session) + [node.hash]];
    forall s: Bytes ensures SessionRefs(by', s) == Hashes(OfSession(log', s)) {
      assert SessionRefs(bySession, s) == Hashes(OfSession(log, s));
      SessionGrows(log, node, s);
      if s == node.session { HashesGrow(OfSession(log, s), node); }
    }
  }

  lemma SessionGrows(log: seq<Node>, node: Node, s: Bytes)
    ensures OfSession(log + [node], s) == if s == node.session then OfSession(log, s) + [node] else OfSession(log, s)
  {
    assert (log + [node])[..|log|] == log;
  }

  lemma HashesGrow(nodes: seq<Node>, node: Node)
    ensures Hashes(nodes + [node]) == Hashes(nodes) + [node.hash]
  {}

  lemma {:induction false} SessionNodesAreLogged(log: seq<Node>, session: Bytes)
    ensures forall n :: n in OfSession(log, session) <==> n in log && n.session == session
    ensures forall n :: n in Outside(log, session) <==> n in log && n.session != session
  {
    if log == [] { return; }
    SessionNodesAreLogged(log[..|log| - 1], session);
    assert log == log[..|log| - 1] + [log[|log| - 1]];
  }

  /** What is left of another session after a Clear is all of it. */
  lemma {:induction false} OutsideKeepsOthers(log: seq<Node>, session: Bytes, s: Bytes)
    ensures OfSession(Outside(log, session), s) == if s == session then [] else OfSession(log, s)
  {
    if log == [] { return; }
    var n := |log| - 1;
    var rest := Outside(log[..n], session);
    OutsideKeepsOthers(log[..n], session, s);
    if log[n].session != session { assert (rest + [log[n]])[..|rest|] == rest; } else { assert rest + [] == rest; }
  }

  lemma {:induction false} OutsideIsDistinct(log: seq<Node>, session: Bytes)
    requires DistinctHashes(log)
    ensures DistinctHashes(Outside(log, session))
  {
    if log == [] { return; }
    var n := |log| - 1;
    OutsideIsDistinct(log[..n], session);
    SessionNodesAreLogged(log[..n], session);
    var rest := Outside(log[..n], session);
    forall i | 0 <= i < |rest| ensures rest[i].hash != log[n].hash { assert rest[i] in log[..n]; }
  }

  lemma ClearKeeps(log: seq<Node>, byHash: map<NodeRef, Node>, bySession: map<Bytes, seq<NodeRef>>,
                   left: map<NodeRef, Node>, session: Bytes)
    requires DistinctHashes(log) && Indexed(log, byHash) && Listed(log, bySession)
    requires forall h :: h in left <==> h in byHash && h !in SessionRefs(bySession, session)
    requires forall h :: h in left ==> left[h] == byHash[h]
    ensures var keep := Outside(log, session);
      DistinctHashes(keep) && Indexed(keep, left) && Listed(keep, bySession - {session})
  {
    OutsideIsDistinct(log, session);
    assert SessionRefs(bySession, session) == Hashes(OfSession(log, session));
    KeptAreIndexed(log, byHash, left, session);
    LeftAreKept(log, byHash, left, session);
    OthersStayListed(log, bySession, session);
  }

  lemma OthersStayListed(log: seq<Node>, bySession: map<Bytes, seq<NodeRef>>, session: Bytes)
    requires Listed(log, bySession)
    ensures Listed(Outside(log, session), bySession - {session})
  {
    forall s: Bytes ensures SessionRefs(bySession - {session}, s) == Hashes(OfSession(Outside(log, session), s)) {
      OutsideKeepsOthers(log, session, s);
      assert SessionRefs(bySession, s) == Hashes(OfSession(log, s));
    }
  }

  lemma KeptAreIndexed(log: seq<Node>, byHash: map<NodeRef, Node>, left: map<NodeRef, Node>, session: Bytes)
    requires DistinctHashes(log) && Indexed(log, byHash)
    requires forall h :: h in left <==> h in byHash && h !in Hashes(OfSession(log, session))
    requires forall h :: h in left ==> left[h] == byHash[h]
    ensures var keep := Outside(log, session);
      forall i :: 0 <= i < |keep| ==> keep[i].hash in left && left[keep[i].hash] == keep[i]
  {
    var keep := Outside(log, session);
    forall i | 0 <= i < |keep| ensures keep[i].hash in left && left[keep[i].hash] == keep[i] {
      KeptIsNotListed(log, session, i);
      assert keep[i].hash in byHash && byHash[keep[i].hash] == keep[i];
    }
  }

  lemma KeptIsNotListed(log: seq<Node>, session: Bytes, i: nat)
    requires DistinctHashes(log) && i < |Outside(log, session)|
    ensures Outside(log, session)[i] in log && Outside(log, session)[i].hash !in Hashes(OfSession(log, session))
  {
    var keep, live := Outside(log, session), OfSession(log, session);
    SessionNodesAreLogged(log, session);
    assert keep[i] in keep;
    forall j | 0 <= j < |live| ensures live[j].hash != keep[i].hash {
      assert live[j] in live;
      HashesDiffer(log, live[j], keep[i]);
    }
  }

  lemma LeftAreKept(log: seq<Node>, byHash: map<NodeRef, Node>, left: map<NodeRef, Node>, session: Bytes)
    requires Indexed(log, byHash)
    requires forall h :: h in left <==> h in byHash && h !in Hashes(OfSession(log, session))
    ensures var keep := Outside(log, session);
      forall h :: h in left ==> HasHash(keep, h)
  {
    var keep, live := Outside(log, session), OfSession(log, session);
    SessionNodesAreLogged(log, session);
    forall h | h in left ensures HasHash(keep, h) {
      var i :| 0 <= i < |log| && log[i].hash == h;
      assert log[i] in log;
      HashIsListed(live, log[i]);
      var j :| 0 <= j < |keep| && keep[j] == log[i];
    }
  }

  lemma HashesDiffer(log: seq<Node>, a: Node, b: Node)
    requires DistinctHashes(log) && a in log && b in log
    ensures a.hash == b.hash <==> a == b
  {}

  lemma HashIsListed(live: seq<Node>, n: Node)
    ensures n in live ==> n.hash in Hashes(live)
  {
    if n in live {
      var j :| 0 <= j < |live| && live[j] == n;
      assert Hashes(live)[j] == n.hash;
    }
  }

  /** Each live hash is listed under one session only. */
  lemma HashInOneSession(log: seq<Node>, bySession: map<Bytes, seq<NodeRef>>, h: NodeRef, s: Bytes, t: Bytes)
    requires DistinctHashes(log) && Listed(log, bySession)
    requires h in SessionRefs(bySession, s) && h in SessionRefs(bySession, t)
    ensures s == t
  {
    var a, b := OfSession(log, s), OfSession(log, t);
    assert SessionRefs(bySession, s) == Hashes(a) && SessionRefs(bySession, t) == Hashes(b);
    SessionNodesAreLogged(log, s);
    SessionNodesAreLogged(log, t);
    var i :| 0 <= i < |a| && a[i].hash == h;
    var j :| 0 <= j < |b| && b[j].hash == h;
    assert a[i] in a && b[j] in b;
    HashesDiffer(log, a[i], b[j]);
  }
}

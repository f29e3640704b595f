/**
 * Lineage nodes: canonical hashing and signing (pkg/ares/lineage/node.go), committing (commit.go) and
 * verifying (verify.go). SHA-256 and the signature scheme are functions; byte strings are sequences of bytes.
 */
module Lineage {
  import opened Wrappers
  import opened Sequences

  type Byte = x: int | 0 <= x < 256
  type Bytes = seq<Byte>
  type NodeRef = b: seq<Byte> | |b| == 32 witness seq(32, _ => 0)
  type Sha = Bytes -> NodeRef

  const TwoTo32 := 0x1_0000_0000

  // ---- canonical encoding ----------------------------------------------------------

  /** Four bytes, most significant first; a longer count is truncated to 32 bits. */
  function U32(n: nat): (b: Bytes)
    ensures |b| == 4
  {
    [n / 256 / 256 / 256 % 256, n / 256 / 256 % 256, n / 256 % 256, n % 256]
  }

  function LenPrefixed(b: Bytes): Bytes { U32(|b|) + b }

  function Concat(refs: seq<NodeRef>): Bytes { if refs == [] then [] else refs[0] + Concat(refs[1..]) }

  /** The bytes fed to the node hash. */
  function HashInput(session: Bytes, phase: Bytes, role: Bytes, payloadHash: NodeRef, parents: seq<NodeRef>): Bytes {
    LenPrefixed(session) + (LenPrefixed(phase) + (LenPrefixed(role) + (LenPrefixed(payloadHash)
      + (U32(|parents|) + Concat(parents)))))
  }

  /** The bytes fed to the signer. */
  function SigningMessage(hash: NodeRef, session: Bytes, phase: Bytes, role: Bytes): Bytes {
    hash + (LenPrefixed(session) + (LenPrefixed(phase) + LenPrefixed(role)))
  }

  function DeriveNodeHash(sha: Sha, session: Bytes, phase: Bytes, role: Bytes, payload: Bytes, parents: seq<NodeRef>): NodeRef {
    sha(HashInput(session, phase, role, sha(payload), parents))
  }

  predicate Short(b: Bytes) { |b| < TwoTo32 }

  // ---- reading it back ---------------------------------------------------------------

  /** A number of four bytes, most significant first, or a field behind its length, cut off the front. */
  datatype Cut<+T> = Cut(value: T, rest: Bytes)

  function ReadU32(b: Bytes): Option<Cut<nat>> {
    if |b| < 4 then None else Some(Cut(b[0] as int * 0x100_0000 + b[1] as int * 0x1_0000 + b[2] as int * 0x100 + b[3] as int, b[4..]))
  }

  function ReadField(b: Bytes): Option<Cut<Bytes>> {
    var n := ReadU32(b);
    if n.None? || |n.value.rest| < n.value.value then None
    else Some(Cut(n.value.rest[..n.value.value], n.value.rest[n.value.value..]))
  }

  /** Exactly n references of 32 bytes each. */
  function ReadRefs(b: Bytes, n: nat): Option<seq<NodeRef>> {
    if n == 0 then if b == [] then Some([]) else None
    else if |b| < 32 then None else
      var more := ReadRefs(b[32..], n - 1);
      if more.None? then None else Some([b[..32]] + more.value)
  }

  function ReadParents(b: Bytes): Option<seq<NodeRef>> {
    var n := ReadU32(b);
    if n.None? then None else ReadRefs(n.value.rest, n.value.value)
  }

  /** Session, phase and role, each behind its length. */
  datatype Names = Names(session: Bytes, phase: Bytes, role: Bytes)

  function ReadNames(b: Bytes): Option<Cut<Names>> {
    var s := ReadField(b);
    if s.None? then None else
      var p := ReadField(s.value.rest);
      if p.None? then None else
        var r := ReadField(p.value.rest);
        if r.None? then None else Some(Cut(Names(s.value.value, p.value.value, r.value.value), r.value.rest))
  }

  lemma U32ReadsBack(n: nat, rest: Bytes)
    requires n < TwoTo32
    ensures ReadU32(U32(n) + rest) == Some(Cut(n, rest))
  {
    assert (U32(n) + rest)[4..] == rest;
  }

  lemma FieldReadsBack(a: Bytes, rest: Bytes)
    requires Short(a)
    ensures ReadField(LenPrefixed(a) + rest) == Some(Cut(a, rest))
  {
    assert LenPrefixed(a) + rest == U32(|a|) + (a + rest);
    U32ReadsBack(|a|, a + rest);
    assert (a + rest)[..|a|] == a && (a + rest)[|a|..] == rest;
  }

  lemma {:induction false} RefsReadBack(refs: seq<NodeRef>)
    ensures ReadRefs(Concat(refs), |refs|) == Some(refs)
  {
    if refs == [] { return; }
    RefsReadBack(refs[1..]);
    assert Concat(refs)[..32] == refs[0] && Concat(refs)[32..] == Concat(refs[1..]);
    assert refs == [refs[0]] + refs[1..];
  }

  lemma NamesReadBack(s: Bytes, p: Bytes, r: Bytes, rest: Bytes)
    requires Short(s) && Short(p) && Short(r)
    ensures ReadNames(LenPrefixed(s) + (LenPrefixed(p) + (LenPrefixed(r) + rest))) == Some(Cut(Names(s, p, r), rest))
  {
    FieldReadsBack(s, LenPrefixed(p) + (LenPrefixed(r) + rest));
    FieldReadsBack(p, LenPrefixed(r) + rest);
    FieldReadsBack(r, rest);
  }

  /** Everything that identifies a node. */
  datatype Identity = Identity(session: Bytes, phase: Bytes, role: Bytes, payloadHash: NodeRef, parents: seq<NodeRef>) {
    predicate Short() { |session| < TwoTo32 && |phase| < TwoTo32 && |role| < TwoTo32 && |parents| < TwoTo32 }
    function Input(): Bytes { HashInput(session, phase, role, payloadHash, parents) }
  }

  /** The documented format, read from left to right. */
  function ReadHashInput(b: Bytes): Option<Identity> {
    var names := ReadNames(b);
    if names.None? then None else
      var hash := ReadField(names.value.rest);
      if hash.None? || |hash.value.value| != 32 then None else
        var parents := ReadParents(hash.value.rest);
        if parents.None? then None else
          var n := names.value.value;
          Some(Identity(n.session, n.phase, n.role, hash.value.value, parents.value))
  }

  /** The bytes fed to the node hash are the documented format: a reader gets every field back. */
  lemma HashInputReadsBack(a: Identity)
    requires a.Short()
    ensures ReadHashInput(a.Input()) == Some(a)
  {
    var ps := U32(|a.parents|) + Concat(a.parents);
    NamesReadBack(a.session, a.phase, a.role, LenPrefixed(a.payloadHash) + ps);
    FieldReadsBack(a.payloadHash, ps);
    U32ReadsBack(|a.parents|, Concat(a.parents));
    RefsReadBack(a.parents);
  }

  /** No two identities feed the same bytes to the node hash. */
  lemma HashInputIsInjective(a: Identity, b: Identity)
    requires a.Short() && b.Short() && a.Input() == b.Input()
    ensures a == b
  {
    HashInputReadsBack(a);
    HashInputReadsBack(b);
  }

  /** The signed message is the hash and the three names: a reader gets them back. */
  lemma SigningMessageReadsBack(h: NodeRef, s: Bytes, p: Bytes, r: Bytes)
    requires Short(s) && Short(p) && Short(r)
    ensures var m := SigningMessage(h, s, p, r);
      |m| >= 32 && m[..32] == h && ReadNames(m[32..]) == Some(Cut(Names(s, p, r), []))
  {
    var m := SigningMessage(h, s, p, r);
    assert LenPrefixed(r) + [] == LenPrefixed(r);
    NamesReadBack(s, p, r, []);
    assert m[32..] == LenPrefixed(s) + (LenPrefixed(p) + LenPrefixed(r));
  }

  /** No two signed statements share their bytes. */
  lemma SigningMessageIsInjective(h: NodeRef, s: Bytes, p: Bytes, r: Bytes, h': NodeRef, s': Bytes, p': Bytes, r': Bytes)
    requires Short(s) && Short(p) && Short(r) && Short(s') && Short(p') && Short(r')
    requires SigningMessage(h, s, p, r) == SigningMessage(h', s', p', r')
    ensures h == h' && s == s' && p == p' && r == r'
  {
    SigningMessageReadsBack(h, s, p, r);
    SigningMessageReadsBack(h', s', p', r');
  }

  // ---- canonical parent order --------------------------------------------------------

  /** The lexicographic order of bytes.Compare. */
  predicate Less(a: Bytes, b: Bytes) {
    if b == [] then false
    else if a == [] then true
    else if a[0] != b[0] then a[0] < b[0]
    else Less(a[1..], b[1..])
  }

  lemma {:induction false} LessIsStrict(a: Bytes, b: Bytes)
    ensures !(Less(a, b) && Less(b, a))
    ensures !Less(a, b) && !Less(b, a) <==> a == b
  {
    if a != [] && b != [] && a[0] == b[0] {
      LessIsStrict(a[1..], b[1..]);
      assert a == [a[0]] + a[1..] && b == [b[0]] + b[1..];
    }
  }

  lemma {:induction false} NotLessIsTransitive(a: Bytes, b: Bytes, c: Bytes)
    requires !Less(b, a) && !Less(c, b)
    ensures !Less(c, a)
  {
    if a != [] && b != [] && c != [] && a[0] == b[0] == c[0] { NotLessIsTransitive(a[1..], b[1..], c[1..]); }
  }

  datatype Parent = Parent(ref: NodeRef, role: Bytes)

  ghost predicate Sorted(ps: seq<Parent>) { forall i, j :: 0 <= i < j < |ps| ==> !Less(ps[j].ref, ps[i].ref) }

  /** Puts x after everything that is not greater. */
  function Insert(ps: seq<Parent>, x: Parent): seq<Parent> {
    if ps == [] || !Less(x.ref, ps[|ps| - 1].ref) then ps + [x]
    else Insert(ps[..|ps| - 1], x) + [ps[|ps| - 1]]
  }

  /** The stable sort by reference. */
  function Sort(ps: seq<Parent>): seq<Parent> {
    if ps == [] then [] else Insert(Sort(ps[..|ps| - 1]), ps[|ps| - 1])
  }

  function Refs(ps: seq<Parent>): seq<NodeRef> { seq(|ps|, i requires 0 <= i < |ps| => ps[i].ref) }
  function Roles(ps: seq<Parent>): seq<Bytes> { seq(|ps|, i requires 0 <= i < |ps| => ps[i].role) }

  /** Pairs each parent with its role; a missing role is empty. */
  function Paired(refs: seq<NodeRef>, roles: seq<Bytes>): seq<Parent> {
    seq(|refs|, i requires 0 <= i < |refs| => Parent(refs[i], if i < |roles| then roles[i] else []))
  }

  /** The parents in canonical order, and the roles reordered with them. */
  method SortParents(refs: seq<NodeRef>, roles: seq<Bytes>) returns (sortedRefs: seq<NodeRef>, sortedRoles: seq<Bytes>)
    ensures sortedRefs == Refs(Sort(Paired(refs, roles))) && sortedRoles == Roles(Sort(Paired(refs, roles)))
  {
    var indexed: seq<Parent> := [];
    for i := 0 to |refs|
      invariant indexed == Paired(refs, roles)[..i]
    {
      var role: Bytes := [];
      if i < |roles| { role := roles[i]; }
      indexed := indexed + [Parent(refs[i], role)];
    }
    assert indexed == Paired(refs, roles);
    var ps := Sort(indexed);
    return Refs(ps), Roles(ps);
  }

  lemma {:induction false} InsertKeeps(ps: seq<Parent>, x: Parent)
    ensures multiset(Insert(ps, x)) == multiset(ps) + multiset{x} && |Insert(ps, x)| == |ps| + 1
  {
    if ps != [] && Less(x.ref, ps[|ps| - 1].ref) {
      InsertKeeps(ps[..|ps| - 1], x);
      assert ps == ps[..|ps| - 1] + [ps[|ps| - 1]];
    }
  }

  lemma {:induction false} InsertSorts(ps: seq<Parent>, x: Parent)
    requires Sorted(ps)
    ensures Sorted(Insert(ps, x))
  {
    if ps == [] || !Less(x.ref, ps[|ps| - 1].ref) { AppendSorted(ps, x); return; }
    var n := |ps| - 1;
    var front := Insert(ps[..n], x);
    InsertSorts(ps[..n], x);
    InsertKeeps(ps[..n], x);
    LessIsStrict(x.ref, ps[n].ref);
    forall j | 0 <= j < |front| ensures !Less(ps[n].ref, front[j].ref) { NotBelow(ps, x, front, j); }
    AppendSorted(front, ps[n]);
  }

  lemma NotBelow(ps: seq<Parent>, x: Parent, front: seq<Parent>, j: nat)
    requires Sorted(ps) && ps != [] && multiset(front) == multiset(ps[..|ps| - 1]) + multiset{x} && j < |front|
    requires !Less(ps[|ps| - 1].ref, x.ref)
    ensures !Less(ps[|ps| - 1].ref, front[j].ref)
  {
    assert front[j] in multiset(front);
    if front[j] != x { assert front[j] in multiset(ps[..|ps| - 1]); }
  }

  lemma AppendSorted(ps: seq<Parent>, x: Parent)
    requires ps == [] || !Less(x.ref, ps[|ps| - 1].ref)
    ensures Sorted(ps) ==> Sorted(ps + [x])
  {
    if Sorted(ps) {
      forall i | 0 <= i < |ps| ensures !Less(x.ref, ps[i].ref) {
        if i < |ps| - 1 { NotLessIsTransitive(ps[i].ref, ps[|ps| - 1].ref, x.ref); }
      }
    }
  }

  lemma {:induction false} SortSorts(ps: seq<Parent>)
    ensures Sorted(Sort(ps)) && multiset(Sort(ps)) == multiset(ps) && |Sort(ps)| == |ps|
  {
    if ps == [] { return; }
    var n := |ps| - 1;
    SortSorts(ps[..n]);
    InsertKeeps(Sort(ps[..n]), ps[n]);
    InsertSorts(Sort(ps[..n]), ps[n]);
    OneMoreInMultiset(ps);
    assert Sort(ps) == Insert(Sort(ps[..n]), ps[n]);
  }

  lemma OneMoreInMultiset(ps: seq<Parent>)
    requires ps != []
    ensures multiset(ps) == multiset(ps[..|ps| - 1]) + multiset{ps[|ps| - 1]}
  {
    SplitLast(ps);
  }

  /** Sorting what is sorted changes nothing. */
  lemma {:induction false} SortIsIdempotent(ps: seq<Parent>)
    requires Sorted(ps)
    ensures Sort(ps) == ps
  {
    if ps == [] { return; }
    var n := |ps| - 1;
    SortIsIdempotent(ps[..n]);
    assert ps == ps[..n] + [ps[n]];
  }

  /** The parents with one reference, in order. */
  function Named(ps: seq<Parent>, ref: NodeRef): seq<Parent> {
    if ps == [] then [] else
      Named(ps[..|ps| - 1], ref) + (if ps[|ps| - 1].ref == ref then [ps[|ps| - 1]] else [])
  }

  lemma NamedAppend(ps: seq<Parent>, x: Parent, ref: NodeRef)
    ensures Named(ps + [x], ref) == Named(ps, ref) + (if x.ref == ref then [x] else [])
  {
    assert (ps + [x])[..|ps|] == ps;
  }

  lemma {:induction false} InsertIsStable(ps: seq<Parent>, x: Parent, ref: NodeRef)
    ensures Named(Insert(ps, x), ref) == Named(ps, ref) + (if x.ref == ref then [x] else [])
  {
    if ps == [] || !Less(x.ref, ps[|ps| - 1].ref) { NamedAppend(ps, x, ref); return; }
    var n := |ps| - 1;
    InsertIsStable(ps[..n], x, ref);
    NamedAppend(Insert(ps[..n], x), ps[n], ref);
    LessIsStrict(x.ref, ps[n].ref);
    assert !(x.ref == ref && ps[n].ref == ref);
    MiddleMoves(Named(ps[..n], ref), if x.ref == ref then [x] else [], if ps[n].ref == ref then [ps[n]] else []);
  }

  lemma MiddleMoves(a: seq<Parent>, b: seq<Parent>, c: seq<Parent>)
    requires b == [] || c == []
    ensures a + b + c == a + c + b
  {}

  /** Parents with the same reference keep their order. */
  lemma {:induction false} SortIsStable(ps: seq<Parent>, ref: NodeRef)
    ensures Named(Sort(ps), ref) == Named(ps, ref)
  {
    if ps == [] { return; }
    SortIsStable(ps[..|ps| - 1], ref);
    InsertIsStable(Sort(ps[..|ps| - 1]), ps[|ps| - 1], ref);
  }

  ghost predicate InOrder(rs: seq<NodeRef>) { forall i, j :: 0 <= i < j < |rs| ==> !Less(rs[j], rs[i]) }

  /** There is one sorted arrangement of any collection of references. */
  lemma {:induction false} OrderIsUnique(p: seq<NodeRef>, q: seq<NodeRef>)
    requires InOrder(p) && InOrder(q) && multiset(p) == multiset(q)
    ensures p == q
  {
    assert |p| == |multiset(p)| == |multiset(q)| == |q|;
    if p == [] { return; }
    var n := |p| - 1;
    LastsAgree(p, q);
    FrontsAgree(p, q);
    OrderIsUnique(p[..n], q[..n]);
    SplitLast(p);
    SplitLast(q);
  }

  lemma LastsAgree(p: seq<NodeRef>, q: seq<NodeRef>)
    requires InOrder(p) && InOrder(q) && multiset(p) == multiset(q) && |p| == |q| > 0
    ensures p[|p| - 1] == q[|q| - 1]
  {
    var n := |p| - 1;
    LastIsGreatest(p, q[n], q);
    LastIsGreatest(q, p[n], p);
    LessIsStrict(p[n], q[n]);
  }

  lemma FrontsAgree(p: seq<NodeRef>, q: seq<NodeRef>)
    requires multiset(p) == multiset(q) && |p| == |q| > 0 && p[|p| - 1] == q[|q| - 1]
    ensures multiset(p[..|p| - 1]) == multiset(q[..|q| - 1])
  {
    var n := |p| - 1;
    WithoutOne(p, n);
    WithoutOne(q, n);
    assert p[..n] + p[n + 1..] == p[..n] && q[..n] + q[n + 1..] == q[..n];
  }

  lemma LastIsGreatest(p: seq<NodeRef>, x: NodeRef, q: seq<NodeRef>)
    requires InOrder(p) && p != [] && multiset(p) == multiset(q) && x in q
    ensures !Less(p[|p| - 1], x)
  {
    assert x in multiset(q);
    var j :| 0 <= j < |p| && p[j] == x;
    LessIsStrict(x, x);
  }

  // ---- nodes ------------------------------------------------------------------------

  /** One entry of the session's DAG. The wall-clock field is left out: it is in neither hash nor signature. */
  datatype Node = Node(
    hash: NodeRef, session: Bytes, phase: Bytes, role: Bytes,
    parents: seq<NodeRef>, parentRoles: seq<Bytes>, payloadHash: NodeRef,
    producer: Bytes, signature: Bytes, algorithm: string)

  datatype Signer = Signer(sign: Bytes -> Option<Bytes>, publicKey: Bytes, algorithm: string)

  /** Checks (public key, message, signature). */
  type Verifier = (Bytes, Bytes, Bytes) -> bool

  function NewNode(sha: Sha, session: Bytes, phase: Bytes, role: Bytes, payload: Bytes,
                   refs: seq<NodeRef>, roles: seq<Bytes>, producer: Bytes, signature: Bytes, algorithm: string): Node {
    var ps := Sort(Paired(refs, roles));
    Node(DeriveNodeHash(sha, session, phase, role, payload, Refs(ps)), session, phase, role,
         Refs(ps), Roles(ps), sha(payload), producer, signature, algorithm)
  }

  datatype CommitError = NoSigner | SignFailed

  /** Builds a signed node over a payload and the nodes it derives from. */
  method Commit(sha: Sha, session: Bytes, phase: Bytes, role: Bytes, payload: Bytes,
                parents: seq<Node>, signer: Option<Signer>) returns (r: Result<Node, CommitError>)
    ensures r == Committed(sha, session, phase, role, payload, parents, signer)
  {
    if signer.None? { return Err(NoSigner); }
    var refs: seq<NodeRef>, roles: seq<Bytes> := [], [];
    for i := 0 to |parents|
      invariant refs == Hashes(parents)[..i] && roles == RolesOf(parents)[..i]
    {
      refs, roles := refs + [parents[i].hash], roles + [parents[i].role];
    }
    assert refs == Hashes(parents) && roles == RolesOf(parents);
    var sortedRefs, sortedRoles := SortParents(refs, roles);
    var hash := DeriveNodeHash(sha, session, phase, role, payload, sortedRefs);
    var signature := signer.value.sign(SigningMessage(hash, session, phase, role));
    if signature.None? { return Err(SignFailed); }
    return Ok(NewNode(sha, session, phase, role, payload, sortedRefs, sortedRoles,
                      signer.value.publicKey, signature.value, signer.value.algorithm));
  }

  function Hashes(ns: seq<Node>): seq<NodeRef> { seq(|ns|, i requires 0 <= i < |ns| => ns[i].hash) }
  function RolesOf(ns: seq<Node>): seq<Bytes> { seq(|ns|, i requires 0 <= i < |ns| => ns[i].role) }

  function Committed(sha: Sha, session: Bytes, phase: Bytes, role: Bytes, payload: Bytes,
                     parents: seq<Node>, signer: Option<Signer>): Result<Node, CommitError> {
    if signer.None? then Err(NoSigner) else
      var ps := Sort(Paired(Hashes(parents), RolesOf(parents)));
      var hash := DeriveNodeHash(sha, session, phase, role, payload, Refs(ps));
      var signature := signer.value.sign(SigningMessage(hash, session, phase, role));
      if signature.None? then Err(SignFailed)
      else Ok(NewNode(sha, session, phase, role, payload, Refs(ps), Roles(ps),
                      signer.value.publicKey, signature.value, signer.value.algorithm))
  }

  /** Which check refused a node. */
  datatype Mismatch = BadAlgorithm | BadPayloadHash | BadNodeHash | NoProducer | BadSignature

  function Verify(sha: Sha, node: Node, payload: Bytes, verifiers: map<string, Verifier>): Option<Mismatch> {
    if node.algorithm !in verifiers then Some(BadAlgorithm)
    else if sha(payload) != node.payloadHash then Some(BadPayloadHash)
    else if DeriveNodeHash(sha, node.session, node.phase, node.role, payload, node.parents) != node.hash then Some(BadNodeHash)
    else if node.producer == [] then Some(NoProducer)
    else if !verifiers[node.algorithm](node.producer, SigningMessage(node.hash, node.session, node.phase, node.role), node.signature)
    then Some(BadSignature)
    else None
  }

  // ---- what they promise ----------------------------------------------------------------

  lemma PairedAgain(ps: seq<Parent>)
    ensures Paired(Refs(ps), Roles(ps)) == ps
  {}

  /** The second sort in NewNode finds nothing left to do, so the hash that was signed is the node's. */
  lemma CommitShape(sha: Sha, session: Bytes, phase: Bytes, role: Bytes, payload: Bytes, parents: seq<Node>, signer: Signer)
    ensures var r := Committed(sha, session, phase, role, payload, parents, Some(signer));
      r.Ok? ==> var n := r.value;
        var ps := Sort(Paired(Hashes(parents), RolesOf(parents)));
        && n.parents == Refs(ps) && n.parentRoles == Roles(ps)
        && n.hash == DeriveNodeHash(sha, session, phase, role, payload, n.parents) && n.payloadHash == sha(payload)
        && n.session == session && n.phase == phase && n.role == role
        && n.producer == signer.publicKey && n.algorithm == signer.algorithm
        && signer.sign(SigningMessage(n.hash, session, phase, role)) == Some(n.signature)
  {
    var ps := Sort(Paired(Hashes(parents), RolesOf(parents)));
    SortSorts(Paired(Hashes(parents), RolesOf(parents)));
    PairedAgain(ps);
    SortIsIdempotent(ps);
  }

  /** A verifier that accepts what this signer signs. */
  ghost predicate Trusts(v: Verifier, signer: Signer) {
    forall m :: signer.sign(m).Some? ==> v(signer.publicKey, m, signer.sign(m).value)
  }

  /** Every node Commit builds verifies against its payload. */
  lemma CommitVerifies(sha: Sha, session: Bytes, phase: Bytes, role: Bytes, payload: Bytes, parents: seq<Node>,
                       signer: Signer, verifiers: map<string, Verifier>)
    requires signer.algorithm in verifiers && Trusts(verifiers[signer.algorithm], signer) && signer.publicKey != []
    ensures var r := Committed(sha, session, phase, role, payload, parents, Some(signer));
      r.Ok? ==> Verify(sha, r.value, payload, verifiers).None?
  {
    CommitShape(sha, session, phase, role, payload, parents, signer);
  }

  /** The registered verifier accepts the producer's signature over what the node says of itself. */
  predicate Attested(node: Node, verifiers: map<string, Verifier>) {
    && node.algorithm in verifiers && node.producer != []
    && verifiers[node.algorithm](node.producer, SigningMessage(node.hash, node.session, node.phase, node.role), node.signature)
  }

  /** The signer made the signature, over the same message. */
  predicate SignedBy(node: Node, signer: Signer) {
    && node.producer == signer.publicKey && node.algorithm == signer.algorithm
    && signer.sign(SigningMessage(node.hash, node.session, node.phase, node.role)) == Some(node.signature)
  }

  /** The node's two hashes are those of this payload. */
  predicate Describes(sha: Sha, node: Node, payload: Bytes) {
    && node.payloadHash == sha(payload)
    && node.hash == DeriveNodeHash(sha, node.session, node.phase, node.role, payload, node.parents)
  }

  /** A node passes exactly when it describes the payload and is attested. */
  lemma VerifyMeans(sha: Sha, node: Node, payload: Bytes, verifiers: map<string, Verifier>)
    ensures Verify(sha, node, payload, verifiers).None? <==> Describes(sha, node, payload) && Attested(node, verifiers)
  {}

  lemma {:induction false} SortedRefs(ps: seq<Parent>)
    ensures InOrder(Refs(Sort(ps))) && multiset(Refs(Sort(ps))) == multiset(Refs(ps))
  {
    SortSorts(ps);
    SameRefs(Sort(ps), ps);
  }

  lemma {:induction false} SameRefs(ps: seq<Parent>, qs: seq<Parent>)
    requires multiset(ps) == multiset(qs)
    ensures multiset(Refs(ps)) == multiset(Refs(qs))
  {
    assert |ps| == |multiset(ps)| == |multiset(qs)| == |qs|;
    if ps == [] { assert Refs(ps) == Refs(qs); return; }
    var n := |ps| - 1;
    assert ps[n] in multiset(qs);
    var j :| 0 <= j < |qs| && qs[j] == ps[n];
    WithoutOne(ps, n);
    WithoutOne(qs, j);
    assert ps[..n] + ps[n + 1..] == ps[..n];
    SameRefs(ps[..n], qs[..j] + qs[j + 1..]);
    RefsWithout(ps, n);
    RefsWithout(qs, j);
    assert ps[n].ref == qs[j].ref;
  }

  lemma RefsWithout(ps: seq<Parent>, j: nat)
    requires j < |ps|
    ensures multiset(Refs(ps)) == multiset(Refs(ps[..j] + ps[j + 1..])) + multiset{ps[j].ref}
  {
    var rs := Refs(ps);
    assert rs == rs[..j] + [rs[j]] + rs[j + 1..];
    assert Refs(ps[..j] + ps[j + 1..]) == rs[..j] + rs[j + 1..];
  }

  /** The hash does not depend on the order in which Commit was given the parents. */
  lemma HashIgnoresParentOrder(sha: Sha, session: Bytes, phase: Bytes, role: Bytes, payload: Bytes,
                               parents: seq<Node>, parents': seq<Node>, signer: Signer)
    requires multiset(Hashes(parents)) == multiset(Hashes(parents'))
    ensures var r, r' := Committed(sha, session, phase, role, payload, parents, Some(signer)),
                         Committed(sha, session, phase, role, payload, parents', Some(signer));
      (r.Ok? <==> r'.Ok?) && (r.Ok? ==> r.value.hash == r'.value.hash && r.value.parents == r'.value.parents)
  {
    var p, p' := Paired(Hashes(parents), RolesOf(parents)), Paired(Hashes(parents'), RolesOf(parents'));
    assert Refs(p) == Hashes(parents) && Refs(p') == Hashes(parents');
    SortedRefs(p);
    SortedRefs(p');
    OrderIsUnique(Refs(Sort(p)), Refs(Sort(p')));
    CommitShape(sha, session, phase, role, payload, parents, signer);
    CommitShape(sha, session, phase, role, payload, parents', signer);
  }

  /** Two different inputs with one digest. */
  ghost predicate Collide(sha: Sha, a: Bytes, b: Bytes) { a != b && sha(a) == sha(b) }

  /**
   * Nodes are content-addressed: two verified nodes with one hash agree on session, phase, role, parents
   * and payload, or exhibit a collision of the hash function.
   */
  lemma VerifiedHashFixesContent(sha: Sha, n: Node, m: Node, x: Bytes, y: Bytes, vs: map<string, Verifier>) returns (a: Bytes, b: Bytes)
    requires Verify(sha, n, x, vs).None? && Verify(sha, m, y, vs).None? && n.hash == m.hash
    requires Identity(n.session, n.phase, n.role, n.payloadHash, n.parents).Short()
    requires Identity(m.session, m.phase, m.role, m.payloadHash, m.parents).Short()
    ensures (n.session == m.session && n.phase == m.phase && n.role == m.role && n.parents == m.parents && x == y)
         || Collide(sha, a, b)
  {
    var i := Identity(n.session, n.phase, n.role, n.payloadHash, n.parents);
    var j := Identity(m.session, m.phase, m.role, m.payloadHash, m.parents);
    a, b := i.Input(), j.Input();
    if a == b {
      HashInputIsInjective(i, j);
      a, b := x, y;
    }
  }
}

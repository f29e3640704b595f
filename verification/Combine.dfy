/**
 * Combining the parties' rotation-key shares (pkg/ares/crypto/cgo/incremental_combine.go): what each way
 * of folding computes. The native library is a record of functions; its fold acts on each index alone.
 */
module Combine {
  import opened Wrappers
  import opened Sequences

  type Bytes = string
  type Key = string
  type Pub = string
  type AVec = string

  /** A rotation-key map: one key per rotation index. */
  type KeyMap = map<int, Key>

  /** The native operations. `started` and `merged` say whether an allocation succeeds. */
  datatype Native = Native(
    readRot: Bytes -> Option<KeyMap>, writeRot: KeyMap -> Option<Bytes>,
    readPub: Bytes -> Option<Pub>, readA: Bytes -> Option<AVec>, rebuild: (AVec, Bytes) -> Option<KeyMap>,
    foldKey: (Key, Pub, Key) -> Option<Key>, started: KeyMap -> bool, merged: (KeyMap, KeyMap) -> bool)

  type Resolver = Bytes -> Option<Bytes>

  /** A reference to one serialised key: whole, or split into a shared a-part and the party's b-part. */
  datatype KeyRef = KeyRef(index: int, whole: string, aRef: string, bRef: string)

  predicate ValidRef(r: KeyRef) {
    (r.whole != "" && r.aRef == "" && r.bRef == "") || (r.whole == "" && r.aRef != "" && r.bRef != "")
  }

  // ---- single operations --------------------------------------------------------------

  predicate Foldable(c: Native, acc: KeyMap, pk: Pub, share: KeyMap) {
    forall i :: i in acc ==> i in share && c.foldKey(acc[i], pk, share[i]).Some?
  }

  /** Folding works index by index. */
  function Fold(c: Native, acc: KeyMap, pk: Pub, share: KeyMap): Option<KeyMap> {
    if Foldable(c, acc, pk, share) then Some(map i | i in acc :: c.foldKey(acc[i], pk, share[i]).value) else None
  }

  /** Resolving a reference with nothing cached. */
  function Load(c: Native, resolve: Resolver, r: KeyRef): Option<KeyMap> {
    if r.whole != "" && r.aRef == "" && r.bRef == "" then
      var raw := resolve(r.whole);
      if raw.None? then None else c.readRot(raw.value)
    else if r.whole == "" && r.aRef != "" && r.bRef != "" then
      var a, b := resolve(r.aRef), resolve(r.bRef);
      if a.None? || b.None? || c.readA(a.value).None? then None else c.rebuild(c.readA(a.value).value, b.value)
    else None
  }

  // ---- whole and split keys ---------------------------------------------------------------

  /** How a serialised key is cut into the part all parties share and the party's own. */
  datatype Splitter = Splitter(aPart: Bytes -> Bytes, bPart: Bytes -> Bytes)

  /** The library's law: a key's two parts rebuild what the whole key reads as. */
  ghost predicate Splits(c: Native, sp: Splitter) {
    forall w :: c.readRot(w).Some? ==>
      c.readA(sp.aPart(w)).Some? && c.rebuild(c.readA(sp.aPart(w)).value, sp.bPart(w)) == c.readRot(w)
  }

  /** The reference leads to this serialised key: whole, or its a-part under one name and its b-part under the other. */
  ghost predicate LeadsTo(sp: Splitter, resolve: Resolver, r: KeyRef, w: Bytes) {
    if r.whole != "" then r.aRef == "" && r.bRef == "" && resolve(r.whole) == Some(w)
    else r.aRef != "" && r.bRef != "" && resolve(r.aRef) == Some(sp.aPart(w)) && resolve(r.bRef) == Some(sp.bPart(w))
  }

  /** Either form of a reference loads the key it leads to. */
  lemma EitherFormLoads(c: Native, sp: Splitter, resolve: Resolver, r: KeyRef, w: Bytes)
    requires Splits(c, sp) && c.readRot(w).Some? && LeadsTo(sp, resolve, r, w)
    ensures Load(c, resolve, r) == c.readRot(w)
  {}

  // ---- validation ------------------------------------------------------------------------

  function Indices(refs: seq<KeyRef>): seq<int> { seq(|refs|, i requires 0 <= i < |refs| => refs[i].index) }

  predicate HasIndex(refs: seq<KeyRef>, x: int) { exists j :: 0 <= j < |refs| && refs[j].index == x }

  ghost predicate PartyOk(refs: seq<KeyRef>) {
    && refs != [] && (forall i, j :: 0 <= i < j < |refs| ==> refs[i].index != refs[j].index)
    && forall i :: 0 <= i < |refs| ==> ValidRef(refs[i])
  }

  /** Every party names the same indices, each once. */
  ghost predicate PartiesOk(byParty: seq<seq<KeyRef>>) {
    && byParty != [] && (forall p :: 0 <= p < |byParty| ==> PartyOk(byParty[p]))
    && forall p :: 0 <= p < |byParty| ==> SameNames(byParty[p], byParty[0])
  }

  /** The table holds exactly these references, by index. */
  ghost predicate KeyedBy(keyed: map<int, KeyRef>, refs: seq<KeyRef>) {
    && (forall x :: x in keyed <==> HasIndex(refs, x))
    && forall i :: 0 <= i < |refs| ==> refs[i].index in keyed && keyed[refs[i].index] == refs[i]
  }

  method KeyParty(refs: seq<KeyRef>) returns (r: Option<map<int, KeyRef>>)
    ensures r.Some? <==> PartyOk(refs)
    ensures r.Some? ==> KeyedBy(r.value, refs)
  {
    if |refs| == 0 { return None; }
    var keyed: map<int, KeyRef> := map[];
    for i := 0 to |refs|
      invariant (forall j :: 0 <= j < i ==> ValidRef(refs[j])) && (forall j, k :: 0 <= j < k < i ==> refs[j].index != refs[k].index)
      invariant forall x :: x in keyed ==> exists j :: 0 <= j < i && refs[j].index == x
      invariant forall j :: 0 <= j < i ==> refs[j].index in keyed && keyed[refs[j].index] == refs[j]
    {
      if !ValidRef(refs[i]) { return None; }
      if refs[i].index in keyed { return None; }
      keyed := keyed[refs[i].index := refs[i]];
    }
    return Some(keyed);
  }

  /** Every reference's index is in the table. */
  method AllKnown(refs: seq<KeyRef>, keyed: map<int, KeyRef>) returns (ok: bool)
    ensures ok <==> forall j :: 0 <= j < |refs| ==> refs[j].index in keyed
  {
    for j := 0 to |refs|
      invariant forall k :: 0 <= k < j ==> refs[k].index in keyed
    {
      if refs[j].index !in keyed { return false; }
    }
    return true;
  }

  /** Accepts exactly the submissions in which every party names the lead's indices, each once. */
  method ValidateShareRefs(byParty: seq<seq<KeyRef>>) returns (r: Option<(seq<int>, seq<map<int, KeyRef>>)>)
    ensures r.Some? <==> PartiesOk(byParty)
    ensures r.Some? ==> r.value.0 == Indices(byParty[0]) && |r.value.1| == |byParty|
    ensures r.Some? ==> forall p :: 0 <= p < |byParty| ==> KeyedBy(r.value.1[p], byParty[p])
  {
    if |byParty| == 0 { return None; }
    var all: seq<map<int, KeyRef>> := [];
    for p := 0 to |byParty|
      invariant |all| == p
      invariant forall q :: 0 <= q < p ==> PartyOk(byParty[q]) && KeyedBy(all[q], byParty[q]) && SameNames(byParty[q], byParty[0])
    {
      var keyed := KeyParty(byParty[p]);
      if keyed.None? { return None; }
      if p > 0 {
        var missing := AllKnown(byParty[0], keyed.value);
        var extra := AllKnown(byParty[p], all[0]);
        NamesMatch(byParty[p], keyed.value, byParty[0], all[0]);
        if !missing || !extra { return None; }
      }
      all := all + [keyed.value];
    }
    return Some((Indices(byParty[0]), all));
  }

  ghost predicate SameNames(refs: seq<KeyRef>, lead: seq<KeyRef>) { forall x :: HasIndex(refs, x) <==> HasIndex(lead, x) }

  lemma NamesMatch(refs: seq<KeyRef>, keyed: map<int, KeyRef>, lead: seq<KeyRef>, first: map<int, KeyRef>)
    requires KeyedBy(keyed, refs) && KeyedBy(first, lead)
    ensures SameNames(refs, lead) <==>
      (forall j :: 0 <= j < |lead| ==> lead[j].index in keyed) && (forall j :: 0 <= j < |refs| ==> refs[j].index in first)
  {
    if SameNames(refs, lead) {
      forall j | 0 <= j < |lead| ensures lead[j].index in keyed { assert HasIndex(lead, lead[j].index); }
      forall j | 0 <= j < |refs| ensures refs[j].index in first { assert HasIndex(refs, refs[j].index); }
    }
  }

  // ---- what each way of combining computes ----------------------------------------------------

  /** One index, folded over parties 0..p. */
  function FoldIndex(c: Native, pks: seq<Bytes>, shares: seq<Option<KeyMap>>, p: nat): Option<KeyMap>
    requires p < |shares| <= |pks|
  {
    if p == 0 then
      if shares[0].None? || !c.started(shares[0].value) then None else shares[0]
    else
      var acc := FoldIndex(c, pks, shares, p - 1);
      var pk := c.readPub(pks[p]);
      if acc.None? || pk.None? || shares[p].None? then None else Fold(c, acc.value, pk.value, shares[p].value)
  }

  /** The first k folded indices, merged in order. */
  function MergeIndices(c: Native, accs: seq<Option<KeyMap>>, k: nat): Option<KeyMap>
    requires k <= |accs|
  {
    if k == 0 then Some(map[]) else
      var done, acc := MergeIndices(c, accs, k - 1), accs[k - 1];
      if done.None? || acc.None? then None
      else if k == 1 then acc
      else if c.merged(done.value, acc.value) then Some(done.value + acc.value) else None
  }

  /** The reference: every party's whole map at once, folded party by party. */
  function FoldWhole(c: Native, pks: seq<Bytes>, whole: seq<KeyMap>, p: nat): Option<KeyMap>
    requires p < |whole| <= |pks|
  {
    if p == 0 then Some(whole[0]) else
      var acc := FoldWhole(c, pks, whole, p - 1);
      var pk := c.readPub(pks[p]);
      if acc.None? || pk.None? then None else Fold(c, acc.value, pk.value, whole[p])
  }

  // ---- they agree --------------------------------------------------------------------------------

  /** One index on its own: the keys of parties 0..p folded together. */
  function Chain(c: Native, pks: seq<Bytes>, keys: seq<Key>, p: nat): Option<Key>
    requires p < |keys| <= |pks|
  {
    if p == 0 then Some(keys[0]) else
      var acc := Chain(c, pks, keys, p - 1);
      var pk := c.readPub(pks[p]);
      if acc.None? || pk.None? then None else c.foldKey(acc.value, pk.value, keys[p])
  }

  /** What the parties hold for one index. */
  function Column(whole: seq<KeyMap>, i: int): seq<Key> {
    seq(|whole|, p requires 0 <= p < |whole| => if i in whole[p] then whole[p][i] else "")
  }

  /** The same, as the single-index shares they submit. */
  function Cut(whole: seq<KeyMap>, i: int): seq<Option<KeyMap>> {
    seq(|whole|, p requires 0 <= p < |whole| => Some(map[i := Column(whole, i)[p]]))
  }

  ghost predicate SameIndices(whole: seq<KeyMap>) { forall p :: 0 <= p < |whole| ==> whole[p].Keys == whole[0].Keys }

  function Single(i: int, k: Option<Key>): Option<KeyMap> { if k.None? then None else Some(map[i := k.value]) }

  lemma FoldSingle(c: Native, i: int, a: Key, pk: Pub, b: Key)
    ensures Fold(c, map[i := a], pk, map[i := b]) == Single(i, c.foldKey(a, pk, b))
  {
    var acc, share := map[i := a], map[i := b];
    assert i in acc;
    if c.foldKey(a, pk, b).Some? {
      assert Foldable(c, acc, pk, share);
      assert Fold(c, acc, pk, share).value == map[i := c.foldKey(a, pk, b).value];
    }
  }

  /** Folding single-index shares is folding the keys. */
  lemma {:induction false} IndexIsChain(c: Native, pks: seq<Bytes>, whole: seq<KeyMap>, i: int, p: nat)
    requires p < |whole| <= |pks| && forall m :: c.started(m)
    ensures FoldIndex(c, pks, Cut(whole, i), p) == Single(i, Chain(c, pks, Column(whole, i), p))
  {
    if p == 0 { return; }
    IndexIsChain(c, pks, whole, i, p - 1);
    var acc, pk := Chain(c, pks, Column(whole, i), p - 1), c.readPub(pks[p]);
    if acc.Some? && pk.Some? { FoldSingle(c, i, acc.value, pk.value, Column(whole, i)[p]); }
  }

  /** The result for every index, by party p. */
  function Chains(c: Native, pks: seq<Bytes>, whole: seq<KeyMap>, p: nat): int -> Option<Key>
    requires p < |whole| <= |pks|
  {
    i => Chain(c, pks, Column(whole, i), p)
  }

  /** r holds the results for exactly these indices, or is missing because one of them has none. */
  ghost predicate Collects(indices: set<int>, results: int -> Option<Key>, r: Option<KeyMap>) {
    if r.Some? then r.value.Keys == indices && forall i :: i in indices ==> results(i) == Some(r.value[i])
    else exists i :: i in indices && results(i).None?
  }

  lemma CollectsOnce(indices: set<int>, results: int -> Option<Key>, r: Option<KeyMap>, w: Option<KeyMap>)
    requires Collects(indices, results, r) && Collects(indices, results, w)
    ensures r == w
  {
    if r.Some? && w.Some? {
      forall i | i in indices ensures r.value[i] == w.value[i] { assert results(i) == Some(r.value[i]) == Some(w.value[i]); }
      assert r.value == w.value;
    }
  }

  /** Folding whole maps is folding every index on its own; one failing index fails them all. */
  lemma {:induction false} WholeIsChains(c: Native, pks: seq<Bytes>, whole: seq<KeyMap>, p: nat)
    requires p < |whole| <= |pks| && SameIndices(whole) && exists i :: i in whole[0].Keys
    ensures Collects(whole[0].Keys, Chains(c, pks, whole, p), FoldWhole(c, pks, whole, p))
  {
    if p == 0 { return; }
    WholeIsChains(c, pks, whole, p - 1);
    var acc, pk := FoldWhole(c, pks, whole, p - 1), c.readPub(pks[p]);
    var was, now := Chains(c, pks, whole, p - 1), Chains(c, pks, whole, p);
    if acc.None? {
      var i :| i in whole[0].Keys && was(i).None?;
      assert now(i).None?;
    } else if pk.None? {
      var i :| i in whole[0].Keys;
      assert now(i).None?;
    } else {
      forall i | i in whole[0].Keys ensures i in whole[p] && now(i) == c.foldKey(acc.value[i], pk.value, whole[p][i]) {
        ChainStep(c, pks, whole, p, i, acc.value[i], pk.value);
      }
      FoldCollects(c, acc.value, pk.value, whole[p], whole[0].Keys, now);
    }
  }

  lemma ChainStep(c: Native, pks: seq<Bytes>, whole: seq<KeyMap>, p: nat, i: int, k: Key, pk: Pub)
    requires 0 < p < |whole| <= |pks| && SameIndices(whole) && i in whole[0].Keys
    requires Chains(c, pks, whole, p - 1)(i) == Some(k) && c.readPub(pks[p]) == Some(pk)
    ensures i in whole[p] && Chains(c, pks, whole, p)(i) == c.foldKey(k, pk, whole[p][i])
  {
    assert whole[p].Keys == whole[0].Keys;
    NextKey(c, pks, whole, p, i, k, pk);
  }

  lemma FoldCollects(c: Native, acc: KeyMap, pk: Pub, share: KeyMap, indices: set<int>, results: int -> Option<Key>)
    requires acc.Keys == indices
    requires forall i :: i in indices ==> i in share && results(i) == c.foldKey(acc[i], pk, share[i])
    ensures Collects(indices, results, Fold(c, acc, pk, share))
  {
    if !Foldable(c, acc, pk, share) {
      var i :| i in acc && !(i in share && c.foldKey(acc[i], pk, share[i]).Some?);
      assert i in indices && results(i).None?;
    }
  }

  /** Every index folded on its own, from the shares cut out of the parties' whole maps. */
  function FoldCuts(c: Native, pks: seq<Bytes>, whole: seq<KeyMap>, indices: seq<int>): seq<Option<KeyMap>>
    requires 0 < |whole| <= |pks|
  {
    seq(|indices|, k requires 0 <= k < |indices| => FoldIndex(c, pks, Cut(whole, indices[k]), |whole| - 1))
  }

  ghost function SetOf(s: seq<int>): set<int> { set x | x in s }

  /** Merging collects the indices' own results; one failing index fails the merge. */
  lemma {:induction false} MergeIsChains(c: Native, accs: seq<Option<KeyMap>>, indices: seq<int>, results: int -> Option<Key>, k: nat)
    requires k <= |indices| == |accs| && (forall a, b :: c.merged(a, b))
    requires forall j :: 0 <= j < |indices| ==> accs[j] == Single(indices[j], results(indices[j]))
    ensures Collects(SetOf(indices[..k]), results, MergeIndices(c, accs, k))
  {
    if k == 0 { return; }
    var i := indices[k - 1];
    MergeIsChains(c, accs, indices, results, k - 1);
    assert indices[..k] == indices[..k - 1] + [i];
    assert SetOf(indices[..k]) == SetOf(indices[..k - 1]) + {i};
    OneMore(SetOf(indices[..k - 1]), results, MergeIndices(c, accs, k - 1), i);
    if k == 1 && accs[0].Some? { assert map[] + accs[0].value == accs[0].value; }
  }

  lemma OneMore(indices: set<int>, results: int -> Option<Key>, done: Option<KeyMap>, i: int)
    requires Collects(indices, results, done)
    ensures Collects(indices + {i}, results,
                     if done.None? || results(i).None? then None else Some(done.value + map[i := results(i).value]))
  {
    if done.None? { var j :| j in indices && results(j).None?; assert j in indices + {i}; }
    else if results(i).None? { assert i in indices + {i}; }
  }

  lemma MergedCuts(c: Native, pks: seq<Bytes>, whole: seq<KeyMap>, indices: seq<int>)
    requires 0 < |whole| <= |pks| && (forall m :: c.started(m)) && (forall a, b :: c.merged(a, b))
    ensures Collects(SetOf(indices), Chains(c, pks, whole, |whole| - 1), MergeIndices(c, FoldCuts(c, pks, whole, indices), |indices|))
  {
    var accs, results := FoldCuts(c, pks, whole, indices), Chains(c, pks, whole, |whole| - 1);
    assert indices[..|indices|] == indices;
    forall j | 0 <= j < |indices| ensures accs[j] == Single(indices[j], results(indices[j])) {
      IndexIsChain(c, pks, whole, indices[j], |whole| - 1);
    }
    MergeIsChains(c, accs, indices, results, |indices|);
  }

  /** Folding index by index and merging is folding the whole maps party by party. */
  lemma PerIndexIsWhole(c: Native, pks: seq<Bytes>, whole: seq<KeyMap>, indices: seq<int>)
    requires 0 < |whole| <= |pks| && SameIndices(whole) && indices != []
    requires (forall m :: c.started(m)) && (forall a, b :: c.merged(a, b))
    requires SetOf(indices) == whole[0].Keys
    ensures MergeIndices(c, FoldCuts(c, pks, whole, indices), |indices|) == FoldWhole(c, pks, whole, |whole| - 1)
  {
    assert indices[0] in SetOf(indices);
    MergedCuts(c, pks, whole, indices);
    WholeIsChains(c, pks, whole, |whole| - 1);
    CollectsOnce(whole[0].Keys, Chains(c, pks, whole, |whole| - 1),
                 MergeIndices(c, FoldCuts(c, pks, whole, indices), |indices|), FoldWhole(c, pks, whole, |whole| - 1));
  }

  // ---- whole shares, one at a time or all at once -----------------------------------------------

  function ReadAll(c: Native, shares: seq<Bytes>): seq<Option<KeyMap>> {
    seq(|shares|, p requires 0 <= p < |shares| => c.readRot(shares[p]))
  }

  predicate AllRead<T>(xs: seq<Option<T>>) { forall p :: 0 <= p < |xs| ==> xs[p].Some? }

  function Values(xs: seq<Option<KeyMap>>): seq<KeyMap>
    requires AllRead(xs)
  {
    seq(|xs|, p requires 0 <= p < |xs| => xs[p].value)
  }

  /** One share at a time: the lead's public key is never read. */
  function Incremental(c: Native, pks: seq<Bytes>, shares: seq<Bytes>): Option<KeyMap>
    requires 0 < |shares| <= |pks|
  {
    FoldIndex(c, pks, ReadAll(c, shares), |shares| - 1)
  }

  /** Everything resident at once: every public key and every share is read first. */
  ghost function AllAtOnce(c: Native, pks: seq<Bytes>, shares: seq<Bytes>): Option<KeyMap>
    requires 0 < |shares| <= |pks|
  {
    if AllRead(ReadAll(c, shares)) && (forall p :: 0 <= p < |shares| ==> c.readPub(pks[p]).Some?)
    then FoldWhole(c, pks, Values(ReadAll(c, shares)), |shares| - 1) else None
  }

  lemma {:induction false} FoldOfValues(c: Native, pks: seq<Bytes>, xs: seq<Option<KeyMap>>, p: nat)
    requires p < |xs| <= |pks| && AllRead(xs) && forall m :: c.started(m)
    ensures FoldIndex(c, pks, xs, p) == FoldWhole(c, pks, Values(xs), p)
  {
    if p > 0 { FoldOfValues(c, pks, xs, p - 1); }
  }

  lemma {:induction false} FoldNeedsAll(c: Native, pks: seq<Bytes>, xs: seq<Option<KeyMap>>, p: nat, q: nat)
    requires q <= p < |xs| <= |pks| && FoldIndex(c, pks, xs, p).Some?
    ensures xs[q].Some? && (q > 0 ==> c.readPub(pks[q]).Some?)
  {
    if q < p { FoldNeedsAll(c, pks, xs, p - 1, q); }
  }

  // ---- when there is a result --------------------------------------------------------------------

  /**
   * Parties 1..p are in order: their public keys can be read, they hold every index of the lead, and each
   * index folds on its own. Nothing is said of the lead's public key.
   */
  ghost predicate InOrder(c: Native, pks: seq<Bytes>, whole: seq<KeyMap>, p: nat)
    requires p < |whole| <= |pks|
  {
    && (forall q :: 1 <= q <= p ==> c.readPub(pks[q]).Some? && whole[0].Keys <= whole[q].Keys)
    && forall i :: i in whole[0].Keys ==> Chains(c, pks, whole, p)(i).Some?
  }

  /** The fold has a result exactly then, and the result holds each index's own chain. */
  lemma {:induction false} FoldDefined(c: Native, pks: seq<Bytes>, whole: seq<KeyMap>, p: nat)
    requires p < |whole| <= |pks|
    ensures FoldWhole(c, pks, whole, p).Some? <==> InOrder(c, pks, whole, p)
    ensures FoldWhole(c, pks, whole, p).Some? ==>
      Collects(whole[0].Keys, Chains(c, pks, whole, p), FoldWhole(c, pks, whole, p))
  {
    if p == 0 { return; }
    FoldDefined(c, pks, whole, p - 1);
    var acc, pk := FoldWhole(c, pks, whole, p - 1), c.readPub(pks[p]);
    if acc.None? || pk.None? {
      if InOrder(c, pks, whole, p) { ChainsBefore(c, pks, whole, p); }
    } else {
      LastFold(c, pks, whole, p, acc.value, pk.value);
    }
  }

  lemma ChainsBefore(c: Native, pks: seq<Bytes>, whole: seq<KeyMap>, p: nat)
    requires 0 < p < |whole| <= |pks| && InOrder(c, pks, whole, p)
    ensures InOrder(c, pks, whole, p - 1)
  {
    forall i | i in whole[0].Keys ensures Chains(c, pks, whole, p - 1)(i).Some? {
      assert Chains(c, pks, whole, p)(i).Some?;
    }
  }

  lemma LastFold(c: Native, pks: seq<Bytes>, whole: seq<KeyMap>, p: nat, acc: KeyMap, pk: Pub)
    requires 0 < p < |whole| <= |pks| && c.readPub(pks[p]) == Some(pk) && InOrder(c, pks, whole, p - 1)
    requires Collects(whole[0].Keys, Chains(c, pks, whole, p - 1), Some(acc))
    ensures Fold(c, acc, pk, whole[p]).Some? <==> InOrder(c, pks, whole, p)
    ensures Fold(c, acc, pk, whole[p]).Some? ==>
      Collects(whole[0].Keys, Chains(c, pks, whole, p), Fold(c, acc, pk, whole[p]))
  {
    if Foldable(c, acc, pk, whole[p]) {
      forall i | i in whole[0].Keys
        ensures i in whole[p] && Chains(c, pks, whole, p)(i) == c.foldKey(acc[i], pk, whole[p][i]) && Chains(c, pks, whole, p)(i).Some?
      {
        assert i in acc;
        NextKey(c, pks, whole, p, i, acc[i], pk);
      }
      FoldCollects(c, acc, pk, whole[p], whole[0].Keys, Chains(c, pks, whole, p));
    } else {
      var i :| i in acc && !(i in whole[p] && c.foldKey(acc[i], pk, whole[p][i]).Some?);
      if i in whole[p] { NextKey(c, pks, whole, p, i, acc[i], pk); }
    }
  }

  lemma NextKey(c: Native, pks: seq<Bytes>, whole: seq<KeyMap>, p: nat, i: int, k: Key, pk: Pub)
    requires 0 < p < |whole| <= |pks| && i in whole[p]
    requires Chains(c, pks, whole, p - 1)(i) == Some(k) && c.readPub(pks[p]) == Some(pk)
    ensures Chains(c, pks, whole, p)(i) == c.foldKey(k, pk, whole[p][i])
  {}

  /** The shares can be read, and everything but perhaps the lead's public key is in order. */
  ghost predicate OthersInOrder(c: Native, pks: seq<Bytes>, shares: seq<Bytes>)
    requires 0 < |shares| <= |pks|
  {
    AllRead(ReadAll(c, shares)) && InOrder(c, pks, Values(ReadAll(c, shares)), |shares| - 1)
  }

  lemma AllAtOnceDefined(c: Native, pks: seq<Bytes>, shares: seq<Bytes>)
    requires 0 < |shares| <= |pks| && AllRead(ReadAll(c, shares))
    ensures var whole := FoldWhole(c, pks, Values(ReadAll(c, shares)), |shares| - 1);
      AllAtOnce(c, pks, shares) == (if c.readPub(pks[0]).Some? then whole else None)
    ensures FoldWhole(c, pks, Values(ReadAll(c, shares)), |shares| - 1).Some? <==> OthersInOrder(c, pks, shares)
  {
    FoldDefined(c, pks, Values(ReadAll(c, shares)), |shares| - 1);
  }

  /**
   * The incremental combine gives the all-at-once result, failures included, exactly when the lead's public
   * key can be read or something else is out of order: it succeeds where that unread key is the only fault.
   */
  lemma IncrementalIsAllAtOnce(c: Native, pks: seq<Bytes>, shares: seq<Bytes>)
    requires 0 < |shares| <= |pks| && forall m :: c.started(m)
    ensures Incremental(c, pks, shares) == AllAtOnce(c, pks, shares)
        <==> c.readPub(pks[0]).Some? || !OthersInOrder(c, pks, shares)
  {
    var xs, n := ReadAll(c, shares), |shares| - 1;
    if AllRead(xs) {
      FoldOfValues(c, pks, xs, n);
      AllAtOnceDefined(c, pks, shares);
    } else {
      var q :| 0 <= q < |shares| && xs[q].None?;
      if FoldIndex(c, pks, xs, n).Some? { FoldNeedsAll(c, pks, xs, n, q); }
    }
  }

  /** So does combining index by index, from the single-index shares cut out of the same maps. */
  lemma PerIndexIsAllAtOnce(c: Native, pks: seq<Bytes>, shares: seq<Bytes>, whole: seq<KeyMap>, indices: seq<int>)
    requires 0 < |shares| <= |pks| && AllRead(ReadAll(c, shares)) && whole == Values(ReadAll(c, shares))
    requires SameIndices(whole) && indices != [] && SetOf(indices) == whole[0].Keys
    requires (forall m :: c.started(m)) && (forall a, b :: c.merged(a, b))
    ensures MergeIndices(c, FoldCuts(c, pks, whole, indices), |indices|) == AllAtOnce(c, pks, shares)
        <==> c.readPub(pks[0]).Some? || !OthersInOrder(c, pks, shares)
  {
    PerIndexIsWhole(c, pks, whole, indices);
    AllAtOnceDefined(c, pks, shares);
  }

  // ---- an input on which they differ ---------------------------------------------------------------

  /** A library whose keys are their own bytes, and whose only malformed public key is the empty one. */
  function PlainNative(): Native {
    Native(b => Some(map[0 := b]), m => Some(""), b => if b == "" then None else Some(b), b => Some(b),
           (a, b) => Some(map[0 := a + b]), (a, pk, b) => Some(a + b), m => true, (a, b) => true)
  }

  /** In that library a key may be cut anywhere, here in the middle. */
  const Halves := Splitter(w => w[..|w| / 2], w => w[|w| / 2..])

  lemma PlainSplits()
    ensures Splits(PlainNative(), Halves)
    ensures Load(PlainNative(), x => Some(x), KeyRef(0, "", "A", "B")) == Some(map[0 := "AB"])
  {
    var c := PlainNative();
    forall w | c.readRot(w).Some?
      ensures c.readA(Halves.aPart(w)).Some? && c.rebuild(c.readA(Halves.aPart(w)).value, Halves.bPart(w)) == c.readRot(w)
    {
      assert w[..|w| / 2] + w[|w| / 2..] == w;
    }
    assert "A" + "B" == "AB";
  }

  /** With a malformed lead key the incremental and the per-index combine succeed, and the all-at-once one refuses. */
  lemma LeadKeyGoesUnread(whole: seq<KeyMap>)
    requires whole == [map[0 := "x"], map[0 := "y"]]
    ensures Incremental(PlainNative(), ["", "k"], ["x", "y"]) == Some(map[0 := "xy"])
    ensures MergeIndices(PlainNative(), FoldCuts(PlainNative(), ["", "k"], whole, [0]), 1) == Some(map[0 := "xy"])
    ensures AllAtOnce(PlainNative(), ["", "k"], ["x", "y"]) == None
  {
    var c, pks, shares, indices := PlainNative(), ["", "k"], ["x", "y"], [0];
    assert Values(ReadAll(c, shares)) == whole;
    FoldOfValues(c, pks, ReadAll(c, shares), 1);
    FoldSingle(c, 0, "x", "k", "y");
    assert "x" + "y" == "xy";
    assert c.foldKey("x", "k", "y") == Some("xy");
    assert FoldWhole(c, pks, whole, 0) == Some(whole[0]);
    assert FoldWhole(c, pks, whole, 1) == Some(map[0 := "xy"]);
    assert SetOf(indices) == whole[0].Keys;
    PerIndexIsWhole(c, pks, whole, indices);
    assert c.readPub(pks[0]).None?;
  }
}

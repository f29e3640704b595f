/**
 * The layered onions of pkg/ares/onion/onion.go and the relay that walks them from peeler to peeler
 * (examples/voting/cmd/session-service/main.go). Encryption is a pair of functions with a round-trip law.
 */
module Onion {
  import opened Wrappers
  import opened Sequences

  type Bytes = string
  type Id = string

  /** One encryption scheme; the third argument of seal is the randomness it draws. */
  datatype Scheme = Scheme(seal: (Bytes, Bytes, nat) -> Option<Bytes>, unseal: (Bytes, Bytes) -> Option<Bytes>)

  /** The key pair's law: what is sealed to pub opens under priv. */
  ghost predicate Opens(c: Scheme, priv: Bytes, pub: Bytes) {
    forall data, coin :: c.seal(pub, data, coin).Some? && c.unseal(priv, c.seal(pub, data, coin).value) == Some(data)
  }

  datatype OnionError = BadSelfIndex | WrapFailed(layer: nat) | PeelFailed(item: nat) | SelfNotFound

  // ---- building -----------------------------------------------------------------

  /** The onion with layers i, i+1, ..., the outermost for peeler i. */
  function Layers(c: Scheme, pubs: seq<Bytes>, coins: seq<nat>, payload: Bytes, i: nat): Option<Bytes>
    requires i <= |pubs| == |coins|
    decreases |pubs| - i
  {
    if i == |pubs| then Some(payload) else
      var inner := Layers(c, pubs, coins, payload, i + 1);
      if inner.None? then None else c.seal(pubs[i], inner.value, coins[i])
  }

  /** Wraps in the reverse of peel order and remembers the bytes right after the builder's own layer. */
  method BuildOnion(c: Scheme, payload: Bytes, pubs: seq<Bytes>, coins: seq<nat>, selfIndex: int)
    returns (r: Result<(Bytes, Bytes), OnionError>)
    requires |coins| == |pubs|
    ensures r.Ok? <==> 0 <= selfIndex < |pubs| && Layers(c, pubs, coins, payload, 0).Some?
    ensures r.Ok? ==> Layers(c, pubs, coins, payload, 0) == Some(r.value.0)
    ensures r.Ok? ==> Layers(c, pubs, coins, payload, selfIndex) == Some(r.value.1)
  {
    if selfIndex < 0 || selfIndex >= |pubs| { return Err(BadSelfIndex); }
    var data, memo := payload, "";
    var i := |pubs|;
    while i > 0
      invariant 0 <= i <= |pubs| && Layers(c, pubs, coins, payload, i) == Some(data)
      invariant i <= selfIndex ==> Layers(c, pubs, coins, payload, selfIndex) == Some(memo)
    {
      i := i - 1;
      var sealedData := c.seal(pubs[i], data, coins[i]);
      if sealedData.None? {
        NoOuterLayers(c, pubs, coins, payload, i);
        return Err(WrapFailed(i));
      }
      data := sealedData.value;
      if i == selfIndex { memo := data; }
    }
    return Ok((data, memo));
  }

  lemma {:induction false} NoOuterLayers(c: Scheme, pubs: seq<Bytes>, coins: seq<nat>, payload: Bytes, i: nat)
    requires i <= |pubs| == |coins| && Layers(c, pubs, coins, payload, i).None?
    ensures Layers(c, pubs, coins, payload, 0).None?
  {
    if i > 0 { NoOuterLayers(c, pubs, coins, payload, i - 1); }
  }

  // ---- peeling --------------------------------------------------------------------

  /** The last position that holds exactly these bytes, or -1. */
  function LastMatch(items: seq<Bytes>, memo: Bytes): int {
    if items == [] then -1
    else if items[|items| - 1] == memo then |items| - 1
    else LastMatch(items[..|items| - 1], memo)
  }

  method PeelBatch(c: Scheme, priv: Bytes, memo: Option<Bytes>, onions: seq<Bytes>)
    returns (r: Result<(seq<Bytes>, int), OnionError>)
    ensures r.Ok? <==>
      (forall i :: 0 <= i < |onions| ==> c.unseal(priv, onions[i]).Some?) && (memo.Some? ==> memo.value in onions)
    ensures r.Ok? ==> |r.value.0| == |onions|
    ensures r.Ok? ==> forall i :: 0 <= i < |onions| ==> c.unseal(priv, onions[i]) == Some(r.value.0[i])
    ensures r.Ok? ==> r.value.1 == if memo.None? then -1 else LastMatch(onions, memo.value)
  {
    var ownIndex := -1;
    var peeled: seq<Bytes> := [];
    for i := 0 to |onions|
      invariant |peeled| == i && forall j :: 0 <= j < i ==> c.unseal(priv, onions[j]) == Some(peeled[j])
      invariant ownIndex == if memo.None? then -1 else LastMatch(onions[..i], memo.value)
    {
      assert onions[..i + 1][..i] == onions[..i];
      if memo.Some? && onions[i] == memo.value { ownIndex := i; }
      var inner := c.unseal(priv, onions[i]);
      if inner.None? { return Err(PeelFailed(i)); }
      peeled := peeled + [inner.value];
    }
    assert onions[..|onions|] == onions;
    if memo.Some? { MatchFound(onions, memo.value); }
    if memo.Some? && ownIndex < 0 { return Err(SelfNotFound); }
    return Ok((peeled, ownIndex));
  }

  lemma {:induction false} MatchFound(items: seq<Bytes>, memo: Bytes)
    ensures var k := LastMatch(items, memo);
      if memo in items then 0 <= k < |items| && items[k] == memo && (forall j :: k < j < |items| ==> items[j] != memo)
      else k == -1
  {
    if items == [] { return; }
    var n := |items| - 1;
    MatchFound(items[..n], memo);
    assert items == items[..n] + [items[n]];
  }

  // ---- the whole shuffle -------------------------------------------------------------

  datatype Party = Party(id: Id, priv: Bytes, pub: Bytes, payload: Bytes, coins: seq<nat>)

  function Pubs(ps: seq<Party>): seq<Bytes> { seq(|ps|, i requires 0 <= i < |ps| => ps[i].pub) }
  function Ids(ps: seq<Party>): seq<Id> { seq(|ps|, i requires 0 <= i < |ps| => ps[i].id) }
  function Payloads(ps: seq<Party>): seq<Bytes> { seq(|ps|, i requires 0 <= i < |ps| => ps[i].payload) }

  /** Every party holds a matching key pair and enough randomness for its own onion. */
  ghost predicate Ready(c: Scheme, ps: seq<Party>) {
    forall i :: 0 <= i < |ps| ==> Opens(c, ps[i].priv, ps[i].pub) && |ps[i].coins| == |ps|
  }

  /** Party p's item as peeler k should receive it. */
  ghost function Item(c: Scheme, ps: seq<Party>, p: nat, k: nat): Option<Bytes>
    requires Ready(c, ps) && p < |ps| && k <= |ps|
  {
    Layers(c, Pubs(ps), ps[p].coins, ps[p].payload, k)
  }

  lemma {:induction false} ItemsExist(c: Scheme, ps: seq<Party>, p: nat, k: nat)
    requires Ready(c, ps) && p < |ps| && k <= |ps|
    ensures Item(c, ps, p, k).Some?
    ensures k < |ps| ==> c.unseal(ps[k].priv, Item(c, ps, p, k).value) == Item(c, ps, p, k + 1)
    decreases |ps| - k
  {
    if k < |ps| {
      ItemsExist(c, ps, p, k + 1);
      assert Opens(c, ps[k].priv, ps[k].pub);
    }
  }

  /** The batch in front of peeler k: each party's item, in some order of the parties. */
  ghost predicate AtRound(c: Scheme, ps: seq<Party>, batch: seq<Bytes>, who: seq<nat>, k: nat)
    requires Ready(c, ps) && k <= |ps|
  {
    && |batch| == |who| == |ps| && Distinct(who) && (forall i :: 0 <= i < |who| ==> who[i] < |ps|)
    && forall i :: 0 <= i < |batch| ==> Item(c, ps, who[i], k) == Some(batch[i])
  }

  /**
   * Peeler k opens every item of the batch, whatever order it arrives in, finds its own by its memo, and
   * hands on a batch for peeler k+1 in the same order.
   */
  method PeelRound(c: Scheme, ps: seq<Party>, batch: seq<Bytes>, ghost who: seq<nat>, k: nat)
    returns (r: Result<(seq<Bytes>, int), OnionError>)
    requires Ready(c, ps) && k < |ps| && AtRound(c, ps, batch, who, k)
    ensures r.Ok? && AtRound(c, ps, r.value.0, who, k + 1)
    ensures 0 <= r.value.1 < |batch| && Item(c, ps, k, k) == Some(batch[r.value.1])
    ensures Distinct(batch) ==> who[r.value.1] == k
  {
    ItemsExist(c, ps, k, k);
    var memo := Layers(c, Pubs(ps), ps[k].coins, ps[k].payload, k);
    forall i | 0 <= i < |batch| ensures c.unseal(ps[k].priv, batch[i]) == Item(c, ps, who[i], k + 1) && Item(c, ps, who[i], k + 1).Some? {
      ItemsExist(c, ps, who[i], k);
      ItemsExist(c, ps, who[i], k + 1);
    }
    ghost var own := Pigeonhole(who, k);
    assert batch[own] == memo.value;
    MatchFound(batch, memo.value);
    r := PeelBatch(c, ps[k].priv, memo, batch);
  }

  function Reordered<T>(s: seq<T>, order: seq<nat>): seq<T>
    requires forall i :: 0 <= i < |order| ==> order[i] < |s|
  {
    seq(|order|, i requires 0 <= i < |order| => s[order[i]])
  }

  ghost predicate IsOrder(order: seq<nat>, n: nat) {
    |order| == n && Distinct(order) && forall i :: 0 <= i < n ==> order[i] < n
  }

  /** A peeler may reorder what it hands on: the next round accepts the batch just as well. */
  lemma ReorderKeepsRound(c: Scheme, ps: seq<Party>, batch: seq<Bytes>, who: seq<nat>, k: nat, order: seq<nat>)
    requires Ready(c, ps) && k <= |ps| && AtRound(c, ps, batch, who, k) && IsOrder(order, |ps|)
    ensures AtRound(c, ps, Reordered(batch, order), Reordered(who, order), k)
  {}

  /** After the last round every party's payload is in the batch, at exactly one place. */
  lemma EveryPayloadArrives(c: Scheme, ps: seq<Party>, batch: seq<Bytes>, who: seq<nat>, p: nat) returns (i: nat)
    requires Ready(c, ps) && AtRound(c, ps, batch, who, |ps|) && p < |ps|
    ensures i < |batch| && who[i] == p && batch[i] == ps[p].payload
    ensures forall j :: 0 <= j < |batch| && who[j] == p ==> j == i
    ensures forall j :: 0 <= j < |batch| ==> batch[j] == ps[who[j]].payload
  {
    i := Pigeonhole(who, p);
    forall j | 0 <= j < |batch| ensures batch[j] == ps[who[j]].payload {
      assert Item(c, ps, who[j], |ps|) == Some(batch[j]);
    }
  }

  // ---- no item is bare before the last round -------------------------------------------

  /** Sealing adds a fixed overhead, as an envelope of key, nonce and tag does. */
  ghost predicate Grows(c: Scheme, overhead: nat) {
    forall pub, data, coin :: c.seal(pub, data, coin).Some? ==> |c.seal(pub, data, coin).value| == |data| + overhead
  }

  lemma {:induction false} ItemLength(c: Scheme, ps: seq<Party>, p: nat, k: nat, overhead: nat)
    requires Ready(c, ps) && p < |ps| && k <= |ps| && Grows(c, overhead)
    ensures Item(c, ps, p, k).Some? && |Item(c, ps, p, k).value| == |ps[p].payload| + (|ps| - k) * overhead
    decreases |ps| - k
  {
    ItemsExist(c, ps, p, k);
    if k < |ps| { ItemLength(c, ps, p, k + 1, overhead); }
  }

  /**
   * Each round takes one layer off every item alike: before the last, an item is still sealed to its next peeler
   * and is longer than its payload, so it is no party's payload of that length or less.
   */
  lemma NothingIsBareEarly(c: Scheme, ps: seq<Party>, p: nat, k: nat, overhead: nat)
    requires Ready(c, ps) && p < |ps| && k < |ps| && Grows(c, overhead) && overhead > 0
    ensures Item(c, ps, p, k + 1).Some?
    ensures Item(c, ps, p, k) == c.seal(ps[k].pub, Item(c, ps, p, k + 1).value, ps[p].coins[k])
    ensures forall q :: 0 <= q < |ps| && |ps[q].payload| <= |ps[p].payload| ==> Item(c, ps, p, k) != Some(ps[q].payload)
  {
    ItemsExist(c, ps, p, k + 1);
    ItemLength(c, ps, p, k, overhead);
    SomeOverhead(|ps| - k, overhead);
  }

  lemma SomeOverhead(layers: nat, overhead: nat)
    requires layers > 0 && overhead > 0
    ensures layers * overhead > 0
  {}

  // ---- the relay ---------------------------------------------------------------------

  /** A submitted batch as parsed: the list of encoded onions, if it parses. */
  type Parse = Bytes -> Option<seq<Bytes>>

  predicate Usable(bucket: map<Id, Bytes>, parse: Parse, valid: Bytes -> bool, id: Id) {
    id in bucket && parse(bucket[id]).Some? && |parse(bucket[id]).value| > 0 && valid(parse(bucket[id]).value[0])
  }

  predicate AllUsable(participants: seq<Id>, bucket: map<Id, Bytes>, parse: Parse, valid: Bytes -> bool) {
    forall i :: 0 <= i < |participants| ==> Usable(bucket, parse, valid, participants[i])
  }

  /** The first onion a participant submitted. */
  function FirstOf(bucket: map<Id, Bytes>, parse: Parse, id: Id): Option<Bytes> {
    if id in bucket && parse(bucket[id]).Some? && |parse(bucket[id]).value| > 0 then Some(parse(bucket[id]).value[0]) else None
  }

  /** Each participant's first onion, in participant order, or nothing at all. */
  method AssembleBatch(participants: seq<Id>, bucket: map<Id, Bytes>, parse: Parse, valid: Bytes -> bool)
    returns (r: Option<seq<Bytes>>)
    ensures r.Some? <==> AllUsable(participants, bucket, parse, valid)
    ensures r.Some? ==> |r.value| == |participants|
    ensures r.Some? ==> forall i :: 0 <= i < |participants| ==> FirstOf(bucket, parse, participants[i]) == Some(r.value[i])
  {
    var onions: seq<Bytes> := [];
    for i := 0 to |participants|
      invariant |onions| == i
      invariant forall j :: 0 <= j < i ==>
        Usable(bucket, parse, valid, participants[j]) && FirstOf(bucket, parse, participants[j]) == Some(onions[j])
    {
      var p := participants[i];
      if p !in bucket { return None; }
      var list := parse(bucket[p]);
      if list.None? || |list.value| == 0 || !valid(list.value[0]) { return None; }
      onions := onions + [list.value[0]];
    }
    return Some(onions);
  }

  datatype Forward = Forward(to: Id, onions: seq<Bytes>)

  /** On a batch message: start the chain once every participant's onion is in. */
  method RelayBatch(participants: seq<Id>, bucket: map<Id, Bytes>, parse: Parse, valid: Bytes -> bool)
    returns (r: Option<Forward>)
    ensures r.Some? <==> participants != [] && |bucket| >= |participants| && AllUsable(participants, bucket, parse, valid)
    ensures Distinct(participants) ==> (r.Some? <==> participants != [] && AllUsable(participants, bucket, parse, valid))
    ensures r.Some? ==> r.value.to == participants[0] && |r.value.onions| == |participants|
    ensures r.Some? ==> forall i :: 0 <= i < |participants| ==> FirstOf(bucket, parse, participants[i]) == Some(r.value.onions[i])
  {
    if Distinct(participants) && AllUsable(participants, bucket, parse, valid) { EnoughCollected(participants, bucket); }
    if |participants| == 0 { return None; }
    if |bucket| < |participants| { return None; }
    var all := AssembleBatch(participants, bucket, parse, valid);
    if all.None? { return None; }
    return Some(Forward(participants[0], all.value));
  }

  lemma EnoughCollected(participants: seq<Id>, bucket: map<Id, Bytes>)
    requires Distinct(participants) && forall i :: 0 <= i < |participants| ==> participants[i] in bucket
    ensures |bucket| >= |participants|
  {
    DistinctCount(participants);
    SubsetCard((set x | x in participants), bucket.Keys);
  }

  /** On a peeled batch from a peeler: the next participant, if there is one. */
  method RelayPeeled(participants: seq<Id>, from: Id) returns (next: Option<Id>)
    ensures next.Some? ==> exists k :: 0 <= k < |participants| - 1 && participants[k] == from && next.value == participants[k + 1]
    ensures forall k :: 0 <= k < |participants| && participants[k] == from && Distinct(participants) ==>
      next == if k + 1 < |participants| then Some(participants[k + 1]) else None
    ensures from !in participants ==> next.None?
  {
    var peeler := -1;
    var i := 0;
    while i < |participants| && peeler < 0
      invariant 0 <= i <= |participants| && -1 <= peeler < i
      invariant peeler >= 0 ==> participants[peeler] == from
      invariant peeler < 0 ==> from !in participants[..i]
    {
      if participants[i] == from { peeler := i; }
      i := i + 1;
    }
    if peeler < 0 || peeler >= |participants| - 1 { return None; }
    return Some(participants[peeler + 1]);
  }

  /** Every party's onion, in participant order. */
  method BuildAll(c: Scheme, ps: seq<Party>) returns (batch: seq<Bytes>)
    requires Ready(c, ps)
    ensures |batch| == |ps| && forall i :: 0 <= i < |ps| ==> Item(c, ps, i, 0) == Some(batch[i])
  {
    batch := [];
    for p := 0 to |ps|
      invariant |batch| == p && forall i :: 0 <= i < p ==> Item(c, ps, i, 0) == Some(batch[i])
    {
      ItemsExist(c, ps, p, 0);
      var r := BuildOnion(c, ps[p].payload, Pubs(ps), ps[p].coins, p);
      batch := batch + [r.value.0];
    }
  }

  ghost predicate AreOrders(orders: seq<seq<nat>>, n: nat) {
    |orders| == n && forall k :: 0 <= k < n ==> IsOrder(orders[k], n)
  }

  /** Whose item is where once the first k peelers have each applied their own order. */
  ghost function Arrangement(orders: seq<seq<nat>>, n: nat, k: nat): (who: seq<nat>)
    requires AreOrders(orders, n) && k <= n
    ensures IsOrder(who, n)
  {
    if k == 0 then seq(n, i requires i >= 0 => i) else Reordered(Arrangement(orders, n, k - 1), orders[k - 1])
  }

  /** The batch is in front of peeler k, arranged by what the peelers before it did. */
  ghost predicate InSession(c: Scheme, ps: seq<Party>, orders: seq<seq<nat>>, batch: seq<Bytes>, k: nat) {
    Ready(c, ps) && AreOrders(orders, |ps|) && k <= |ps| && AtRound(c, ps, batch, Arrangement(orders, |ps|, k), k)
  }

  /** Peeler k's turn: peel, and forward in its own order. */
  method PeelAndForward(c: Scheme, ps: seq<Party>, orders: seq<seq<nat>>, batch: seq<Bytes>, k: nat) returns (next: seq<Bytes>)
    requires k < |ps| && InSession(c, ps, orders, batch, k)
    ensures InSession(c, ps, orders, next, k + 1)
  {
    ghost var who := Arrangement(orders, |ps|, k);
    var r := PeelRound(c, ps, batch, who, k);
    assert IsOrder(orders[k], |ps|);
    ReorderKeepsRound(c, ps, r.value.0, who, k + 1, orders[k]);
    next := Reordered(r.value.0, orders[k]);
  }

  /**
   * A whole session with honest peelers, each of which reorders the batch as it likes before handing it on:
   * the relay walks the parties in order, and what comes out is every party's payload, arranged by the
   * composition of the peelers' orders.
   */
  method RunSession(c: Scheme, ps: seq<Party>, orders: seq<seq<nat>>) returns (batch: seq<Bytes>)
    requires Ready(c, ps) && ps != [] && Distinct(Ids(ps)) && AreOrders(orders, |ps|)
    ensures batch == Reordered(Payloads(ps), Arrangement(orders, |ps|, |ps|))
  {
    batch := BuildAll(c, ps);
    var k := 0;
    var peeler := Some(ps[0].id);
    while peeler.Some?
      invariant InSession(c, ps, orders, batch, k) && peeler == if k < |ps| then Some(Ids(ps)[k]) else None
      decreases |ps| - k
    {
      batch := PeelAndForward(c, ps, orders, batch, k);
      peeler := RelayPeeled(Ids(ps), peeler.value);
      k := k + 1;
    }
    LastRoundIsPayloads(c, ps, batch, Arrangement(orders, |ps|, k), k);
  }

  lemma LastRoundIsPayloads(c: Scheme, ps: seq<Party>, batch: seq<Bytes>, who: seq<nat>, k: nat)
    requires Ready(c, ps) && k == |ps| && AtRound(c, ps, batch, who, k)
    ensures batch == Reordered(Payloads(ps), who)
  {
    forall i | 0 <= i < |ps| ensures batch[i] == Payloads(ps)[who[i]] {
      assert Item(c, ps, who[i], k) == Some(batch[i]);
    }
  }

  lemma {:induction false} KeptOrders(orders: seq<seq<nat>>, n: nat, k: nat)
    requires AreOrders(orders, n) && k <= n
    requires forall r, i :: 0 <= r < k && 0 <= i < n ==> orders[r][i] == i
    ensures forall i :: 0 <= i < n ==> Arrangement(orders, n, k)[i] == i
  {
    if k > 0 { KeptOrders(orders, n, k - 1); }
  }

  /** A session whose peelers forward what PeelBatch returns, as it is, ends with the payloads in participant order. */
  method RunUnshuffled(c: Scheme, ps: seq<Party>) returns (batch: seq<Bytes>)
    requires Ready(c, ps) && ps != [] && Distinct(Ids(ps))
    ensures batch == Payloads(ps)
  {
    var asIs := seq(|ps|, i requires i >= 0 => i);
    var orders := seq(|ps|, _ => asIs);
    assert IsOrder(asIs, |ps|);
    batch := RunSession(c, ps, orders);
    KeptOrders(orders, |ps|, |ps|);
  }

  /** One peeler can still bring about any arrangement, whatever the peelers before it did. */
  lemma OnePeelerSuffices(orders: seq<seq<nat>>, n: nat, k: nat, want: seq<nat>) returns (order: seq<nat>)
    requires AreOrders(orders, n) && k < n && IsOrder(want, n)
    ensures IsOrder(order, n) && AreOrders(orders[k := order], n)
    ensures Arrangement(orders[k := order], n, k + 1) == want
  {
    var who := Arrangement(orders, n, k);
    order := [];
    for i := 0 to n
      invariant |order| == i && forall j :: 0 <= j < i ==> order[j] < n && who[order[j]] == want[j]
    {
      var at := Pigeonhole(who, want[i]);
      order := order + [at];
    }
    assert Distinct(order) by {
      forall i, j | 0 <= i < j < n ensures order[i] != order[j] { assert want[i] != want[j]; }
    }
    EarlierOnly(orders, n, k, order);
    assert orders[k := order][k] == order;
  }

  lemma {:induction false} EarlierOnly(orders: seq<seq<nat>>, n: nat, k: nat, order: seq<nat>, r: nat := k)
    requires AreOrders(orders, n) && r <= k < n && IsOrder(order, n)
    ensures Arrangement(orders[k := order], n, r) == Arrangement(orders, n, r)
    decreases r
  {
    if r > 0 { EarlierOnly(orders, n, k, order, r - 1); }
  }
}

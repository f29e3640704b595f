/** What a bidder can rely on: which bids the relay of examples/energy_auction/auction.go takes, over whole runs. */
module BidRuns {
  import opened Wrappers
  import opened Sequences
  import opened AuctionState
  import opened AuctionRuns

  /** Operations that leave a running round as it is: joining, and everything about the epoch's audit. */
  predicate Aside(op: Op) {
    op.Join? || op.StartEpochChain? || op.AdvanceEpochChain? || op.SubmitEpochTotal? || op.SubmitEpochPartial? || op.CloseEpoch?
  }

  predicate BidOrAside(op: Op) { op.SubmitBid? || Aside(op) }

  /** No bid of the run was answered as completing the round. */
  ghost predicate Incomplete(s: State, ops: seq<Op>) {
    forall i :: 0 <= i < |ops| ==> Answer(Run(s, ops[..i]), ops[i]) != Bid(BidComplete)
  }

  lemma IncompletePrefix(s: State, ops: seq<Op>)
    requires ops != [] && Incomplete(s, ops)
    ensures Incomplete(s, ops[..|ops| - 1]) && Answer(Run(s, ops[..|ops| - 1]), ops[|ops| - 1]) != Bid(BidComplete)
  {
    var front := ops[..|ops| - 1];
    forall i | 0 <= i < |front| ensures Answer(Run(s, front[..i]), front[i]) != Bid(BidComplete) {
      assert front[..i] == ops[..i];
    }
  }

  lemma StepKeepsBidding(s: State, op: Op)
    requires s.round.phase == Bidding && BidOrAside(op) && Answer(s, op) != Bid(BidComplete)
    ensures Step(s, op).round.phase == Bidding && Step(s, op).round.keyId == s.round.keyId
  {
    match op
    case SubmitBid(_, _, _) =>
    case _ =>
  }

  lemma {:induction false} BiddingLasts(s: State, ops: seq<Op>)
    requires s.round.phase == Bidding && Incomplete(s, ops) && forall i :: 0 <= i < |ops| ==> BidOrAside(ops[i])
    ensures Run(s, ops).round.phase == Bidding && Run(s, ops).round.keyId == s.round.keyId
    decreases |ops|
  {
    if ops == [] { return; }
    IncompletePrefix(s, ops);
    BiddingLasts(s, ops[..|ops| - 1]);
    StepKeepsBidding(Run(s, ops[..|ops| - 1]), ops[|ops| - 1]);
  }

  /** The relay holds this ciphertext for the peer's seat, and the peer as sealed. */
  ghost predicate Holds(s: State, id: Id, ct: Blob) {
    id in s.peers && s.peers[id].isSealed && s.peers[id].seat in s.round.bids && s.round.bids[s.peers[id].seat] == ct
  }

  /** A bid is stored exactly when it comes from a connected buyer and names this key; any other changes nothing. */
  ghost predicate TakenIff(u: State, key: int, id: Id, keyId: int, ct: Blob) {
    var answer, t := Answer(u, SubmitBid(id, keyId, ct)), Step(u, SubmitBid(id, keyId, ct));
    if id in Buyers(u.peers) && keyId == key
    then (answer == Bid(BidStored) || answer == Bid(BidComplete)) && Holds(t, id, ct)
    else answer == Bid(BidRejected) && t == u
  }

  /**
   * Once keys are published, and until a bid completes the round, whatever else is bid, joined or audited: every
   * connected buyer's bid under the published key is taken, and no other.
   */
  lemma OpenRoundTakesBids(s: State, pk: Blob, ek: Blob, ops: seq<Op>, id: Id, keyId: int, ct: Blob)
    requires Incomplete(Step(s, PublishKeys(pk, ek)), ops) && forall i :: 0 <= i < |ops| ==> BidOrAside(ops[i])
    ensures TakenIff(Run(Step(s, PublishKeys(pk, ek)), ops), s.round.keyId + 1, id, keyId, ct)
  {
    BiddingLasts(Step(s, PublishKeys(pk, ek)), ops);
    BiddingTakes(Run(Step(s, PublishKeys(pk, ek)), ops), s.round.keyId + 1, id, keyId, ct);
  }

  lemma BiddingTakes(u: State, key: int, id: Id, keyId: int, ct: Blob)
    requires u.round.phase == Bidding && u.round.keyId == key
    ensures TakenIff(u, key, id, keyId, ct)
  {}

  // ---- every buyer bids once -------------------------------------------------------------

  /** The buyers' bids under one key, in some order. */
  function EachBids(ids: seq<Id>, keyId: int, cts: seq<Blob>): seq<Op>
    requires |ids| == |cts|
  {
    seq(|ids|, i requires 0 <= i < |ids| => SubmitBid(ids[i], keyId, cts[i]))
  }

  /** The connections and seats of s; sealed are the first k listed. */
  ghost predicate SealedSoFar(s: State, t: State, ids: seq<Id>, k: nat)
    requires k <= |ids|
  {
    && t.peers.Keys == s.peers.Keys
    && (forall x :: x in s.peers ==> t.peers[x].role == s.peers[x].role && t.peers[x].seat == s.peers[x].seat)
    && (forall x :: x in t.peers ==> (t.peers[x].isSealed <==> x in ids[..k]))
  }

  ghost predicate Lists(ids: seq<Id>, buyers: set<Id>) { Distinct(ids) && forall x :: x in ids <==> x in buyers }

  /** All have sealed only when the list is through. */
  lemma AllSealedAtTheEnd(s: State, t: State, ids: seq<Id>, k: nat)
    requires k <= |ids| && Lists(ids, Buyers(s.peers)) && SealedSoFar(s, t, ids, k)
    ensures AllSealed(t.peers) <==> k == |ids|
  {
    assert ids[..|ids|] == ids;
    if k < |ids| {
      assert ids[k] in ids && ids[k] in Buyers(s.peers);
      assert ids[k] !in ids[..k];
    } else {
      forall x | x in t.peers && t.peers[x].role == Buyer ensures t.peers[x].isSealed { assert x in Buyers(s.peers); }
    }
  }

  lemma ApartStays(s: State, t: State, ids: seq<Id>, k: nat)
    requires k <= |ids| && SealedSoFar(s, t, ids, k)
    ensures SeatsApart(s.peers) <==> SeatsApart(t.peers)
  {
    if SeatsApart(s.peers) {
      forall x, y | x in t.peers && y in t.peers && SameSeat(t.peers[x], t.peers[y]) ensures x == y {
        assert SameSeat(s.peers[x], s.peers[y]);
      }
    }
    if SeatsApart(t.peers) {
      forall x, y | x in s.peers && y in s.peers && SameSeat(s.peers[x], s.peers[y]) ensures x == y {
        assert SameSeat(t.peers[x], t.peers[y]);
      }
    }
  }

  /** A bid the round takes seals its buyer and nobody else. */
  lemma OneMoreSealed(s: State, t: State, ids: seq<Id>, k: nat, keyId: int, ct: Blob)
    requires k < |ids| && Lists(ids, Buyers(s.peers)) && SealedSoFar(s, t, ids, k)
    requires t.round.phase == Bidding && t.round.keyId == keyId
    ensures SealedSoFar(s, Step(t, SubmitBid(ids[k], keyId, ct)), ids, k + 1)
  {
    assert ids[k] in ids && ids[k] in Buyers(s.peers);
    assert ids[..k + 1] == ids[..k] + [ids[k]];
    BiddingSeals(t, ids[k], keyId, ct);
  }

  lemma BiddingSeals(u: State, id: Id, keyId: int, ct: Blob)
    requires u.round.phase == Bidding && id in u.peers && u.peers[id].role == Buyer && keyId == u.round.keyId
    ensures Step(u, SubmitBid(id, keyId, ct)).peers == u.peers[id := u.peers[id].(isSealed := true)]
  {}

  /** One more listed buyer bids: only the last one's bid completes the round. */
  lemma OneMoreAnswered(s: State, t: State, ids: seq<Id>, k: nat, keyId: int, ct: Blob)
    requires k < |ids| && Lists(ids, Buyers(s.peers)) && SealedSoFar(s, t, ids, k) && Inv(t) && SeatsApart(s.peers)
    requires t.round.phase == Bidding && t.round.keyId == keyId
    ensures Answer(t, SubmitBid(ids[k], keyId, ct)) == Bid(if k + 1 == |ids| then BidComplete else BidStored)
  {
    var u := Step(t, SubmitBid(ids[k], keyId, ct));
    assert ids[k] in ids && ids[k] in Buyers(s.peers) && ids[k] in Buyers(t.peers);
    OneMoreSealed(s, t, ids, k, keyId, ct);
    BidCompletes(t, ids[k], keyId, ct);
    AllSealedAtTheEnd(s, u, ids, k + 1);
    ApartStays(s, u, ids, k + 1);
    BiddingTakes(t, keyId, ids[k], keyId, ct);
  }

  /** Where the run of bids stands after k of them. */
  ghost predicate Standing(s: State, t: State, ids: seq<Id>, k: nat)
    requires k <= |ids|
  {
    && Inv(t) && SealedSoFar(s, t, ids, k)
    && (k < |ids| ==> t.round.phase == Bidding && t.round.keyId == s.round.keyId + 1)
  }

  lemma StandingNext(s: State, t: State, ids: seq<Id>, k: nat, ct: Blob)
    requires k < |ids| && Lists(ids, Buyers(s.peers)) && SeatsApart(s.peers) && Standing(s, t, ids, k)
    ensures Standing(s, Step(t, SubmitBid(ids[k], s.round.keyId + 1, ct)), ids, k + 1)
  {
    var op := SubmitBid(ids[k], s.round.keyId + 1, ct);
    OneMoreSealed(s, t, ids, k, s.round.keyId + 1, ct);
    StepKeepsInv(t, op);
    OneMoreAnswered(s, t, ids, k, s.round.keyId + 1, ct);
    if k + 1 < |ids| { StepKeepsBidding(t, op); }
  }

  lemma PublishedStanding(s: State, pk: Blob, ek: Blob, ids: seq<Id>)
    requires Inv(s)
    ensures Standing(s, Step(s, PublishKeys(pk, ek)), ids, 0)
  {
    StepKeepsInv(s, PublishKeys(pk, ek));
  }

  lemma {:induction false} BidsStand(s: State, t: State, ids: seq<Id>, cts: seq<Blob>, k: nat)
    requires SeatsApart(s.peers) && |ids| == |cts| && Lists(ids, Buyers(s.peers)) && k <= |ids| && Standing(s, t, ids, 0)
    ensures Standing(s, Run(t, EachBids(ids, s.round.keyId + 1, cts)[..k]), ids, k)
    decreases k
  {
    var ops := EachBids(ids, s.round.keyId + 1, cts);
    if k == 0 {
      assert ops[..k] == [];
    } else {
      BidsStand(s, t, ids, cts, k - 1);
      assert ops[..k][..k - 1] == ops[..k - 1];
      StandingNext(s, Run(t, ops[..k - 1]), ids, k - 1, cts[k - 1]);
    }
  }

  /**
   * When no two buyers share a seat and each bids once under the published key, in any order, every bid but the last
   * is answered "stored" and the last "complete".
   */
  lemma LastBidCompletes(s: State, pk: Blob, ek: Blob, ids: seq<Id>, cts: seq<Blob>, k: nat)
    requires Inv(s) && SeatsApart(s.peers) && |ids| == |cts| && Lists(ids, Buyers(s.peers)) && k < |ids|
    ensures var t := Step(s, PublishKeys(pk, ek));
      var ops := EachBids(ids, s.round.keyId + 1, cts);
      Answer(Run(t, ops[..k]), ops[k]) == Bid(if k + 1 == |ids| then BidComplete else BidStored)
  {
    var t, ops := Step(s, PublishKeys(pk, ek)), EachBids(ids, s.round.keyId + 1, cts);
    PublishedStanding(s, pk, ek, ids);
    BidsStand(s, t, ids, cts, k);
    OneMoreAnswered(s, Run(t, ops[..k]), ids, k, s.round.keyId + 1, cts[k]);
  }

  // ---- no bids outside a bidding round ------------------------------------------------------

  /** The relay is not collecting bids. */
  predicate Closed(s: State) { s.round.phase != Bidding }

  lemma StaysClosed(s: State, op: Op)
    requires Closed(s) && !op.PublishKeys?
    ensures Closed(Step(s, op))
    ensures op.SubmitBid? ==> Answer(s, op) == Bid(BidRejected) && Step(s, op) == s
  {
    match op
    case SubmitBid(_, _, _) =>
    case _ =>
  }

  /** What ends the collecting of bids: a completing bid, masks, an offer, a settled trade, or a reset of any kind. */
  ghost predicate Closes(s: State, op: Op) {
    || Answer(s, op) == Bid(BidComplete) || op.SetMasks? || op.Offer? || (op.Settle? && s.round.winnerSeat >= 0)
    || op.Reset? || op.SetHour? || op.NewEpoch?
    || (op.Leave? && op.id in s.peers && (s.peers[op.id].role == Seller || s.peers[op.id].isSealed))
  }

  lemma ClosesTheRound(s: State, op: Op)
    requires Closes(s, op)
    ensures Closed(Step(s, op))
  {
    match op
    case SubmitBid(_, _, _) =>
    case Leave(_) =>
    case _ =>
  }

  /** Before any keys, and after anything that closes a round, every bid is refused until keys are published again. */
  lemma {:induction false} NoBidsUntilKeys(s: State, ops: seq<Op>, id: Id, keyId: int, ct: Blob)
    requires s == Init || exists s0, op :: Closes(s0, op) && s == Step(s0, op)
    requires forall i :: 0 <= i < |ops| ==> !ops[i].PublishKeys?
    ensures var u := Run(s, ops);
      Answer(u, SubmitBid(id, keyId, ct)) == Bid(BidRejected) && Step(u, SubmitBid(id, keyId, ct)) == u
  {
    if s != Init {
      var s0, op :| Closes(s0, op) && s == Step(s0, op);
      ClosesTheRound(s0, op);
    }
    ClosedLasts(s, ops);
    StaysClosed(Run(s, ops), SubmitBid(id, keyId, ct));
  }

  lemma {:induction false} ClosedLasts(s: State, ops: seq<Op>)
    requires Closed(s) && forall i :: 0 <= i < |ops| ==> !ops[i].PublishKeys?
    ensures Closed(Run(s, ops))
    decreases |ops|
  {
    if ops == [] { return; }
    ClosedLasts(s, ops[..|ops| - 1]);
    StaysClosed(Run(s, ops[..|ops| - 1]), ops[|ops| - 1]);
  }

  // ---- seats ------------------------------------------------------------------------------------

  /** The buyers sit in seats 0, 1, 2, ... without a gap, one each. */
  ghost predicate SeatedInOrder(peers: Peers) {
    SeatsApart(peers) && forall x :: x in Buyers(peers) ==> 0 <= peers[x].seat < |Buyers(peers)|
  }

  lemma SameBuyers(p: Peers, q: Peers)
    requires p.Keys == q.Keys && forall x :: x in p ==> q[x].role == p[x].role && q[x].seat == p[x].seat
    ensures Buyers(p) == Buyers(q) && WithRole(p, Seller) == WithRole(q, Seller) && (SeatedInOrder(p) ==> SeatedInOrder(q))
  {
    if SeatedInOrder(p) {
      forall x, y | x in q && y in q && SameSeat(q[x], q[y]) ensures x == y { assert SameSeat(p[x], p[y]); }
    }
  }

  lemma JoinSeatsNext(peers: Peers, id: Id)
    requires SeatedInOrder(peers) && id !in peers
    ensures SeatedInOrder(peers[id := Newcomer(peers, id)])
  {
    var p := Newcomer(peers, id);
    var q := peers[id := p];
    if p.role == Buyer {
      assert Buyers(q) == Buyers(peers) + {id};
    } else {
      assert Buyers(q) == Buyers(peers);
    }
    forall x | x in peers ensures !SameSeat(p, peers[x]) && !SameSeat(peers[x], p) {
      assert peers[x].role == Buyer ==> x in Buyers(peers);
    }
    forall x, y | x in q && y in q && SameSeat(q[x], q[y]) ensures x == y {
      if x != id && y != id { assert SameSeat(peers[x], peers[y]); }
    }
  }

  /** Who joined k-th: the seller, then five buyers in seats 0 to 4, then observers. */
  function RoleAt(k: nat): Role { if k == 0 then Seller else if k <= 5 then Buyer else Full }
  function SeatAt(k: nat): int { if 1 <= k <= 5 then k - 1 else -1 }
  function BuyersAmong(n: nat): nat { if n == 0 then 0 else if n <= 6 then n - 1 else 5 }

  ghost predicate ByJoinOrder(peers: Peers, order: seq<Id>) {
    && (forall k :: 0 <= k < |order| ==> order[k] in peers && peers[order[k]].role == RoleAt(k) && peers[order[k]].seat == SeatAt(k))
    && (WithRole(peers, Seller) == {} <==> order == []) && |Buyers(peers)| == BuyersAmong(|order|)
  }

  lemma JoinComesNext(peers: Peers, order: seq<Id>, id: Id)
    requires ByJoinOrder(peers, order) && id !in peers
    ensures ByJoinOrder(peers[id := Newcomer(peers, id)], order + [id])
  {
    var p := Newcomer(peers, id);
    var q := peers[id := p];
    assert Buyers(q) == if p.role == Buyer then Buyers(peers) + {id} else Buyers(peers);
    if p.role == Seller { assert id in WithRole(q, Seller); } else { assert WithRole(q, Seller) == WithRole(peers, Seller); }
  }

  /** As long as nobody leaves, roles and seats follow the order of joining, so no two buyers share a seat. */
  lemma {:induction false} SeatsWithoutDepartures(ops: seq<Op>)
    requires Possible(Init, ops) && forall i :: 0 <= i < |ops| ==> !ops[i].Leave?
    ensures SeatedInOrder(Run(Init, ops).peers) && ByJoinOrder(Run(Init, ops).peers, Run(Init, ops).order)
    decreases |ops|
  {
    if ops == [] { return; }
    PossiblePrefix(Init, ops);
    SeatsWithoutDepartures(ops[..|ops| - 1]);
    var s, op := Run(Init, ops[..|ops| - 1]), ops[|ops| - 1];
    if op.Join? {
      JoinSeatsNext(s.peers, op.id);
      JoinComesNext(s.peers, s.order, op.id);
    } else {
      RolesStay(s, op);
      SameBuyers(s.peers, Step(s, op).peers);
    }
  }

  lemma RolesStay(s: State, op: Op)
    requires !op.Join? && !op.Leave?
    ensures var t := Step(s, op);
      t.order == s.order && t.peers.Keys == s.peers.Keys && forall x :: x in s.peers ==> t.peers[x].role == s.peers[x].role && t.peers[x].seat == s.peers[x].seat
  {
    match op
    case SubmitBid(_, _, _) =>
    case _ =>
  }

  /** A departure ends the round if it is the seller's or a sealed bidder's, and leaves round and seats alone otherwise. */
  lemma DepartureEndsRoundIff(s: State, id: Id)
    ensures var t := Step(s, Leave(id));
      if id in s.peers && (s.peers[id].role == Seller || s.peers[id].isSealed)
      then Closed(t) && t.round.bids == map[] && t.round.winnerSeat < 0 && t.round.pubKey.None? && forall x :: x in t.peers ==> !t.peers[x].isSealed
      else t.round == s.round && t.peers == s.peers - {id}
  {}
}

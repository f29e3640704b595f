/** What every run of the relay keeps: seats and sealed bids, keys, the epoch log. */
module AuctionRuns {
  import opened Wrappers
  import opened Sequences
  import opened AuctionState

  ghost predicate PeersOk(peers: Peers) {
    && (forall id :: id in peers ==> peers[id].id == id)
    && (forall id :: id in peers && peers[id].isSealed ==> peers[id].role == Buyer)
    && (forall id :: id in peers && peers[id].role == Buyer ==> 0 <= peers[id].seat < MaxBuyers)
    && |Buyers(peers)| <= MaxBuyers
    && (forall id, id' :: id in peers && id' in peers && peers[id].role == peers[id'].role == Seller ==> id == id')
  }

  /** The round invariant: the stored bids are exactly those of the sealed buyers. */
  ghost predicate BidsOk(peers: Peers, bids: map<int, Blob>) { bids.Keys == SealedSeats(peers).Values }

  /** Connections: the join order lists every peer once, and an audit runs over connected peers. */
  ghost predicate OrderOk(peers: Peers, order: seq<Id>, epoch: Epoch) {
    && Distinct(order) && (forall id :: id in order <==> id in peers)
    && (epoch.phase == Audit ==> Distinct(epoch.party) && forall id :: id in epoch.party ==> id in peers)
    && (epoch.party != [] ==> epoch.phase == Audit || epoch.phase == Done)
  }

  ghost predicate LogOk(s: State) {
    0 <= s.hour < 24 && (s.epoch.phase == Open ==> |s.trades| < EpochSize)
  }

  ghost predicate Inv(s: State) {
    PeersOk(s.peers) && BidsOk(s.peers, s.round.bids) && OrderOk(s.peers, s.order, s.epoch) && LogOk(s)
  }

  // ---- one step: peers and bids ------------------------------------------------

  lemma NobodySealed(peers: Peers)
    requires PeersOk(peers)
    ensures PeersOk(Unsealed(peers)) && BidsOk(Unsealed(peers), map[])
  {
    var u := Unsealed(peers);
    assert SealedSeats(u) == map[];
    assert Buyers(u) == Buyers(peers);
  }

  lemma JoinKeepsPeers(peers: Peers, id: Id)
    requires PeersOk(peers) && id !in peers
    ensures PeersOk(peers[id := Newcomer(peers, id)])
  {
    var p := Newcomer(peers, id);
    var t := peers[id := p];
    assert Buyers(t) == if p.role == Buyer then Buyers(peers) + {id} else Buyers(peers);
    forall x | x in peers && peers[x].role == Seller ensures p.role != Seller {
      assert x in WithRole(peers, Seller);
    }
  }

  lemma JoinKeepsBids(peers: Peers, id: Id, bids: map<int, Blob>)
    requires BidsOk(peers, bids) && id !in peers
    ensures BidsOk(peers[id := Newcomer(peers, id)], bids)
  {
    assert SealedSeats(peers[id := Newcomer(peers, id)]) == SealedSeats(peers);
  }

  lemma RemoveKeepsPeers(peers: Peers, id: Id, bids: map<int, Blob>)
    requires PeersOk(peers) && BidsOk(peers, bids)
    ensures PeersOk(peers - {id})
    ensures id !in peers || !peers[id].isSealed ==> BidsOk(peers - {id}, bids)
  {
    var rest := peers - {id};
    assert Buyers(rest) == Buyers(peers) - {id};
    if id !in peers || !peers[id].isSealed { assert SealedSeats(rest) == SealedSeats(peers); }
  }

  lemma SealKeepsPeers(peers: Peers, id: Id, bids: map<int, Blob>, ct: Blob)
    requires PeersOk(peers) && BidsOk(peers, bids) && id in peers && peers[id].role == Buyer
    ensures var t := peers[id := peers[id].(isSealed := true)]; PeersOk(t) && BidsOk(t, bids[peers[id].seat := ct])
  {
    var t := peers[id := peers[id].(isSealed := true)];
    var m := SealedSeats(peers);
    assert SealedSeats(t) == m[id := peers[id].seat];
    UpdatedValues(m, id, peers[id].seat);
    assert Buyers(t) == Buyers(peers);
  }

  /** Sealing adds the seat to the sealed ones, whether or not the peer had sealed before. */
  lemma UpdatedValues(m: map<Id, int>, id: Id, seat: int)
    requires id in m ==> m[id] == seat
    ensures m[id := seat].Values == m.Values + {seat}
  {
    var n := m[id := seat];
    forall v | v in m.Values + {seat} ensures v in n.Values {
      if v == seat {
        assert n[id] == v;
      } else {
        var k :| k in m && m[k] == v;
        assert k != id && n[k] == v;
      }
    }
  }

  lemma StepKeepsSeats(s: State, op: Op)
    requires PeersOk(s.peers) && BidsOk(s.peers, s.round.bids) && Fresh(s, op)
    ensures var t := Step(s, op); PeersOk(t.peers) && BidsOk(t.peers, t.round.bids)
  {
    NobodySealed(s.peers);
    match op
    case Join(id) =>
      JoinKeepsPeers(s.peers, id);
      JoinKeepsBids(s.peers, id, s.round.bids);
    case Leave(id) =>
      RemoveKeepsPeers(s.peers, id, s.round.bids);
      NobodySealed(s.peers - {id});
    case SubmitBid(id, keyId, ct) =>
      if BidAccepted(s, id, keyId) { SealKeepsPeers(s.peers, id, s.round.bids, ct); }
    case _ => PlainStep(s, op);
  }

  /** Every other operation leaves the seats alone, or drops all bids and unseals everybody. */
  lemma PlainStep(s: State, op: Op)
    requires !op.Join? && !op.Leave? && !op.SubmitBid?
    ensures var t := Step(s, op);
      (t.peers == s.peers && t.round.bids == s.round.bids) || (t.peers == Unsealed(s.peers) && t.round.bids == map[])
  {}

  // ---- one step: connections and log ---------------------------------------------

  lemma {:induction false} WithoutDrops(order: seq<Id>, id: Id)
    requires Distinct(order)
    ensures Distinct(Without(order, id))
    ensures forall x :: x in Without(order, id) <==> x in order && x != id
  {
    if order == [] { return; }
    var rest := order[1..];
    assert order == [order[0]] + rest;
    WithoutDrops(rest, id);
    if order[0] != id {
      var w := Without(rest, id);
      assert order[0] !in rest && order[0] !in w;
      assert Without(order, id) == [order[0]] + w;
    }
  }

  lemma StepKeepsOrder(s: State, op: Op)
    requires OrderOk(s.peers, s.order, s.epoch) && Fresh(s, op)
    ensures var t := Step(s, op); OrderOk(t.peers, t.order, t.epoch)
  {
    match op
    case Join(id) =>
      assert id !in s.order;
    case Leave(id) =>
      LeaveKeepsOrder(s, id);
    case _ =>
      PlainStepKeepsConnections(s, op);
  }

  lemma LeaveKeepsOrder(s: State, id: Id)
    requires OrderOk(s.peers, s.order, s.epoch)
    ensures var t := Step(s, Leave(id)); OrderOk(t.peers, t.order, t.epoch)
  {
    WithoutDrops(s.order, id);
  }

  lemma PlainStepKeepsConnections(s: State, op: Op)
    requires !op.Join? && !op.Leave?
    ensures var t := Step(s, op); t.order == s.order && t.peers.Keys == s.peers.Keys
    ensures var e := Step(s, op).epoch;
      (e.party == s.epoch.party && (e.phase == Audit ==> s.epoch.phase == Audit)) || e.party == [] || e.party == s.order
  {
    match op
    case SubmitBid(_, _, _) =>
    case _ =>
  }

  lemma StepKeepsLog(s: State, op: Op)
    requires LogOk(s)
    ensures LogOk(Step(s, op))
  {
    match op
    case Settle(accepted) =>
    case _ =>
  }

  lemma StepKeepsInv(s: State, op: Op)
    requires Inv(s) && Fresh(s, op)
    ensures Inv(Step(s, op))
  {
    StepKeepsSeats(s, op);
    StepKeepsOrder(s, op);
    StepKeepsLog(s, op);
  }

  /** Every reachable state satisfies the invariant, departures and duplicate seats included. */
  lemma {:induction false} RunKeepsInv(s: State, ops: seq<Op>)
    requires Inv(s) && Possible(s, ops)
    ensures Inv(Run(s, ops))
  {
    if ops == [] { return; }
    PossiblePrefix(s, ops);
    RunKeepsInv(s, ops[..|ops| - 1]);
    StepKeepsInv(Run(s, ops[..|ops| - 1]), ops[|ops| - 1]);
  }

  lemma InitInv()
    ensures Inv(Init)
  {
    assert SealedSeats(Init.peers) == map[] && Buyers(Init.peers) == {};
  }

  // ---- sealed bids ---------------------------------------------------------------

  /** The bid behind a stored ciphertext: submitted by the sealed buyer of that seat, under the running key. */
  ghost predicate Submitted(s: State, ops: seq<Op>, seat: int, i: int) {
    && 0 <= i < |ops| && ops[i].SubmitBid?
    && ops[i].keyId == s.round.keyId && seat in s.round.bids && ops[i].ct == s.round.bids[seat]
    && ops[i].id in s.peers && s.peers[ops[i].id].seat == seat && s.peers[ops[i].id].isSealed
  }

  /** In every reachable state, each stored ciphertext was submitted under the current key by its seat's sealed buyer. */
  lemma {:induction false} BidsWereSubmitted(s0: State, ops: seq<Op>, seat: int) returns (i: int)
    requires Inv(s0) && s0.round.bids == map[] && Possible(s0, ops)
    requires seat in Run(s0, ops).round.bids
    ensures Submitted(Run(s0, ops), ops, seat, i)
  {
    var n := |ops| - 1;
    var front, op := ops[..n], ops[n];
    PossiblePrefix(s0, ops);
    RunKeepsInv(s0, front);
    var s, t := Run(s0, front), Run(s0, ops);
    assert t == Step(s, op);
    SplitLast(ops);
    if op.SubmitBid? && BidAccepted(s, op.id, op.keyId) && s.peers[op.id].seat == seat {
      return n;
    }
    BidsAreKept(s, op, seat);
    i := BidsWereSubmitted(s0, front, seat);
    StillSubmitted(s, front, op, seat, i);
  }

  lemma StillSubmitted(s: State, front: seq<Op>, op: Op, seat: int, i: int)
    requires Inv(s) && Fresh(s, op) && Submitted(s, front, seat, i) && seat in Step(s, op).round.bids
    requires op.SubmitBid? && BidAccepted(s, op.id, op.keyId) ==> s.peers[op.id].seat != seat
    ensures Submitted(Step(s, op), front + [op], seat, i)
  {
    BidsAreKept(s, op, seat);
    SealsAreKept(s, op, front[i].id);
    assert (front + [op])[i] == front[i];
  }

  /** A ciphertext that is still there, and was not just submitted, was there before, under the same key. */
  lemma BidsAreKept(s: State, op: Op, seat: int)
    requires seat in Step(s, op).round.bids
    requires op.SubmitBid? && BidAccepted(s, op.id, op.keyId) ==> s.peers[op.id].seat != seat
    ensures seat in s.round.bids && s.round.bids[seat] == Step(s, op).round.bids[seat]
    ensures Step(s, op).round.keyId == s.round.keyId
  {
    match op
    case SubmitBid(_, _, _) =>
    case _ =>
  }

  /** While any bid is still stored, a sealed buyer is still connected, sealed and in its seat. */
  lemma SealsAreKept(s: State, op: Op, id: Id)
    requires PeersOk(s.peers) && Fresh(s, op) && id in s.peers && s.peers[id].isSealed
    requires Step(s, op).round.bids != map[]
    ensures var t := Step(s, op); id in t.peers && t.peers[id].isSealed && t.peers[id].seat == s.peers[id].seat
  {
    match op
    case SubmitBid(_, _, _) =>
    case _ =>
  }

  /** How many keys were published. */
  function Publications(ops: seq<Op>): nat {
    if ops == [] then 0 else Publications(ops[..|ops| - 1]) + (if ops[|ops| - 1].PublishKeys? then 1 else 0)
  }

  lemma StepKeyId(s: State, op: Op)
    ensures Step(s, op).round.keyId == s.round.keyId + (if op.PublishKeys? then 1 else 0)
  {
    match op
    case SubmitBid(_, _, _) =>
    case _ =>
  }

  lemma {:induction false} KeyIdCounts(s: State, ops: seq<Op>)
    ensures Run(s, ops).round.keyId == s.round.keyId + Publications(ops)
  {
    if ops == [] { return; }
    var n := |ops| - 1;
    KeyIdCounts(s, ops[..n]);
    StepKeyId(Run(s, ops[..n]), ops[n]);
  }

  /** Once a new key has been published, a bid under any earlier one is rejected and changes nothing. */
  lemma StaleBidsAreRefused(s: State, ops: seq<Op>, id: Id, keyId: int, ct: Blob)
    requires keyId <= s.round.keyId && Publications(ops) > 0
    ensures var t, bid := Run(s, ops), SubmitBid(id, keyId, ct);
      Answer(t, bid) == Bid(BidRejected) && Step(t, bid) == t
  {
    KeyIdCounts(s, ops);
  }

  ghost predicate AllSealed(peers: Peers) { forall id :: id in peers && peers[id].role == Buyer ==> peers[id].isSealed }

  predicate SameSeat(p: Peer, q: Peer) { p.role == q.role == Buyer && p.seat == q.seat }

  ghost predicate SeatsApart(peers: Peers) {
    forall id, id' :: id in peers && id' in peers && SameSeat(peers[id], peers[id']) ==> id == id'
  }

  /** As many stored bids as buyers: exactly when all have sealed and no two share a seat. */
  lemma CompleteMeans(peers: Peers, bids: map<int, Blob>)
    requires PeersOk(peers) && BidsOk(peers, bids)
    ensures |bids| <= |Buyers(peers)|
    ensures |bids| == |Buyers(peers)| <==> AllSealed(peers) && SeatsApart(peers)
  {
    var m := SealedSeats(peers);
    ValuesCount(m);
    assert |bids| == |bids.Keys| == |m.Values|;
    assert |m| == |m.Keys|;
    assert m.Keys <= Buyers(peers);
    SubsetCard(m.Keys, Buyers(peers));
    assert m.Keys == Buyers(peers) <==> AllSealed(peers) by {
      if AllSealed(peers) { assert Buyers(peers) <= m.Keys; }
      if m.Keys == Buyers(peers) {
        forall id | id in peers && peers[id].role == Buyer ensures peers[id].isSealed { assert id in Buyers(peers); }
      }
    }
    if AllSealed(peers) { assert Injective(m) <==> SeatsApart(peers) by { SealedMap(peers); } }
  }

  lemma SealedMap(peers: Peers)
    requires PeersOk(peers) && AllSealed(peers)
    ensures Injective(SealedSeats(peers)) <==> SeatsApart(peers)
  {
    var m := SealedSeats(peers);
    assert forall id :: id in m <==> id in peers && peers[id].role == Buyer;
    assert forall id :: id in m ==> m[id] == peers[id].seat;
    if SeatsApart(peers) {
      forall k, l | k in m && l in m && m[k] == m[l] ensures k == l {}
    }
    if Injective(m) {
      forall id, id' | id in peers && id' in peers && SameSeat(peers[id], peers[id']) ensures id == id' {
        assert m[id] == m[id'];
      }
    }
  }

  /** A bid completes the round exactly when it is accepted, every buyer has sealed, and their seats are distinct. */
  lemma BidCompletes(s: State, id: Id, keyId: int, ct: Blob)
    requires Inv(s)
    ensures var op := SubmitBid(id, keyId, ct);
      var t := Step(s, op);
      Answer(s, op) == Bid(BidComplete) <==> BidAccepted(s, id, keyId) && AllSealed(t.peers) && SeatsApart(t.peers)
  {
    var op := SubmitBid(id, keyId, ct);
    var t := Step(s, op);
    StepKeepsSeats(s, op);
    CompleteMeans(t.peers, t.round.bids);
    if BidAccepted(s, id, keyId) { assert id in Buyers(t.peers); }
  }

  // ---- the ordered list handed to the evaluator -----------------------------------

  /** r is the ascending list of the stored bids' seats below n. */
  ghost predicate Lists(bids: map<int, Blob>, n: int, r: seq<int>) {
    && (forall i :: 0 <= i < |r| ==> 0 <= r[i] < n && r[i] in bids)
    && (forall i, j :: 0 <= i < j < |r| ==> r[i] < r[j])
    && (forall seat :: 0 <= seat < n && seat in bids ==> seat in r)
  }

  lemma {:induction false} SeatsAreOrdered(bids: map<int, Blob>, n: nat)
    ensures Lists(bids, n, SeatsBelow(bids, n))
  {
    if n > 0 {
      SeatsAreOrdered(bids, n - 1);
      OneSeatMore(bids, n - 1, SeatsBelow(bids, n - 1));
      assert SeatsBelow(bids, n) == SeatsBelow(bids, n - 1) + (if n - 1 in bids then [n - 1] else []);
    }
  }

  lemma OneSeatMore(bids: map<int, Blob>, n: int, front: seq<int>)
    requires n >= 0 && Lists(bids, n, front)
    ensures Lists(bids, n + 1, front + (if n in bids then [n] else []))
  {
    var r := front + (if n in bids then [n] else []);
    assert forall x :: x in front ==> x in r;
    assert n in bids ==> r[|front|] == n;
  }

  /** The list names every stored bid once. */
  lemma EveryBidIsListed(bids: map<int, Blob>)
    requires forall seat :: seat in bids ==> 0 <= seat < MaxBuyers
    ensures var seats := SeatsBelow(bids, MaxBuyers);
      && |seats| == |bids|
      && (forall i, j :: 0 <= i < j < |seats| ==> seats[i] < seats[j])
      && (forall seat :: seat in bids <==> seat in seats)
  {
    SeatsAreOrdered(bids, MaxBuyers);
    AllSeatsListed(bids, SeatsBelow(bids, MaxBuyers));
  }

  lemma AllSeatsListed(bids: map<int, Blob>, seats: seq<int>)
    requires forall i, j :: 0 <= i < j < |seats| ==> seats[i] < seats[j]
    requires forall i :: 0 <= i < |seats| ==> seats[i] in bids
    requires forall seat :: seat in bids ==> seat in seats
    ensures |seats| == |bids|
  {
    DistinctCount(seats);
    var listed := set x | x in seats;
    assert forall x :: x in listed <==> x in bids.Keys;
    assert listed == bids.Keys;
  }

  lemma BidsAreSeated(peers: Peers, bids: map<int, Blob>)
    requires PeersOk(peers) && BidsOk(peers, bids)
    ensures forall seat :: seat in bids ==> 0 <= seat < MaxBuyers && SeatTaken(peers, seat)
  {
    var m := SealedSeats(peers);
    forall seat | seat in bids ensures 0 <= seat < MaxBuyers && SeatTaken(peers, seat) {
      assert seat in m.Values;
      var id :| id in m && m[id] == seat;
      assert Sits(peers, id, seat);
    }
  }

  predicate Sits(peers: Peers, id: Id, seat: int) { id in peers && peers[id].role == Buyer && peers[id].seat == seat }
  ghost predicate SeatTaken(peers: Peers, seat: int) { exists id :: Sits(peers, id, seat) }

  /**
   * When a round completes, the evaluator gets one ciphertext per buyer in seat order: every
   * buyer's seat is listed, and every listed seat is some buyer's.
   */
  lemma CompleteRoundIsListed(s: State)
    requires Inv(s) && AllSealed(s.peers) && SeatsApart(s.peers)
    ensures var seats := SeatsBelow(s.round.bids, MaxBuyers);
      && |seats| == |Buyers(s.peers)|
      && (forall i, j :: 0 <= i < j < |seats| ==> seats[i] < seats[j])
      && (forall seat :: seat in seats <==> SeatTaken(s.peers, seat))
      && (forall seat :: seat in seats ==> seat in s.round.bids)
  {
    var bids := s.round.bids;
    BidsAreSeated(s.peers, bids);
    EveryBidIsListed(bids);
    CompleteMeans(s.peers, bids);
    forall seat | SeatTaken(s.peers, seat) ensures seat in bids {
      var id :| Sits(s.peers, id, seat);
      assert SealedSeats(s.peers)[id] == seat;
    }
  }

  // ---- a seat can be handed out twice -----------------------------------------------

  /** The departing buyer holds a lower seat than the count, so the next newcomer takes an occupied one. */
  lemma SeatsCanCollide(s: State, gone: Id, top: Id, id: Id)
    requires Inv(s) && id !in s.peers && gone in s.peers && top in s.peers && gone != top
    requires s.peers[gone].role == s.peers[top].role == Buyer && WithRole(s.peers, Seller) != {}
    requires s.peers[top].seat == |Buyers(s.peers)| - 1
    ensures var t := Step(Step(s, Leave(gone)), Join(id));
      top in t.peers && t.peers[top].role == t.peers[id].role == Buyer && t.peers[top].seat == t.peers[id].seat
  {
    var u := Step(s, Leave(gone));
    assert Buyers(u.peers) == Buyers(s.peers) - {gone};
    assert gone in Buyers(s.peers);
    var seller :| seller in WithRole(s.peers, Seller);
    assert seller in WithRole(u.peers, Seller);
  }
}

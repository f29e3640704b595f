/** The relay object of examples/energy_auction/auction.go, each method proved to be one step. */
module Auction {
  import opened Wrappers
  import opened AuctionState
  import opened AuctionRuns

  /** The first buyer in join order runs the argmax. */
  function FirstBuyer(order: seq<Id>, peers: Peers): Option<Peer> {
    if order == [] then None
    else if order[0] in peers && peers[order[0]].role == Buyer then Some(peers[order[0]])
    else FirstBuyer(order[1..], peers)
  }

  /** The remainder of Go's % operator, which takes the sign of the dividend. */
  function TruncMod(a: int, b: int): int
    requires b > 0
  {
    if a >= 0 then a % b else -((-a) % b)
  }

  lemma HourWraps(h: int)
    ensures (TruncMod(h, 24) + 24) % 24 == h % 24
  {}

  method RemoveFirst(order: seq<Id>, id: Id) returns (r: seq<Id>)
    ensures r == Without(order, id)
  {
    var i := 0;
    while i < |order| && order[i] != id
      invariant 0 <= i <= |order| && Without(order, id) == order[..i] + Without(order[i..], id)
    {
      assert order[i..][1..] == order[i + 1..];
      assert order[..i + 1] == order[..i] + [order[i]];
      i := i + 1;
    }
    if i == |order| {
      assert order[..i] == order;
      return order;
    }
    assert order[i..][1..] == order[i + 1..];
    return order[..i] + order[i + 1..];
  }

  class Auction {
    var hour: int
    var peers: Peers
    var order: seq<Id>
    var round: Round
    var trades: seq<Trade>
    var epoch: Epoch

    ghost function View(): State
      reads this
    {
      State(hour, peers, order, round, trades, epoch)
    }

    constructor ()
      ensures View() == Init
    {
      hour, peers, order, trades := 13, map[], [], [];
      round := Round(Waiting, None, None, 0, map[], [], -1, 0.0);
      epoch := Epoch(Open, None, map[], map[], 0.0, false, false, 0, [], false);
    }

    // ---- seats -----------------------------------------------------------------

    method Join(id: Id) returns (p: Peer)
      modifies this
      ensures View() == Step(old(View()), AuctionState.Join(id))
      ensures Seated(p) == Answer(old(View()), AuctionState.Join(id))
    {
      p := Peer(id, Full, -1, false);
      var seller := FindSeller();
      var buyers := BuyerCount();
      if seller.None? {
        p := p.(role := Seller);
      } else if buyers < MaxBuyers {
        p := p.(role := Buyer, seat := buyers);
      } else {
        p := p.(role := Full);
      }
      peers := peers[id := p];
      order := order + [id];
    }

    method Leave(id: Id)
      modifies this
      ensures View() == Step(old(View()), AuctionState.Leave(id))
    {
      var p := if id in peers then Some(peers[id]) else None;
      peers := peers - {id};
      order := RemoveFirst(order, id);
      if p.Some? && (p.value.role == Seller || p.value.isSealed) { ResetLocked(); }
      if epoch.phase == Audit && id in epoch.party {
        epoch := epoch.(aborted := true, phase := Ready, party := [], totals := map[], partials := map[], chainPos := 0);
      }
    }

    method FindSeller() returns (r: Option<Id>)
      ensures r.None? <==> WithRole(peers, Seller) == {}
      ensures r.Some? ==> r.value in WithRole(peers, Seller)
    {
      var todo := peers.Keys;
      while todo != {}
        invariant todo <= peers.Keys && WithRole(peers, Seller) <= todo
        decreases |todo|
      {
        var id :| id in todo;
        if peers[id].role == Seller {
          assert id in WithRole(peers, Seller);
          return Some(id);
        }
        todo := todo - {id};
      }
      return None;
    }

    method BuyerCount() returns (n: nat)
      ensures n == |Buyers(peers)|
    {
      n := 0;
      var todo := peers.Keys;
      ghost var buyers := Buyers(peers);
      assert buyers * todo == buyers;
      while todo != {}
        invariant todo <= peers.Keys
        invariant n + |buyers * todo| == |buyers|
        decreases |todo|
      {
        var id :| id in todo;
        if peers[id].role == Buyer {
          n := n + 1;
          assert buyers * todo == buyers * (todo - {id}) + {id};
        } else {
          assert buyers * todo == buyers * (todo - {id});
        }
        todo := todo - {id};
      }
      assert buyers * todo == {};
    }

    method Evaluator() returns (r: Option<Peer>)
      ensures r == FirstBuyer(order, peers)
    {
      for i := 0 to |order|
        invariant FirstBuyer(order, peers) == FirstBuyer(order[i..], peers)
      {
        if order[i] in peers && peers[order[i]].role == Buyer { return Some(peers[order[i]]); }
      }
      return None;
    }

    method PeerAtSeat(seat: int) returns (r: Option<Id>)
      ensures r.Some? ==> exists id :: Sits(peers, id, seat) && r.value == peers[id].id
      ensures r.None? ==> !SeatTaken(peers, seat)
    {
      var todo := peers.Keys;
      while todo != {}
        invariant todo <= peers.Keys
        invariant forall id :: Sits(peers, id, seat) ==> id in todo
        decreases |todo|
      {
        var id :| id in todo;
        if peers[id].role == Buyer && peers[id].seat == seat {
          assert Sits(peers, id, seat);
          return Some(peers[id].id);
        }
        todo := todo - {id};
      }
      return None;
    }

    // ---- rounds ----------------------------------------------------------------

    method UnsealAll()
      modifies this`peers
      ensures peers == Unsealed(old(peers))
    {
      var todo := peers.Keys;
      while todo != {}
        invariant todo <= peers.Keys == old(peers).Keys
        invariant forall id :: id in peers ==>
          peers[id] == if id in todo then old(peers)[id] else old(peers)[id].(isSealed := false)
        decreases |todo|
      {
        var id :| id in todo;
        peers := peers[id := peers[id].(isSealed := false)];
        todo := todo - {id};
      }
      assert peers == Unsealed(old(peers));
    }

    method ResetLocked()
      modifies this
      ensures View() == ResetRound(old(View()))
    {
      round := round.(phase := Waiting, pubKey := None, evalKey := None, bids := map[], masks := [],
                      winnerSeat := -1, price := 0.0);
      UnsealAll();
    }

    method Reset()
      modifies this
      ensures View() == Step(old(View()), AuctionState.Reset)
    {
      ResetLocked();
    }

    method SetHour(h: int)
      modifies this
      ensures View() == Step(old(View()), AuctionState.SetHour(h))
    {
      HourWraps(h);
      hour := (TruncMod(h, 24) + 24) % 24;
      ResetLocked();
    }

    method PublishKeys(pk: Blob, ek: Blob)
      modifies this
      ensures View() == Step(old(View()), AuctionState.PublishKeys(pk, ek))
    {
      round := round.(pubKey := Some(pk), evalKey := Some(ek), keyId := round.keyId + 1,
                      bids := map[], masks := [], winnerSeat := -1);
      UnsealAll();
      round := round.(phase := Bidding);
    }

    method SubmitBid(id: Id, key: int, ct: Blob) returns (r: BidResult)
      modifies this
      ensures View() == Step(old(View()), AuctionState.SubmitBid(id, key, ct))
      ensures Bid(r) == Answer(old(View()), AuctionState.SubmitBid(id, key, ct))
    {
      if id !in peers || peers[id].role != Buyer || round.phase != Bidding { return BidRejected; }
      if key != round.keyId { return BidRejected; }
      round := round.(bids := round.bids[peers[id].seat := ct]);
      peers := peers[id := peers[id].(isSealed := true)];
      var buyers := BuyerCount();
      if |round.bids| < buyers || buyers == 0 { return BidStored; }
      round := round.(phase := Evaluating);
      return BidComplete;
    }

    /** The sealed ciphertexts by seat, with their seats. */
    method OrderedBids() returns (cts: seq<Blob>, seats: seq<int>)
      ensures seats == SeatsBelow(round.bids, MaxBuyers) && |cts| == |seats|
      ensures forall i :: 0 <= i < |seats| ==> seats[i] in round.bids && cts[i] == round.bids[seats[i]]
    {
      cts, seats := [], [];
      for seat := 0 to MaxBuyers
        invariant seats == SeatsBelow(round.bids, seat) && |cts| == |seats|
        invariant forall i :: 0 <= i < |seats| ==> seats[i] in round.bids && cts[i] == round.bids[seats[i]]
      {
        if seat in round.bids {
          cts := cts + [round.bids[seat]];
          seats := seats + [seat];
        }
      }
    }

    method SetMasks(blobs: seq<Blob>)
      modifies this
      ensures View() == Step(old(View()), AuctionState.SetMasks(blobs))
    {
      round := round.(masks := blobs, phase := Offering);
    }

    method Offer(seat: int, p: real)
      modifies this
      ensures View() == Step(old(View()), AuctionState.Offer(seat, p))
    {
      round := round.(winnerSeat := seat, price := p, phase := Offering);
    }

    method Settle(accepted: bool) returns (seat: int)
      modifies this
      ensures View() == Step(old(View()), AuctionState.Settle(accepted))
      ensures Winner(seat) == Answer(old(View()), AuctionState.Settle(accepted))
    {
      if round.winnerSeat < 0 { return -1; }
      seat := round.winnerSeat;
      trades := [Trade(hour, round.price, accepted, |round.bids|, seat)] + trades;
      hour := (hour + 1) % 24;
      ResetLocked();
      round := round.(phase := Settled);
      if epoch.phase == Open && |trades| >= EpochSize { epoch := epoch.(phase := Ready); }
    }

    // ---- epoch audit -------------------------------------------------------------

    method StartEpochChain() returns (first: Option<Id>)
      modifies this
      ensures View() == Step(old(View()), AuctionState.StartEpochChain)
      ensures Answer(old(View()), AuctionState.StartEpochChain) == if first.Some? then Next(first.value) else Nobody
    {
      if epoch.phase == Audit { return None; }
      epoch := epoch.(phase := Audit, party := order, aborted := false, key := None,
                      totals := map[], partials := map[], disclosed := false, chainPos := 0);
      if |epoch.party| == 0 { return None; }
      return Some(epoch.party[0]);
    }

    method AdvanceEpochChain(pk: Blob) returns (next: Option<Id>)
      modifies this
      ensures View() == Step(old(View()), AuctionState.AdvanceEpochChain(pk))
      ensures Answer(old(View()), AuctionState.AdvanceEpochChain(pk)) == if next.Some? then Next(next.value) else ChainDone
    {
      epoch := epoch.(key := Some(pk), chainPos := epoch.chainPos + 1);
      if epoch.chainPos >= |epoch.party| { return None; }
      return Some(epoch.party[epoch.chainPos]);
    }

    method HaveAllLocked(m: map<Id, Blob>) returns (all: bool)
      ensures all <==> HaveAll(epoch.party, m)
    {
      for i := 0 to |epoch.party|
        invariant forall j :: 0 <= j < i ==> epoch.party[j] in m
      {
        if epoch.party[i] !in m { return false; }
      }
      return |epoch.party| > 0;
    }

    method SubmitEpochPartial(id: Id, ct: Blob) returns (all: bool)
      modifies this
      ensures View() == Step(old(View()), AuctionState.SubmitEpochPartial(id, ct))
      ensures Collected(all) == Answer(old(View()), AuctionState.SubmitEpochPartial(id, ct))
    {
      epoch := epoch.(partials := epoch.partials[id := ct]);
      all := HaveAllLocked(epoch.partials);
    }

    method SubmitEpochTotal(id: Id, ct: Blob) returns (all: bool)
      modifies this
      ensures View() == Step(old(View()), AuctionState.SubmitEpochTotal(id, ct))
      ensures Collected(all) == Answer(old(View()), AuctionState.SubmitEpochTotal(id, ct))
    {
      if epoch.phase != Audit { return false; }
      epoch := epoch.(totals := epoch.totals[id := ct]);
      all := HaveAllLocked(epoch.totals);
    }

    /** What has been collected from the frozen party, in party order. */
    method CollectInOrder(m: map<Id, Blob>) returns (out: seq<Blob>)
      ensures out == InPartyOrder(epoch.party, m)
    {
      out := [];
      for i := 0 to |epoch.party|
        invariant out == InPartyOrder(epoch.party[..i], m)
      {
        assert epoch.party[..i + 1][..i] == epoch.party[..i];
        if epoch.party[i] in m { out := out + [m[epoch.party[i]]]; }
      }
      assert epoch.party[..|epoch.party|] == epoch.party;
    }

    method EpochPartials() returns (out: seq<Blob>)
      ensures out == InPartyOrder(epoch.party, epoch.partials)
    {
      out := CollectInOrder(epoch.partials);
    }

    method EpochCiphertexts() returns (out: seq<Blob>)
      ensures out == InPartyOrder(epoch.party, epoch.totals)
    {
      out := CollectInOrder(epoch.totals);
    }

    method CloseEpoch(net: real, ok: bool)
      modifies this
      ensures View() == Step(old(View()), AuctionState.CloseEpoch(net, ok))
    {
      epoch := epoch.(net := net, ok := ok, disclosed := true, phase := Done);
    }

    method NewEpoch()
      modifies this
      ensures View() == Step(old(View()), AuctionState.NewEpoch)
    {
      trades := [];
      epoch := Epoch(Open, None, map[], map[], 0.0, false, false, 0, [], false);
      ResetLocked();
    }
  }
}

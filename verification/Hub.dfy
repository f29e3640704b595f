/** The message hub of examples/energy_auction/main.go: fresh connection ids and who is told what. */
module Hub {
  import opened Wrappers
  import opened Sequences
  import opened AuctionState
  import opened AuctionRuns
  import opened Decimals
  import Auction

  // ---- connection ids ----------------------------------------------------------

  function ConnectionId(n: nat): Id { "p" + Decimal(n) }

  lemma ConnectionIdsDiffer(m: nat, n: nat)
    requires ConnectionId(m) == ConnectionId(n)
    ensures m == n
  {
    DecimalReadsBack(m);
    DecimalReadsBack(n);
    assert ConnectionId(m)[1..] == Decimal(m) && ConnectionId(n)[1..] == Decimal(n);
  }

  /** Every id in use was issued: it is the id of some counter value up to the current one. */
  ghost predicate Issued(id: Id, upTo: nat) { exists n :: 1 <= n <= upTo && id == ConnectionId(n) }

  // ---- messages ------------------------------------------------------------------

  datatype Inbound =
    | Keys(blob: Blob, note: Blob)
    | BidMsg(keyId: int, blob: Blob)
    | MasksMsg(blobs: seq<Blob>)
    | OfferMsg(seat: int, price: real)
    | SettleMsg(ok: bool, price: real)
    | EpochStart
    | EpochChained(blob: Blob)
    | EpochTotal(blob: Blob)
    | EpochSummed(blob: Blob)
    | EpochPartial(blob: Blob)
    | EpochResult(price: real, ok: bool)
    | NewEpochMsg
    | ResetMsg
    | HourMsg(hour: int)

  datatype Outbound =
    | PubKey(blob: Blob, keyId: int)
    | EvalKey(blob: Blob)
    | Rejected(keyId: int)
    | Evaluate(blobs: seq<Blob>, seats: seq<int>)
    | Masks(blobs: seq<Blob>, bids: seq<Blob>, seats: seq<int>)
    | WonMsg(seat: int, price: real)
    | EpochChain(blob: Blob)
    | EpochKey(blob: Blob)
    | EpochSum(blobs: seq<Blob>)
    | EpochDecrypt(blob: Blob)
    | EpochFuse(blobs: seq<Blob>)
    | ResetLedger

  datatype Send = Send(to: Id, msg: Outbound)

  /** The relay operation a message stands for, if any. */
  function OpOf(from: Id, m: Inbound): Option<Op> {
    match m
    case Keys(pk, ek) => Some(PublishKeys(pk, ek))
    case BidMsg(key, ct) => Some(SubmitBid(from, key, ct))
    case MasksMsg(blobs) => Some(SetMasks(blobs))
    case OfferMsg(seat, price) => Some(Offer(seat, price))
    case SettleMsg(ok, _) => Some(Settle(ok))
    case EpochStart => Some(StartEpochChain)
    case EpochChained(pk) => Some(AdvanceEpochChain(pk))
    case EpochTotal(ct) => Some(SubmitEpochTotal(from, ct))
    case EpochSummed(_) => None
    case EpochPartial(ct) => Some(SubmitEpochPartial(from, ct))
    case EpochResult(net, ok) => Some(CloseEpoch(net, ok))
    case NewEpochMsg => Some(NewEpoch)
    case ResetMsg => Some(Reset)
    case HourMsg(h) => Some(SetHour(h))
  }

  function After(s: State, from: Id, m: Inbound): State {
    var op := OpOf(from, m);
    if op.Some? then Step(s, op.value) else s
  }

  /** The relay's answer to a message, if it stands for an operation. */
  function ReplyTo(s: State, from: Id, m: Inbound): Reply {
    var op := OpOf(from, m);
    if op.Some? then Answer(s, op.value) else Silent
  }

  /**
   * Who may receive what, when a message takes the relay from s to t. Work on ciphertexts, and the key for
   * it, goes to a buyer, who holds no secret; masks and the bids under them go to the seller; only a buyer in
   * the winning seat learns it won, and only from an accepted settle; a rejection goes back to its sender;
   * and the relay's reply decides which of these are sent at all.
   */
  ghost predicate MayReceive(s: State, t: State, from: Id, m: Inbound, x: Send) {
    var reply := ReplyTo(s, from, m);
    match x.msg
    case PubKey(blob, keyId) => m.Keys? && blob == m.blob && keyId == t.round.keyId
    case EvalKey(blob) => m.Keys? && blob == m.note && IsRole(t, x.to, Buyer)
    case Rejected(keyId) => reply == Bid(BidRejected) && x.to == from && keyId == t.round.keyId
    case Evaluate(blobs, seats) => reply == Bid(BidComplete) && IsRole(t, x.to, Buyer) && BidsBySeat(t, blobs, seats)
    case Masks(blobs, bids, seats) =>
      m.MasksMsg? && blobs == m.blobs && IsRole(t, x.to, Seller) && BidsBySeat(t, bids, seats)
    case WonMsg(seat, price) =>
      m.SettleMsg? && m.ok && price == m.price && reply == Winner(seat) && seat >= 0 && Sits(t.peers, x.to, seat)
    case EpochChain(blob) => reply == Next(x.to) && blob == (if m.EpochChained? then m.blob else "")
    case EpochKey(blob) => m.EpochChained? && reply == ChainDone && blob == m.blob
    case EpochSum(blobs) =>
      m.EpochTotal? && reply == Collected(true) && IsRole(t, x.to, Buyer) && blobs == InPartyOrder(t.epoch.party, t.epoch.totals)
    case EpochDecrypt(blob) => m.EpochSummed? && blob == m.blob
    case EpochFuse(blobs) =>
      m.EpochPartial? && reply == Collected(true) && blobs == InPartyOrder(t.epoch.party, t.epoch.partials)
    case ResetLedger => m.NewEpochMsg?
  }

  /** What every connection gets. */
  ghost predicate Reaches(order: seq<Id>, out: seq<Send>, msg: Outbound) {
    forall i :: 0 <= i < |order| ==> Send(order[i], msg) in out
  }

  /** What a message must lead to, beyond what it may. */
  ghost predicate Delivers(s: State, t: State, order: seq<Id>, from: Id, m: Inbound, out: seq<Send>) {
    var reply := ReplyTo(s, from, m);
    match m
    case Keys(pk, ek) => Reaches(order, out, PubKey(pk, t.round.keyId)) && (Buyers(t.peers) != {} ==> |out| == |order| + 1)
    case BidMsg(_, _) =>
      && (reply == Bid(BidRejected) && from in order ==> out == [Send(from, Rejected(t.round.keyId))])
      && (reply == Bid(BidComplete) ==> |out| == 1 && out[0].msg.Evaluate?)
    case MasksMsg(_) => |out| == OneIf(WithRole(t.peers, Seller) != {})
    case SettleMsg(ok, _) => |out| == OneIf(Tells(s, ok))
    case EpochStart => reply.Next? && reply.id in order ==> |out| == 1
    case EpochChained(pk) => if reply == ChainDone then Reaches(order, out, EpochKey(pk)) else reply.Next? && reply.id in order ==> |out| == 1
    case EpochTotal(_) => reply == Collected(true) && Buyers(t.peers) != {} ==> |out| == 1
    case EpochSummed(ct) => Reaches(order, out, EpochDecrypt(ct))
    case EpochPartial(_) => reply == Collected(true) ==> Reaches(order, out, EpochFuse(InPartyOrder(t.epoch.party, t.epoch.partials)))
    case NewEpochMsg => Reaches(order, out, ResetLedger)
    case _ => out == []
  }

  /** An accepted settle of an open offer whose seat is taken: someone is to be told. */
  ghost predicate Tells(s: State, ok: bool) {
    ok && s.round.winnerSeat >= 0 && SeatTaken(s.peers, s.round.winnerSeat)
  }
  function OneIf(b: bool): nat { if b then 1 else 0 }

  predicate IsRole(t: State, id: Id, role: Role) { id in t.peers && t.peers[id].role == role }

  ghost predicate BidsBySeat(t: State, blobs: seq<Blob>, seats: seq<int>) {
    && seats == SeatsBelow(t.round.bids, MaxBuyers) && |blobs| == |seats|
    && forall i :: 0 <= i < |seats| ==> seats[i] in t.round.bids && blobs[i] == t.round.bids[seats[i]]
  }

  ghost predicate AllMayReceive(s: State, t: State, from: Id, m: Inbound, out: seq<Send>) {
    forall i :: 0 <= i < |out| ==> MayReceive(s, t, from, m, out[i])
  }

  /** Every reply goes to someone who may have it, and everyone who must have one gets it. */
  ghost predicate Routed(s: State, t: State, order: seq<Id>, from: Id, m: Inbound, out: seq<Send>) {
    AllMayReceive(s, t, from, m, out) && Delivers(s, t, order, from, m, out)
  }

  /** A message to a connection that is gone is dropped. */
  function OneSend(order: seq<Id>, id: Id, msg: Outbound): seq<Send> { if id in order then [Send(id, msg)] else [] }

  // ---- the routing of single messages ---------------------------------------------

  lemma RouteBid(s: State, t: State, order: seq<Id>, from: Id, m: Inbound, r: BidResult, out: seq<Send>)
    requires m.BidMsg? && ReplyTo(s, from, m) == Bid(r)
    requires r == BidRejected ==> out == OneSend(order, from, Rejected(t.round.keyId))
    requires r == BidStored ==> out == []
    requires r == BidComplete ==> |out| == 1 && out[0].msg.Evaluate? && MayReceive(s, t, from, m, out[0])
    ensures Routed(s, t, order, from, m, out)
  {}

  lemma RouteChained(s: State, t: State, order: seq<Id>, from: Id, m: Inbound, out: seq<Send>)
    requires m.EpochChained?
    requires ReplyTo(s, from, m) == ChainDone ==>
      Reaches(order, out, EpochKey(m.blob)) && forall i :: 0 <= i < |out| ==> out[i].msg == EpochKey(m.blob)
    requires ReplyTo(s, from, m) != ChainDone ==> ReplyTo(s, from, m).Next? && out == OneSend(order, ReplyTo(s, from, m).id, EpochChain(m.blob))
    ensures Routed(s, t, order, from, m, out)
  {}

  lemma RoutePartial(s: State, t: State, order: seq<Id>, from: Id, m: Inbound, out: seq<Send>, parts: seq<Blob>)
    requires m.EpochPartial? && parts == InPartyOrder(t.epoch.party, t.epoch.partials)
    requires if ReplyTo(s, from, m) == Collected(true) then
        Reaches(order, out, EpochFuse(parts)) && forall i :: 0 <= i < |out| ==> out[i].msg == EpochFuse(parts)
      else out == []
    ensures Routed(s, t, order, from, m, out)
  {}

  lemma RouteTotal(s: State, t: State, order: seq<Id>, from: Id, m: Inbound, out: seq<Send>)
    requires m.EpochTotal? && (ReplyTo(s, from, m) != Collected(true) ==> out == [])
    requires ReplyTo(s, from, m) == Collected(true) ==> |out| == OneIf(Buyers(t.peers) != {})
    requires forall i :: 0 <= i < |out| ==>
      out[i].msg == EpochSum(InPartyOrder(t.epoch.party, t.epoch.totals)) && IsRole(t, out[i].to, Buyer)
    ensures Routed(s, t, order, from, m, out)
  {}

  lemma RouteMasks(s: State, t: State, order: seq<Id>, from: Id, m: Inbound, out: seq<Send>)
    requires m.MasksMsg? && |out| == OneIf(WithRole(t.peers, Seller) != {})
    requires forall i :: 0 <= i < |out| ==>
      out[i].msg.Masks? && out[i].msg.blobs == m.blobs && IsRole(t, out[i].to, Seller) && BidsBySeat(t, out[i].msg.bids, out[i].msg.seats)
    ensures Routed(s, t, order, from, m, out)
  {}

  lemma {:induction false} FirstBuyerIsBuyer(order: seq<Id>, peers: Peers)
    requires PeersOk(peers)
    ensures var p := Auction.FirstBuyer(order, peers);
      if p.Some? then p.value.id in order && p.value.id in peers && peers[p.value.id].role == Buyer
      else forall id :: id in order && id in peers ==> peers[id].role != Buyer
  {
    if order != [] {
      FirstBuyerIsBuyer(order[1..], peers);
      assert order == [order[0]] + order[1..];
    }
  }

  class Hub {
    const auction: Auction.Auction
    var order: seq<Id>
    var nextId: nat

    ghost predicate Valid()
      reads this, auction
    {
      && Inv(auction.View()) && order == auction.order
      && (forall id :: id in auction.peers ==> Issued(id, nextId))
    }

    constructor ()
      ensures Valid() && fresh(auction) && auction.View() == Init && order == []
    {
      InitInv();
      var a := new Auction.Auction();
      auction, order, nextId := a, [], 0;
    }

    /** A new connection gets an id never used before, so the relay's invariant survives the join. */
    method Connect() returns (id: Id)
      requires Valid()
      modifies this, auction
      ensures Valid() && id !in old(auction.peers)
      ensures auction.View() == Step(old(auction.View()), Join(id)) && order == old(order) + [id]
    {
      nextId := nextId + 1;
      id := ConnectionId(nextId);
      order := order + [id];
      FreshId(auction.peers, nextId);
      StepKeepsInv(auction.View(), Join(id));
      ghost var before := auction.peers.Keys;
      var p := auction.Join(id);
      forall x | x in auction.peers ensures Issued(x, nextId) {
        if x != id { var n :| 1 <= n <= nextId - 1 && x == ConnectionId(n); }
      }
    }

    method Disconnect(id: Id)
      requires Valid()
      modifies this, auction
      ensures Valid() && nextId == old(nextId)
      ensures auction.View() == Step(old(auction.View()), Leave(id)) && order == Without(old(order), id)
    {
      order := Without(order, id);
      StepKeepsInv(auction.View(), Leave(id));
      auction.Leave(id);
    }

    method SendTo(id: Id, msg: Outbound) returns (out: seq<Send>)
      ensures out == OneSend(order, id, msg)
    {
      out := if id in order then [Send(id, msg)] else [];
    }

    method SendAll(msg: Outbound) returns (out: seq<Send>)
      ensures |out| == |order| && forall i :: 0 <= i < |order| ==> out[i] == Send(order[i], msg)
      ensures Reaches(order, out, msg) && forall i :: 0 <= i < |out| ==> out[i].msg == msg
    {
      out := [];
      for i := 0 to |order|
        invariant |out| == i && forall j :: 0 <= j < i ==> out[j] == Send(order[j], msg)
      {
        out := out + [Send(order[i], msg)];
      }
    }

    /** To the evaluator, which is there whenever any buyer is. */
    method SendEvaluator(msg: Outbound) returns (out: seq<Send>)
      requires Inv(auction.View()) && order == auction.order
      ensures forall i :: 0 <= i < |out| ==> out[i].msg == msg && IsRole(auction.View(), out[i].to, Buyer)
      ensures |out| == if Buyers(auction.peers) == {} then 0 else 1
    {
      FirstBuyerIsBuyer(auction.order, auction.peers);
      var ev := auction.Evaluator();
      if ev.None? { return []; }
      assert ev.value.id in Buyers(auction.peers);
      out := SendTo(ev.value.id, msg);
    }

    /** The state a message leads to keeps the relay's invariant and the connections. */
    ghost predicate Leads(from: Id, m: Inbound)
      reads this, auction
    {
      Inv(After(auction.View(), from, m)) && order == After(auction.View(), from, m).order
    }

    method OnKeys(ghost from: Id, pk: Blob, ek: Blob) returns (out: seq<Send>)
      requires Leads(from, Keys(pk, ek))
      modifies auction
      ensures auction.View() == After(old(auction.View()), from, Keys(pk, ek))
      ensures Routed(old(auction.View()), auction.View(), order, from, Keys(pk, ek), out)
    {
      auction.PublishKeys(pk, ek);
      var all := SendAll(PubKey(pk, auction.round.keyId));
      var ev := SendEvaluator(EvalKey(ek));
      out := all + ev;
    }

    method OnBid(from: Id, key: int, ct: Blob) returns (out: seq<Send>)
      requires Leads(from, BidMsg(key, ct))
      modifies auction
      ensures auction.View() == After(old(auction.View()), from, BidMsg(key, ct))
      ensures Routed(old(auction.View()), auction.View(), order, from, BidMsg(key, ct), out)
    {
      ghost var s := auction.View();
      var r := auction.SubmitBid(from, key, ct);
      out := [];
      if r == BidRejected {
        out := SendTo(from, Rejected(auction.round.keyId));
      } else if r == BidComplete {
        var cts, seats := auction.OrderedBids();
        out := SendEvaluator(Evaluate(cts, seats));
        SomebodyBid(s, from, key, ct);
      }
      RouteBid(s, auction.View(), order, from, BidMsg(key, ct), r, out);
    }

    method OnMasks(ghost from: Id, blobs: seq<Blob>) returns (out: seq<Send>)
      requires Leads(from, MasksMsg(blobs))
      modifies auction
      ensures auction.View() == After(old(auction.View()), from, MasksMsg(blobs))
      ensures Routed(old(auction.View()), auction.View(), order, from, MasksMsg(blobs), out)
    {
      ghost var before := auction.View();
      auction.SetMasks(blobs);
      var s := auction.FindSeller();
      out := [];
      if s.Some? {
        var cts, seats := auction.OrderedBids();
        out := SendTo(s.value, Masks(blobs, cts, seats));
      }
      RouteMasks(before, auction.View(), order, from, MasksMsg(blobs), out);
    }

    method OnSettle(ghost from: Id, ok: bool, price: real) returns (out: seq<Send>)
      requires Leads(from, SettleMsg(ok, price))
      modifies auction
      ensures auction.View() == After(old(auction.View()), from, SettleMsg(ok, price))
      ensures Routed(old(auction.View()), auction.View(), order, from, SettleMsg(ok, price), out)
    {
      SettleKeepsSeats(auction.View(), ok);
      var seat := auction.Settle(ok);
      out := [];
      if seat >= 0 && ok {
        var w := auction.PeerAtSeat(seat);
        if w.Some? { out := SendTo(w.value, WonMsg(seat, price)); }
      }
    }

    method OnEpochStart(ghost from: Id) returns (out: seq<Send>)
      requires Leads(from, EpochStart)
      modifies auction
      ensures auction.View() == After(old(auction.View()), from, EpochStart)
      ensures Routed(old(auction.View()), auction.View(), order, from, EpochStart, out)
    {
      var first := auction.StartEpochChain();
      out := [];
      if first.Some? { out := SendTo(first.value, EpochChain("")); }
    }

    method OnEpochChained(ghost from: Id, pk: Blob) returns (out: seq<Send>)
      requires Leads(from, EpochChained(pk))
      modifies auction
      ensures auction.View() == After(old(auction.View()), from, EpochChained(pk))
      ensures Routed(old(auction.View()), auction.View(), order, from, EpochChained(pk), out)
    {
      ghost var s := auction.View();
      var next := auction.AdvanceEpochChain(pk);
      if next.Some? { out := SendTo(next.value, EpochChain(pk)); } else { out := SendAll(EpochKey(pk)); }
      RouteChained(s, auction.View(), order, from, EpochChained(pk), out);
    }

    method OnEpochTotal(from: Id, ct: Blob) returns (out: seq<Send>)
      requires Leads(from, EpochTotal(ct))
      modifies auction
      ensures auction.View() == After(old(auction.View()), from, EpochTotal(ct))
      ensures Routed(old(auction.View()), auction.View(), order, from, EpochTotal(ct), out)
    {
      ghost var s := auction.View();
      var all := auction.SubmitEpochTotal(from, ct);
      out := [];
      if all {
        var cts := auction.EpochCiphertexts();
        out := SendEvaluator(EpochSum(cts));
      }
      RouteTotal(s, auction.View(), order, from, EpochTotal(ct), out);
    }

    method OnEpochPartial(from: Id, ct: Blob) returns (out: seq<Send>)
      requires Leads(from, EpochPartial(ct))
      modifies auction
      ensures auction.View() == After(old(auction.View()), from, EpochPartial(ct))
      ensures Routed(old(auction.View()), auction.View(), order, from, EpochPartial(ct), out)
    {
      ghost var s := auction.View();
      var all := auction.SubmitEpochPartial(from, ct);
      out := [];
      if all {
        var parts := auction.EpochPartials();
        out := SendAll(EpochFuse(parts));
      }
      RoutePartial(s, auction.View(), order, from, EpochPartial(ct), out, InPartyOrder(auction.epoch.party, auction.epoch.partials));
    }

    /** Messages that only change the relay, or only go on to every tab. */
    method OnPlain(ghost from: Id, m: Inbound) returns (out: seq<Send>)
      requires m.OfferMsg? || m.EpochSummed? || m.EpochResult? || m.NewEpochMsg? || m.ResetMsg? || m.HourMsg?
      modifies auction
      ensures auction.View() == After(old(auction.View()), from, m)
      ensures Routed(old(auction.View()), auction.View(), order, from, m, out)
    {
      out := [];
      match m
      case OfferMsg(seat, price) => auction.Offer(seat, price);
      case EpochSummed(ct) => out := SendAll(EpochDecrypt(ct));
      case EpochResult(net, ok) => auction.CloseEpoch(net, ok);
      case NewEpochMsg => auction.NewEpoch(); out := SendAll(ResetLedger);
      case ResetMsg => auction.Reset();
      case HourMsg(h) => auction.SetHour(h);
    }

    /** One inbound message: one relay step, and replies only to those who may have them. */
    method Handle(from: Id, m: Inbound) returns (out: seq<Send>)
      requires Valid()
      modifies auction
      ensures Valid() && auction.View() == After(old(auction.View()), from, m)
      ensures Routed(old(auction.View()), auction.View(), order, from, m, out)
    {
      AfterKeepsInv(auction.View(), from, m);
      match m
      case Keys(pk, ek) => out := OnKeys(from, pk, ek);
      case BidMsg(key, ct) => out := OnBid(from, key, ct);
      case MasksMsg(blobs) => out := OnMasks(from, blobs);
      case SettleMsg(ok, price) => out := OnSettle(from, ok, price);
      case EpochStart => out := OnEpochStart(from);
      case EpochChained(pk) => out := OnEpochChained(from, pk);
      case EpochTotal(ct) => out := OnEpochTotal(from, ct);
      case EpochPartial(ct) => out := OnEpochPartial(from, ct);
      case _ => out := OnPlain(from, m);
    }
  }

  lemma SomebodyBid(s: State, from: Id, key: int, ct: Blob)
    requires Answer(s, SubmitBid(from, key, ct)) == Bid(BidComplete)
    ensures Buyers(Step(s, SubmitBid(from, key, ct)).peers) != {}
  {}

  lemma AfterKeepsInv(s: State, from: Id, m: Inbound)
    requires Inv(s)
    ensures Inv(After(s, from, m))
    ensures After(s, from, m).order == s.order && forall id :: id in After(s, from, m).peers ==> id in s.peers
  {
    var op := OpOf(from, m);
    if op.Some? {
      StepKeepsInv(s, op.value);
      StepKeepsIds(s, op.value);
    }
  }

  lemma SettleKeepsSeats(s: State, ok: bool)
    ensures SeatTaken(Step(s, Settle(ok)).peers, s.round.winnerSeat) <==> SeatTaken(s.peers, s.round.winnerSeat)
  {
    var t, seat := Step(s, Settle(ok)), s.round.winnerSeat;
    assert forall id :: Sits(t.peers, id, seat) <==> Sits(s.peers, id, seat);
  }

  lemma FreshId(peers: Peers, n: nat)
    requires n > 0 && forall id :: id in peers ==> Issued(id, n - 1)
    ensures ConnectionId(n) !in peers
  {
    if ConnectionId(n) in peers {
      var k :| 1 <= k <= n - 1 && ConnectionId(n) == ConnectionId(k);
      ConnectionIdsDiffer(n, k);
    }
  }

  lemma StepKeepsIds(s: State, op: Op)
    requires !op.Join? && !op.Leave?
    ensures Step(s, op).order == s.order && forall id :: id in Step(s, op).peers ==> id in s.peers
  {
    match op
    case SubmitBid(_, _, _) =>
    case _ =>
  }
}

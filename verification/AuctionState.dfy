/**
 * The relay of examples/energy_auction/auction.go as a state machine. Every exported operation
 * runs under one mutex, so each is one step; Step gives the new state and Answer the reply.
 */
module AuctionState {
  import opened Wrappers

  const MaxBuyers := 5
  const EpochSize := 5

  type Id = string
  type Blob = string

  datatype Role = Seller | Buyer | Full
  datatype Phase = Waiting | Bidding | Evaluating | Offering | Settled
  datatype EpochPhase = Open | Ready | Audit | Done
  datatype BidResult = BidRejected | BidStored | BidComplete

  /** One connected tab. */
  datatype Peer = Peer(id: Id, role: Role, seat: int, isSealed: bool)

  /** One settled auction; the seat is never serialised. */
  datatype Trade = Trade(slot: int, price: real, accepted: bool, bidders: nat, seat: int)

  type Peers = map<Id, Peer>

  /** The running round: relayed crypto material, opaque to the relay, and its outcome. */
  datatype Round = Round(
    phase: Phase, pubKey: Option<Blob>, evalKey: Option<Blob>, keyId: int,
    bids: map<int, Blob>, masks: seq<Blob>, winnerSeat: int, price: real)

  /** The epoch audit: an N-of-N key chain and its totals over a frozen party. */
  datatype Epoch = Epoch(
    phase: EpochPhase, key: Option<Blob>, totals: map<Id, Blob>, partials: map<Id, Blob>,
    net: real, ok: bool, disclosed: bool, chainPos: nat, party: seq<Id>, aborted: bool)

  datatype State = State(hour: int, peers: Peers, order: seq<Id>, round: Round, trades: seq<Trade>, epoch: Epoch)

  const NoEpoch := Epoch(Open, None, map[], map[], 0.0, false, false, 0, [], false)
  const Init := State(13, map[], [], Round(Waiting, None, None, 0, map[], [], -1, 0.0), [], NoEpoch)

  datatype Op =
    | Join(id: Id)
    | Leave(id: Id)
    | Reset
    | SetHour(hour: int)
    | PublishKeys(pk: Blob, ek: Blob)
    | SubmitBid(id: Id, keyId: int, ct: Blob)
    | SetMasks(blobs: seq<Blob>)
    | Offer(seat: int, price: real)
    | Settle(accepted: bool)
    | StartEpochChain
    | AdvanceEpochChain(pk: Blob)
    | SubmitEpochTotal(id: Id, ct: Blob)
    | SubmitEpochPartial(id: Id, ct: Blob)
    | CloseEpoch(net: real, ok: bool)
    | NewEpoch

  datatype Reply =
    | Silent
    | Seated(peer: Peer)
    | Bid(result: BidResult)
    | Winner(seat: int)
    | Next(id: Id)
    | Nobody
    | ChainDone
    | Collected(all: bool)

  // ---- queries ---------------------------------------------------------------

  function WithRole(peers: map<Id, Peer>, role: Role): set<Id> { set id | id in peers && peers[id].role == role }
  function Buyers(peers: Peers): set<Id> { WithRole(peers, Buyer) }

  /** The seat of every peer that has submitted a bid this round. */
  function SealedSeats(peers: Peers): map<Id, int> {
    map id | id in peers && peers[id].isSealed :: peers[id].seat
  }

  function Unsealed(peers: Peers): Peers { map id | id in peers :: peers[id].(isSealed := false) }

  function Without(order: seq<Id>, id: Id): seq<Id> {
    if order == [] then [] else if order[0] == id then order[1..] else [order[0]] + Without(order[1..], id)
  }

  /** The occupied seats below n, in seat order. */
  function SeatsBelow(bids: map<int, Blob>, n: nat): seq<int> {
    if n == 0 then [] else SeatsBelow(bids, n - 1) + (if n - 1 in bids then [n - 1] else [])
  }

  /** The entries of m that belong to the frozen party, in party order. */
  function InPartyOrder(party: seq<Id>, m: map<Id, Blob>): seq<Blob> {
    if party == [] then [] else
      var p := party[|party| - 1];
      InPartyOrder(party[..|party| - 1], m) + (if p in m then [m[p]] else [])
  }

  predicate HaveAll(party: seq<Id>, m: map<Id, Blob>) {
    |party| > 0 && forall i :: 0 <= i < |party| ==> party[i] in m
  }

  // ---- steps -----------------------------------------------------------------

  function Newcomer(peers: Peers, id: Id): Peer {
    if WithRole(peers, Seller) == {} then Peer(id, Seller, -1, false)
    else if |Buyers(peers)| < MaxBuyers then Peer(id, Buyer, |Buyers(peers)|, false)
    else Peer(id, Full, -1, false)
  }

  function ResetRound(s: State): State {
    s.(peers := Unsealed(s.peers), round := Round(Waiting, None, None, s.round.keyId, map[], [], -1, 0.0))
  }

  function AbortAudit(e: Epoch): Epoch {
    e.(aborted := true, phase := Ready, party := [], totals := map[], partials := map[], chainPos := 0)
  }

  /** Losing the seller or a sealed bidder ends the round; losing a frozen party aborts the audit. */
  function AfterLeave(s: State, id: Id): State {
    var gone := s.(peers := s.peers - {id}, order := Without(s.order, id),
                   epoch := if s.epoch.phase == Audit && id in s.epoch.party then AbortAudit(s.epoch) else s.epoch);
    if id in s.peers && (s.peers[id].role == Seller || s.peers[id].isSealed) then ResetRound(gone) else gone
  }

  function AfterPublish(s: State, pk: Blob, ek: Blob): State {
    s.(peers := Unsealed(s.peers),
       round := Round(Bidding, Some(pk), Some(ek), s.round.keyId + 1, map[], [], -1, s.round.price))
  }

  predicate BidAccepted(s: State, id: Id, keyId: int) {
    id in s.peers && s.peers[id].role == Buyer && s.round.phase == Bidding && keyId == s.round.keyId
  }

  predicate Complete(bids: map<int, Blob>, peers: Peers) { |bids| >= |Buyers(peers)| != 0 }

  function AfterBid(s: State, id: Id, keyId: int, ct: Blob): State {
    if !BidAccepted(s, id, keyId) then s else
      var peers := s.peers[id := s.peers[id].(isSealed := true)];
      var bids := s.round.bids[s.peers[id].seat := ct];
      s.(peers := peers,
         round := s.round.(bids := bids, phase := if Complete(bids, peers) then Evaluating else s.round.phase))
  }

  function AfterSettle(s: State, accepted: bool): State {
    if s.round.winnerSeat < 0 then s else
      var trades := [Trade(s.hour, s.round.price, accepted, |s.round.bids|, s.round.winnerSeat)] + s.trades;
      var t := ResetRound(s.(hour := (s.hour + 1) % 24, trades := trades));
      t.(round := t.round.(phase := Settled),
         epoch := if s.epoch.phase == Open && |trades| >= EpochSize then s.epoch.(phase := Ready) else s.epoch)
  }

  function StartedEpoch(e: Epoch, order: seq<Id>): Epoch {
    if e.phase == Audit then e else Epoch(Audit, None, map[], map[], e.net, e.ok, false, 0, order, false)
  }

  function Step(s: State, op: Op): State {
    match op
    case Join(id) => s.(peers := s.peers[id := Newcomer(s.peers, id)], order := s.order + [id])
    case Leave(id) => AfterLeave(s, id)
    case Reset => ResetRound(s)
    case SetHour(h) => ResetRound(s.(hour := h % 24))
    case PublishKeys(pk, ek) => AfterPublish(s, pk, ek)
    case SubmitBid(id, keyId, ct) => AfterBid(s, id, keyId, ct)
    case SetMasks(blobs) => s.(round := s.round.(masks := blobs, phase := Offering))
    case Offer(seat, price) => s.(round := s.round.(winnerSeat := seat, price := price, phase := Offering))
    case Settle(accepted) => AfterSettle(s, accepted)
    case StartEpochChain => s.(epoch := StartedEpoch(s.epoch, s.order))
    case AdvanceEpochChain(pk) => s.(epoch := s.epoch.(key := Some(pk), chainPos := s.epoch.chainPos + 1))
    case SubmitEpochTotal(id, ct) =>
      if s.epoch.phase == Audit then s.(epoch := s.epoch.(totals := s.epoch.totals[id := ct])) else s
    case SubmitEpochPartial(id, ct) => s.(epoch := s.epoch.(partials := s.epoch.partials[id := ct]))
    case CloseEpoch(net, ok) => s.(epoch := s.epoch.(net := net, ok := ok, disclosed := true, phase := Done))
    case NewEpoch => ResetRound(s.(trades := [], epoch := NoEpoch))
  }

  function Answer(s: State, op: Op): Reply {
    var t := Step(s, op);
    match op
    case Join(id) => Seated(Newcomer(s.peers, id))
    case SubmitBid(id, keyId, ct) =>
      Bid(if !BidAccepted(s, id, keyId) then BidRejected
          else if Complete(t.round.bids, t.peers) then BidComplete else BidStored)
    case Settle(_) => Winner(if s.round.winnerSeat < 0 then -1 else s.round.winnerSeat)
    case StartEpochChain => if s.epoch.phase == Audit || t.epoch.party == [] then Nobody else Next(t.epoch.party[0])
    case AdvanceEpochChain(_) =>
      if t.epoch.chainPos < |t.epoch.party| then Next(t.epoch.party[t.epoch.chainPos]) else ChainDone
    case SubmitEpochTotal(_, _) => Collected(s.epoch.phase == Audit && HaveAll(t.epoch.party, t.epoch.totals))
    case SubmitEpochPartial(_, _) => Collected(HaveAll(t.epoch.party, t.epoch.partials))
    case _ => Silent
  }

  // ---- runs ------------------------------------------------------------------

  /** The hub never reuses a connection id, so a newcomer is not already seated. */
  predicate Fresh(s: State, op: Op) { op.Join? ==> op.id !in s.peers }

  function Run(s: State, ops: seq<Op>): State {
    if ops == [] then s else Step(Run(s, ops[..|ops| - 1]), ops[|ops| - 1])
  }

  ghost predicate Possible(s: State, ops: seq<Op>) {
    forall i :: 0 <= i < |ops| ==> Fresh(Run(s, ops[..i]), ops[i])
  }

  lemma PossiblePrefix(s: State, ops: seq<Op>)
    requires ops != [] && Possible(s, ops)
    ensures Possible(s, ops[..|ops| - 1]) && Fresh(Run(s, ops[..|ops| - 1]), ops[|ops| - 1])
  {
    var front := ops[..|ops| - 1];
    forall i | 0 <= i < |front| ensures Fresh(Run(s, front[..i]), front[i]) {
      assert front[..i] == ops[..i];
    }
  }
}

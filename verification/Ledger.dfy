/**
 * The books: the relay together with every tab's private ledger and the messages in flight
 * (examples/energy_auction/main.go routing, examples/energy_auction/e2e/auction_e2e.js tabs),
 * over runs without departures. Tab i is the i-th connection; tab 0 sells.
 */
module Ledger {
  import opened Wrappers
  import opened Sequences
  import opened AuctionState
  import opened AuctionRuns

  /** What the relay can put in a tab's channel that touches its ledger; a channel keeps its order. */
  datatype Mail = Won(price: real) | EpochReset

  datatype Tab = Tab(net: real, inbox: seq<Mail>)

  /** An accepting settle on its way to the relay; `counted` says that no reset since will wipe its booking. */
  datatype Booking = Booking(price: real, counted: bool)

  /**
   * The system, and what went wrong in the running epoch: `refused` are the booked settles for which nobody
   * was told that they won, `unbooked` the ones somebody was told of without a booking of this epoch.
   */
  datatype Books = Books(relay: State, tabs: seq<Tab>, pending: seq<Booking>, refused: seq<real>, unbooked: seq<real>)

  const Empty := Books(Init, [], [], [], [])

  /** The recipient of a settle is a tab in the winning seat, or nobody. */
  datatype Event =
    | Connect(id: Id)
    | Relay(op: Op)
    | SellerSettles(price: real)
    | SettleArrives(winner: Option<nat>)
    | StraySettle(price: real, winner: Option<nat>)
    | RelayNewEpoch
    | Deliver(tab: nat)

  function Receive(net: real, m: Mail): real {
    match m
    case Won(p) => net + p
    case EpochReset => 0.0
  }

  function Post(t: Tab, m: Mail): Tab { t.(inbox := t.inbox + [m]) }

  /** Whom an accepting settle reaches: some buyer in the winning seat if there is one. */
  predicate Recipient(s: State, winner: Option<nat>) {
    if winner.Some? then
      s.round.winnerSeat >= 0 && winner.value < |s.order| && Sits(s.peers, s.order[winner.value], s.round.winnerSeat)
    else
      s.round.winnerSeat < 0 || forall i :: 0 <= i < |s.order| ==> !Sits(s.peers, s.order[i], s.round.winnerSeat)
  }

  /** When an event can happen: nobody leaves, and anybody may send anything at any time. */
  predicate Enabled(b: Books, e: Event) {
    match e
    case Connect(id) => id !in b.relay.peers
    case Relay(op) => !op.Join? && !op.Leave? && !op.NewEpoch? && op != Settle(true)
    case SellerSettles(_) => b.tabs != []
    case SettleArrives(w) => b.pending != [] && Recipient(b.relay, w)
    case StraySettle(_, w) => Recipient(b.relay, w)
    case RelayNewEpoch => true
    case Deliver(i) => i < |b.tabs| && b.tabs[i].inbox != []
  }

  function Tell(tabs: seq<Tab>, winner: Option<nat>, price: real): seq<Tab> {
    if winner.Some? && winner.value < |tabs| then tabs[winner.value := Post(tabs[winner.value], Won(price))] else tabs
  }

  function Next(b: Books, e: Event): Books
    requires Enabled(b, e)
  {
    match e
    case Connect(id) => b.(relay := Step(b.relay, Join(id)), tabs := b.tabs + [Tab(0.0, [])])
    case Relay(op) => b.(relay := Step(b.relay, op))
    case SellerSettles(price) =>
      b.(tabs := b.tabs[0 := b.tabs[0].(net := b.tabs[0].net + price)],
         pending := b.pending + [Booking(price, EpochReset !in b.tabs[0].inbox)])
    case SettleArrives(w) =>
      var p := b.pending[0];
      b.(relay := Step(b.relay, Settle(true)), tabs := Tell(b.tabs, w, p.price), pending := b.pending[1..],
         refused := if w.None? && p.counted then b.refused + [p.price] else b.refused,
         unbooked := if w.Some? && !p.counted then b.unbooked + [p.price] else b.unbooked)
    case StraySettle(price, w) =>
      b.(relay := Step(b.relay, Settle(true)), tabs := Tell(b.tabs, w, price),
         unbooked := if w.Some? then b.unbooked + [price] else b.unbooked)
    case RelayNewEpoch =>
      b.(relay := Step(b.relay, NewEpoch), tabs := seq(|b.tabs|, i requires 0 <= i < |b.tabs| => Post(b.tabs[i], EpochReset)),
         pending := Uncounted(b.pending), refused := [], unbooked := [])
    case Deliver(i) =>
      var t := b.tabs[i];
      b.(tabs := b.tabs[i := Tab(Receive(t.net, t.inbox[0]), t.inbox[1..])])
  }

  /** A new epoch wipes every booking made before it. */
  function Uncounted(pending: seq<Booking>): seq<Booking> {
    seq(|pending|, i requires 0 <= i < |pending| => Booking(pending[i].price, false))
  }

  ghost predicate Reaches(b: Books, es: seq<Event>, c: Books)
    decreases |es|
  {
    if es == [] then c == b
    else Enabled(b, es[0]) && Reaches(Next(b, es[0]), es[1..], c)
  }

  // ---- settled positions ---------------------------------------------------------

  /** A tab's net once everything in its channel has arrived. */
  function Eventually(net: real, inbox: seq<Mail>): real {
    if inbox == [] then net else Receive(Eventually(net, inbox[..|inbox| - 1]), inbox[|inbox| - 1])
  }

  lemma {:induction false} DeliveryKeepsPosition(net: real, inbox: seq<Mail>)
    requires inbox != []
    ensures Eventually(Receive(net, inbox[0]), inbox[1..]) == Eventually(net, inbox)
  {
    var n := |inbox| - 1;
    if n == 0 { assert inbox[1..] == [] && inbox[..0] == []; return; }
    DeliveryKeepsPosition(net, inbox[..n]);
    assert inbox[..n][1..] == inbox[1..][..n - 1];
  }

  lemma {:induction false} BookingShifts(net: real, inbox: seq<Mail>, p: real)
    requires EpochReset !in inbox
    ensures Eventually(net + p, inbox) == Eventually(net, inbox) + p
  {
    if inbox != [] {
      assert inbox[|inbox| - 1] in inbox;
      BookingShifts(net, inbox[..|inbox| - 1], p);
    }
  }

  /** Why the seller must wait for its own reset: booking before it arrives loses the amount. */
  lemma {:induction false} BookingBeforeResetIsLost(net: real, inbox: seq<Mail>, p: real)
    requires EpochReset in inbox
    ensures Eventually(net + p, inbox) == Eventually(net, inbox)
  {
    var n := |inbox| - 1;
    if inbox[n] != EpochReset {
      assert EpochReset in inbox[..n];
      BookingBeforeResetIsLost(net, inbox[..n], p);
    }
  }

  function Position(t: Tab): real { Eventually(t.net, t.inbox) }

  lemma PostReceives(t: Tab, m: Mail)
    ensures Position(Post(t, m)) == Receive(Position(t), m)
  {
    assert (t.inbox + [m])[..|t.inbox|] == t.inbox;
  }

  /** The audit's sum: buyers positive, the seller negative. */
  function Sum(tabs: seq<Tab>): real {
    if tabs == [] then 0.0 else
      var n := |tabs| - 1;
      Sum(tabs[..n]) + (if n == 0 then -Position(tabs[n]) else Position(tabs[n]))
  }

  lemma {:induction false} SumUpdate(tabs: seq<Tab>, i: nat, t: Tab)
    requires i < |tabs|
    ensures Sum(tabs[i := t]) == Sum(tabs) + (if i == 0 then Position(tabs[i]) - Position(t) else Position(t) - Position(tabs[i]))
  {
    var n := |tabs| - 1;
    if i == n {
      assert tabs[i := t][..n] == tabs[..n];
    } else {
      assert tabs[i := t][..n] == tabs[..n][i := t];
      SumUpdate(tabs[..n], i, t);
    }
  }

  lemma {:induction false} SumOfNothing(tabs: seq<Tab>)
    requires forall i :: 0 <= i < |tabs| ==> Position(tabs[i]) == 0.0
    ensures Sum(tabs) == 0.0
  {
    if tabs != [] { SumOfNothing(tabs[..|tabs| - 1]); }
  }

  /** What has been booked and not yet reached the relay. */
  function Outstanding(pending: seq<Booking>): real {
    if pending == [] then 0.0
    else (if pending[0].counted then pending[0].price else 0.0) + Outstanding(pending[1..])
  }

  lemma {:induction false} OneMoreOutstanding(pending: seq<Booking>, x: Booking)
    ensures Outstanding(pending + [x]) == Outstanding(pending) + (if x.counted then x.price else 0.0)
  {
    if pending == [] {
      assert (pending + [x])[1..] == [];
    } else {
      assert (pending + [x])[1..] == pending[1..] + [x];
      OneMoreOutstanding(pending[1..], x);
    }
  }

  lemma {:induction false} NothingCounted(pending: seq<Booking>)
    ensures Outstanding(Uncounted(pending)) == 0.0
  {
    if pending != [] {
      assert Uncounted(pending)[1..] == Uncounted(pending[1..]);
      NothingCounted(pending[1..]);
    }
  }

  function Total(prices: seq<real>): real {
    if prices == [] then 0.0 else Total(prices[..|prices| - 1]) + prices[|prices| - 1]
  }

  lemma TotalGrows(prices: seq<real>, p: real)
    ensures Total(prices + [p]) == Total(prices) + p
  {
    assert (prices + [p])[..|prices|] == prices;
  }

  // ---- the invariant ---------------------------------------------------------------

  /** The first connection sells and every other one does not. */
  ghost predicate FirstSells(s: State) {
    forall i :: 0 <= i < |s.order| ==> s.order[i] in s.peers && (s.peers[s.order[i]].role == Seller <==> i == 0)
  }

  ghost predicate RelayOk(s: State) { Inv(s) && FirstSells(s) }

  /** Conservation: what the tabs hold is what went wrong and what is still on its way, and nothing else. */
  ghost predicate BooksOk(b: Books) {
    && RelayOk(b.relay) && |b.tabs| == |b.relay.order|
    && Sum(b.tabs) == Total(b.unbooked) - Total(b.refused) - Outstanding(b.pending)
  }

  lemma JoinKeepsRelay(s: State, id: Id)
    requires RelayOk(s) && id !in s.peers
    ensures RelayOk(Step(s, Join(id)))
  {
    StepKeepsInv(s, Join(id));
    var t := Step(s, Join(id));
    assert forall x :: x in s.peers ==> x in s.order;
    if s.order != [] { assert s.order[0] in WithRole(s.peers, Seller); }
    assert t.order == s.order + [id];
    assert id !in s.order;
  }

  /** Only sealing and the round's own resets touch the peers, and neither moves anyone. */
  lemma StepKeepsRoles(s: State, op: Op)
    requires !op.Join? && !op.Leave?
    ensures var t := Step(s, op);
      && t.order == s.order && t.peers.Keys == s.peers.Keys
      && forall id :: id in s.peers ==> t.peers[id].role == s.peers[id].role && t.peers[id].seat == s.peers[id].seat
  {
    match op
    case SubmitBid(_, _, _) =>
    case _ =>
  }

  lemma OpKeepsRelay(s: State, op: Op)
    requires RelayOk(s) && !op.Join? && !op.Leave?
    ensures RelayOk(Step(s, op)) && Step(s, op).order == s.order
  {
    StepKeepsInv(s, op);
    StepKeepsRoles(s, op);
  }

  lemma TellMoves(s: State, tabs: seq<Tab>, w: Option<nat>, price: real)
    requires FirstSells(s) && |tabs| == |s.order| && Recipient(s, w)
    ensures |Tell(tabs, w, price)| == |tabs|
    ensures Sum(Tell(tabs, w, price)) == Sum(tabs) + (if w.Some? then price else 0.0)
  {
    if w.Some? {
      WinnerIsNotTheSeller(s, w.value);
      PostReceives(tabs[w.value], Won(price));
      SumUpdate(tabs, w.value, Post(tabs[w.value], Won(price)));
    }
  }

  lemma NewTabIsEmpty(tabs: seq<Tab>)
    ensures Sum(tabs + [Tab(0.0, [])]) == Sum(tabs)
  {
    assert (tabs + [Tab(0.0, [])])[..|tabs|] == tabs;
    assert Position(Tab(0.0, [])) == 0.0;
  }

  lemma ConnectKeepsBooks(b: Books, id: Id)
    requires BooksOk(b) && Enabled(b, Connect(id))
    ensures BooksOk(Next(b, Connect(id)))
  {
    JoinKeepsRelay(b.relay, id);
    NewTabIsEmpty(b.tabs);
  }

  lemma BookingKeepsBooks(b: Books, price: real)
    requires BooksOk(b) && Enabled(b, SellerSettles(price))
    ensures BooksOk(Next(b, SellerSettles(price)))
  {
    var t := b.tabs[0];
    BookingMoves(t, price);
    SumUpdate(b.tabs, 0, t.(net := t.net + price));
    OneMoreOutstanding(b.pending, Booking(price, EpochReset !in t.inbox));
  }

  lemma BookingMoves(t: Tab, price: real)
    ensures Position(t.(net := t.net + price)) == Position(t) + (if EpochReset in t.inbox then 0.0 else price)
  {
    if EpochReset in t.inbox { BookingBeforeResetIsLost(t.net, t.inbox, price); } else { BookingShifts(t.net, t.inbox, price); }
  }

  lemma ArrivalKeepsBooks(b: Books, w: Option<nat>)
    requires BooksOk(b) && Enabled(b, SettleArrives(w))
    ensures BooksOk(Next(b, SettleArrives(w)))
  {
    OpKeepsRelay(b.relay, Settle(true));
    TellMoves(b.relay, b.tabs, w, b.pending[0].price);
    ArrivalTotals(b, w);
  }

  /** An arriving settle leaves the pending ones and, unless it was booked and served, is put on record. */
  lemma ArrivalTotals(b: Books, w: Option<nat>)
    requires Enabled(b, SettleArrives(w))
    ensures var c := Next(b, SettleArrives(w));
      Total(c.unbooked) - Total(c.refused) - Outstanding(c.pending) ==
      Total(b.unbooked) - Total(b.refused) - Outstanding(b.pending) + (if w.Some? then b.pending[0].price else 0.0)
  {
    var p := b.pending[0];
    assert Outstanding(b.pending) == (if p.counted then p.price else 0.0) + Outstanding(b.pending[1..]);
    if w.None? && p.counted { TotalGrows(b.refused, p.price); }
    if w.Some? && !p.counted { TotalGrows(b.unbooked, p.price); }
  }

  lemma StrayKeepsBooks(b: Books, price: real, w: Option<nat>)
    requires BooksOk(b) && Enabled(b, StraySettle(price, w))
    ensures BooksOk(Next(b, StraySettle(price, w)))
  {
    OpKeepsRelay(b.relay, Settle(true));
    TellMoves(b.relay, b.tabs, w, price);
    TotalGrows(b.unbooked, price);
  }

  lemma NewEpochKeepsBooks(b: Books)
    requires BooksOk(b)
    ensures BooksOk(Next(b, RelayNewEpoch))
  {
    var c := Next(b, RelayNewEpoch);
    OpKeepsRelay(b.relay, NewEpoch);
    forall i | 0 <= i < |c.tabs| ensures Position(c.tabs[i]) == 0.0 { PostReceives(b.tabs[i], EpochReset); }
    SumOfNothing(c.tabs);
    NothingCounted(b.pending);
  }

  lemma DeliveryKeepsBooks(b: Books, i: nat)
    requires BooksOk(b) && Enabled(b, Deliver(i))
    ensures BooksOk(Next(b, Deliver(i)))
  {
    DeliveryKeepsPosition(b.tabs[i].net, b.tabs[i].inbox);
    SumUpdate(b.tabs, i, Next(b, Deliver(i)).tabs[i]);
  }

  lemma EventKeepsBooks(b: Books, e: Event)
    requires BooksOk(b) && Enabled(b, e)
    ensures BooksOk(Next(b, e))
  {
    match e
    case Connect(id) => ConnectKeepsBooks(b, id);
    case Relay(op) => OpKeepsRelay(b.relay, op);
    case SellerSettles(price) => BookingKeepsBooks(b, price);
    case SettleArrives(w) => ArrivalKeepsBooks(b, w);
    case StraySettle(price, w) => StrayKeepsBooks(b, price, w);
    case RelayNewEpoch => NewEpochKeepsBooks(b);
    case Deliver(i) => DeliveryKeepsBooks(b, i);
  }

  lemma WinnerIsNotTheSeller(s: State, w: nat)
    requires FirstSells(s) && w < |s.order| && Sits(s.peers, s.order[w], s.round.winnerSeat)
    ensures w != 0
  {
    assert s.peers[s.order[w]].role == Buyer;
  }

  lemma {:induction false} RunKeepsBooks(b: Books, es: seq<Event>, c: Books)
    requires BooksOk(b) && Reaches(b, es, c)
    ensures BooksOk(c)
    decreases |es|
  {
    if es == [] { return; }
    EventKeepsBooks(b, es[0]);
    RunKeepsBooks(Next(b, es[0]), es[1..], c);
  }

  lemma EmptyBooksOk()
    ensures BooksOk(Empty)
  {
    InitInv();
  }

  // ---- what the audit can rely on -------------------------------------------------

  /** Buyers positive, seller negative: the plain sum of what the tabs would report. */
  function Reported(nets: seq<real>): real {
    if nets == [] then 0.0 else
      var n := |nets| - 1;
      Reported(nets[..n]) + (if n == 0 then -nets[n] else nets[n])
  }

  function Nets(tabs: seq<Tab>): seq<real> { seq(|tabs|, i requires 0 <= i < |tabs| => tabs[i].net) }

  lemma {:induction false} QuietSum(tabs: seq<Tab>)
    requires forall i :: 0 <= i < |tabs| ==> tabs[i].inbox == []
    ensures Sum(tabs) == Reported(Nets(tabs))
  {
    if tabs == [] { return; }
    var n := |tabs| - 1;
    QuietSum(tabs[..n]);
    assert Nets(tabs)[..n] == Nets(tabs[..n]);
  }

  ghost predicate Quiet(b: Books) { b.pending == [] && forall i :: 0 <= i < |b.tabs| ==> b.tabs[i].inbox == [] }

  /**
   * After any run, over any number of epochs, once nothing is in flight: the reported positions sum to the
   * settles delivered without a booking minus the ones booked and refused. They balance exactly when those agree.
   */
  lemma BooksBalance(es: seq<Event>, c: Books)
    requires Reaches(Empty, es, c) && Quiet(c)
    ensures Reported(Nets(c.tabs)) == Total(c.unbooked) - Total(c.refused)
    ensures c.unbooked == [] && (forall i :: 0 <= i < |c.refused| ==> c.refused[i] > 0.0) ==>
      (Reported(Nets(c.tabs)) == 0.0 <==> c.refused == [])
  {
    EmptyBooksOk();
    RunKeepsBooks(Empty, es, c);
    QuietSum(c.tabs);
    if forall i :: 0 <= i < |c.refused| ==> c.refused[i] > 0.0 { TotalOfPositive(c.refused); }
  }

  lemma {:induction false} TotalOfPositive(prices: seq<real>)
    requires forall i :: 0 <= i < |prices| ==> prices[i] > 0.0
    ensures Total(prices) >= 0.0 && (Total(prices) == 0.0 <==> prices == [])
  {
    if prices != [] { TotalOfPositive(prices[..|prices| - 1]); }
  }

  lemma {:induction false} ReportedUpdate(nets: seq<real>, i: nat, x: real)
    requires i < |nets|
    ensures Reported(nets[i := x]) == Reported(nets) + (if i == 0 then nets[i] - x else x - nets[i])
  {
    var n := |nets| - 1;
    if i == n {
      assert nets[i := x][..n] == nets[..n];
    } else {
      assert nets[i := x][..n] == nets[..n][i := x];
      ReportedUpdate(nets[..n], i, x);
    }
  }

  /** One tab that misreports its position shifts the audit's sum by exactly that much. */
  lemma OneLiarIsVisible(es: seq<Event>, c: Books, liar: nat, claim: real)
    requires Reaches(Empty, es, c) && Quiet(c) && liar < |c.tabs|
    ensures var off := if liar == 0 then c.tabs[liar].net - claim else claim - c.tabs[liar].net;
      Reported(Nets(c.tabs)[liar := claim]) == Total(c.unbooked) - Total(c.refused) + off
    ensures Total(c.unbooked) == Total(c.refused) ==>
      (Reported(Nets(c.tabs)[liar := claim]) == 0.0 <==> claim == c.tabs[liar].net)
  {
    BooksBalance(es, c);
    ReportedUpdate(Nets(c.tabs), liar, claim);
  }

  // ---- which settles are refused ----------------------------------------------------------

  /** An open offer to a seat somebody sits in. */
  ghost predicate OfferStands(s: State) { s.round.winnerSeat >= 0 && SeatTaken(s.peers, s.round.winnerSeat) }

  /** A settle is served, by a tab other than the seller's, exactly while an offer stands. */
  lemma SettleIsServedIff(es: seq<Event>, c: Books)
    requires Reaches(Empty, es, c) && c.pending != []
    ensures OfferStands(c.relay) <==> !Enabled(c, SettleArrives(None))
    ensures OfferStands(c.relay) <==> exists w: nat :: w > 0 && Enabled(c, SettleArrives(Some(w)))
  {
    EmptyBooksOk();
    RunKeepsBooks(Empty, es, c);
    var s := c.relay;
    if OfferStands(s) {
      var id :| Sits(s.peers, id, s.round.winnerSeat);
      assert id in s.order;
      var w: nat :| w < |s.order| && s.order[w] == id;
      WinnerIsNotTheSeller(s, w);
      assert Enabled(c, SettleArrives(Some(w)));
    }
  }

  /** Operations that end or replace an open offer. */
  predicate Disturbs(op: Op) { op.Reset? || op.SetHour? || op.PublishKeys? || op.Offer? || op.Settle? || op.NewEpoch? }

  /** A standing offer falls to exactly these, unless it is replaced by an offer to a taken seat. */
  lemma OfferFallsIff(s: State, op: Op)
    requires RelayOk(s) && OfferStands(s) && !op.Leave? && Fresh(s, op)
    ensures OfferStands(Step(s, op)) <==> !Disturbs(op) || (op.Offer? && op.seat >= 0 && SeatTaken(s.peers, op.seat))
  {
    var t := Step(s, op);
    if op.Join? {
      var id :| Sits(s.peers, id, s.round.winnerSeat);
      assert Sits(t.peers, id, t.round.winnerSeat);
    } else {
      StepKeepsRoles(s, op);
      SameSeats(s.peers, t.peers, t.round.winnerSeat);
      OfferAfter(s, op);
    }
  }

  lemma SameSeats(p: Peers, q: Peers, seat: int)
    requires p.Keys == q.Keys && forall id :: id in p ==> q[id].role == p[id].role && q[id].seat == p[id].seat
    ensures SeatTaken(p, seat) <==> SeatTaken(q, seat)
  {
    if SeatTaken(p, seat) { var id :| Sits(p, id, seat); assert Sits(q, id, seat); }
    if SeatTaken(q, seat) { var id :| Sits(q, id, seat); assert Sits(p, id, seat); }
  }

  lemma OfferAfter(s: State, op: Op)
    requires !op.Join? && !op.Leave? && s.round.winnerSeat >= 0
    ensures Step(s, op).round.winnerSeat ==
      if op.Offer? then op.seat else if Disturbs(op) then -1 else s.round.winnerSeat
  {
    match op
    case SubmitBid(_, _, _) =>
    case _ =>
  }

  predicate Undisturbed(e: Event) {
    e.Connect? || e.SellerSettles? || e.Deliver? || (e.Relay? && !Disturbs(e.op))
  }

  /** From a standing offer, whatever else happens, a booked settle is served if nothing disturbed the offer. */
  lemma {:induction false} UndisturbedSettleIsServed(b: Books, es: seq<Event>, c: Books)
    requires BooksOk(b) && OfferStands(b.relay) && Reaches(b, es, c) && forall i :: 0 <= i < |es| ==> Undisturbed(es[i])
    ensures OfferStands(c.relay)
    decreases |es|
  {
    if es == [] { return; }
    var e := es[0];
    EventKeepsBooks(b, e);
    if e.Connect? { OfferFallsIff(b.relay, Join(e.id)); }
    if e.Relay? { OfferFallsIff(b.relay, e.op); }
    UndisturbedSettleIsServed(Next(b, e), es[1..], c);
  }

  // ---- a run whose books do not balance -----------------------------------------------------

  /** Any reset that overtakes a booked settle leaves its price out of the books. */
  lemma ResetOvertakes(b: Books)
    requires b.pending != [] && b.pending[0].counted
    ensures Enabled(b, Relay(Reset)) && Enabled(Next(b, Relay(Reset)), SettleArrives(None))
    ensures var c := Next(Next(b, Relay(Reset)), SettleArrives(None));
      && c.refused == b.refused + [b.pending[0].price] && c.pending == b.pending[1..]
      && c.tabs == b.tabs && c.unbooked == b.unbooked
  {}

  lemma {:induction false} OneMoreEvent(b: Books, es: seq<Event>, c: Books, e: Event)
    requires Reaches(b, es, c) && Enabled(c, e)
    ensures Reaches(b, es + [e], Next(c, e))
    decreases |es|
  {
    if es == [] {
      assert Reaches(Next(c, e), (es + [e])[1..], Next(c, e));
    } else {
      assert (es + [e])[1..] == es[1..] + [e];
      OneMoreEvent(Next(b, es[0]), es[1..], c, e);
    }
  }

  /** A seller and a buyer connect. */
  lemma TwoConnect() returns (es: seq<Event>, c: Books)
    ensures Reaches(Empty, es, c) && c.tabs == [Tab(0.0, []), Tab(0.0, [])] && c.pending == [] && c.refused == []
    ensures c.unbooked == [] && Sits(c.relay.peers, "p2", 0)
  {
    var b := Next(Empty, Connect("p1"));
    OneMoreEvent(Empty, [], Empty, Connect("p1"));
    assert WithRole(Empty.relay.peers, Seller) == {};
    assert b.relay.peers["p1"].role == Seller;
    assert "p1" in WithRole(b.relay.peers, Seller);
    assert Buyers(b.relay.peers) == {};
    OneMoreEvent(Empty, [] + [Connect("p1")], b, Connect("p2"));
    es, c := [] + [Connect("p1")] + [Connect("p2")], Next(b, Connect("p2"));
  }

  /** The seller offers to the buyer's seat and books. */
  lemma OfferAndBook() returns (es: seq<Event>, c: Books)
    ensures Reaches(Empty, es, c) && |c.tabs| == 2 && (forall i :: 0 <= i < 2 ==> c.tabs[i].inbox == [])
    ensures c.pending == [Booking(5.0, true)] && c.refused == [] && c.unbooked == [] && OfferStands(c.relay)
  {
    var b;
    es, b := TwoConnect();
    var offered := Next(b, Relay(Offer(0, 5.0)));
    OneMoreEvent(Empty, es, b, Relay(Offer(0, 5.0)));
    assert Sits(offered.relay.peers, "p2", 0);
    OneMoreEvent(Empty, es + [Relay(Offer(0, 5.0))], offered, SellerSettles(5.0));
    es, c := es + [Relay(Offer(0, 5.0))] + [SellerSettles(5.0)], Next(offered, SellerSettles(5.0));
  }

  /** Then, while somebody resets, the settle arrives: the books are out by the price. */
  lemma RefusalUnbalances() returns (es: seq<Event>, c: Books)
    ensures Reaches(Empty, es, c) && Quiet(c) && c.refused == [5.0] && Reported(Nets(c.tabs)) == -5.0
  {
    var start, booked := OfferAndBook();
    ResetOvertakes(booked);
    es, c := TwoMoreEvents(start, booked, Relay(Reset), SettleArrives(None));
    BooksBalance(es, c);
    OnePrice(5.0);
    assert c.refused == [5.0] && c.unbooked == [];
  }

  lemma TwoMoreEvents(start: seq<Event>, b: Books, e: Event, e': Event) returns (es: seq<Event>, c: Books)
    requires Reaches(Empty, start, b) && Enabled(b, e) && Enabled(Next(b, e), e')
    ensures Reaches(Empty, es, c) && c == Next(Next(b, e), e')
  {
    OneMoreEvent(Empty, start, b, e);
    OneMoreEvent(Empty, start + [e], Next(b, e), e');
    es, c := start + [e] + [e'], Next(Next(b, e), e');
  }

  lemma OnePrice(p: real)
    ensures Total([p]) == p && Total([]) == 0.0
  {
    TotalGrows([], p);
    assert [] + [p] == [p];
  }
}

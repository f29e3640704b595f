/** What whole runs of the relay promise about offers, trades and the N-of-N epoch audit. */
module EpochRuns {
  import opened Wrappers
  import opened Sequences
  import opened AuctionState
  import opened AuctionRuns

  // ---- offers and trades -------------------------------------------------------

  predicate Wins(s: State, op: Op) { op.Settle? && s.round.winnerSeat >= 0 }

  /** An offer that is open now, and was not open at the start, was made on the way. */
  lemma {:induction false} OpenOfferWasMade(s: State, ops: seq<Op>) returns (j: nat)
    requires s.round.winnerSeat < 0 <= Run(s, ops).round.winnerSeat
    ensures j < |ops| && ops[j] == Offer(Run(s, ops).round.winnerSeat, Run(s, ops).round.price)
  {
    var n := |ops| - 1;
    var front := ops[..n];
    if ops[n].Offer? { return n; }
    OfferIsKept(Run(s, front), ops[n]);
    j := OpenOfferWasMade(s, front);
  }

  lemma OfferIsKept(s: State, op: Op)
    requires !op.Offer? && Step(s, op).round.winnerSeat >= 0
    ensures s.round.winnerSeat == Step(s, op).round.winnerSeat && s.round.price == Step(s, op).round.price
  {
    match op
    case SubmitBid(_, _, _) =>
    case _ =>
  }

  lemma SettleConsumes(s: State, op: Op)
    requires Wins(s, op)
    ensures var t := Step(s, op);
      t.round.winnerSeat < 0 && |t.trades| == |s.trades| + 1 && t.trades[1..] == s.trades
      && t.trades[0].seat == s.round.winnerSeat && t.trades[0].price == s.round.price
      && t.trades[0].accepted == op.accepted && t.trades[0].slot == s.hour && t.trades[0].bidders == |s.round.bids|
  {}

  /** Between two settled trades there is an offer, and it is the one the second trade logs. */
  lemma EachTradeUsesItsOwnOffer(s: State, first: Op, between: seq<Op>, second: Op) returns (j: nat)
    requires Wins(s, first) && Wins(Run(Step(s, first), between), second)
    ensures j < |between| && between[j].Offer?
    ensures var trades := Step(Run(Step(s, first), between), second).trades;
      && trades != [] && between[j] == Offer(trades[0].seat, trades[0].price)
      && trades[0].accepted == second.accepted && trades[0].slot == Run(Step(s, first), between).hour
      && trades[1..] == Run(Step(s, first), between).trades
  {
    SettleConsumes(s, first);
    j := OpenOfferWasMade(Step(s, first), between);
    SettleConsumes(Run(Step(s, first), between), second);
  }

  /** Newest first, each trade clears the hour after the one before it. */
  ghost predicate SlotsFollow(s: State) {
    && (s.trades != [] ==> s.hour == (s.trades[0].slot + 1) % 24)
    && forall i :: 0 <= i < |s.trades| - 1 ==> s.trades[i].slot == (s.trades[i + 1].slot + 1) % 24
  }

  lemma {:induction false} RunKeepsSlots(s: State, ops: seq<Op>)
    requires SlotsFollow(s) && forall i :: 0 <= i < |ops| ==> !ops[i].SetHour?
    ensures SlotsFollow(Run(s, ops))
  {
    if ops == [] { return; }
    var n := |ops| - 1;
    RunKeepsSlots(s, ops[..n]);
    StepKeepsSlots(Run(s, ops[..n]), ops[n]);
  }

  lemma StepKeepsSlots(s: State, op: Op)
    requires SlotsFollow(s) && !op.SetHour?
    ensures SlotsFollow(Step(s, op))
  {
    if op.Settle? { SettleKeepsSlots(s, op.accepted); } else { OnlySettleTrades(s, op); }
  }

  lemma OnlySettleTrades(s: State, op: Op)
    requires !op.Settle? && !op.SetHour?
    ensures var t := Step(s, op); t.trades == [] || (t.trades == s.trades && t.hour == s.hour)
  {
    match op
    case Leave(_) =>
    case SubmitBid(_, _, _) =>
    case _ =>
  }

  lemma SettleKeepsSlots(s: State, accepted: bool)
    requires SlotsFollow(s)
    ensures SlotsFollow(AfterSettle(s, accepted))
  {
    if s.round.winnerSeat < 0 { return; }
    var t := AfterSettle(s, accepted);
    assert t.trades[0].slot == s.hour && t.trades[1..] == s.trades && t.hour == (s.hour + 1) % 24;
    forall i | 0 <= i < |t.trades| - 1 ensures t.trades[i].slot == (t.trades[i + 1].slot + 1) % 24 {
      assert t.trades[i + 1] == s.trades[i];
      if i > 0 { assert t.trades[i] == s.trades[i - 1]; }
    }
  }

  // ---- the audit ---------------------------------------------------------------

  /** The epoch is under audit throughout: before every operation and after the last. */
  ghost predicate InAudit(s: State, ops: seq<Op>) {
    forall i :: 0 <= i <= |ops| ==> Run(s, ops[..i]).epoch.phase == Audit
  }

  lemma InAuditPrefix(s: State, ops: seq<Op>, n: nat)
    requires InAudit(s, ops) && n <= |ops|
    ensures InAudit(s, ops[..n]) && Run(s, ops[..n]).epoch.phase == Audit
  {
    forall i | 0 <= i <= n ensures Run(s, ops[..n][..i]).epoch.phase == Audit {
      assert ops[..n][..i] == ops[..i];
    }
  }

  function Advances(ops: seq<Op>): nat {
    if ops == [] then 0
    else Advances(ops[..|ops| - 1]) + (if ops[|ops| - 1].AdvanceEpochChain? then 1 else 0)
  }

  /** The last total a participant sent. */
  function LastTotal(ops: seq<Op>, id: Id): Option<Blob> {
    if ops == [] then None else
      var op := ops[|ops| - 1];
      if op.SubmitEpochTotal? && op.id == id then Some(op.ct) else LastTotal(ops[..|ops| - 1], id)
  }

  function LastPartial(ops: seq<Op>, id: Id): Option<Blob> {
    if ops == [] then None else
      var op := ops[|ops| - 1];
      if op.SubmitEpochPartial? && op.id == id then Some(op.ct) else LastPartial(ops[..|ops| - 1], id)
  }

  function Lookup(m: map<Id, Blob>, id: Id): Option<Blob> { if id in m then Some(m[id]) else None }

  /** Starting an audit freezes the connected peers, each once, with nothing collected. */
  lemma StartFreezesParty(s: State)
    requires Inv(s) && s.epoch.phase != Audit
    ensures var e := Step(s, StartEpochChain).epoch;
      && e.phase == Audit && e.party == s.order && Distinct(e.party) && (forall id :: id in e.party <==> id in s.peers)
      && e.chainPos == 0 && e.totals == map[] && e.partials == map[]
      && Answer(s, StartEpochChain) == (if e.party == [] then Nobody else Next(e.party[0]))
  {}

  lemma AuditStep(s: State, op: Op)
    requires s.epoch.phase == Audit && Step(s, op).epoch.phase == Audit
    ensures var e, t := s.epoch, Step(s, op).epoch;
      && t.party == e.party
      && t.chainPos == e.chainPos + (if op.AdvanceEpochChain? then 1 else 0)
      && t.totals == (if op.SubmitEpochTotal? then e.totals[op.id := op.ct] else e.totals)
      && t.partials == (if op.SubmitEpochPartial? then e.partials[op.id := op.ct] else e.partials)
  {
    match op
    case Leave(_) =>
    case SubmitBid(_, _, _) =>
    case Settle(accepted) => SettleKeepsAudit(s, accepted);
    case _ =>
  }

  lemma SettleKeepsAudit(s: State, accepted: bool)
    requires s.epoch.phase == Audit
    ensures AfterSettle(s, accepted).epoch == s.epoch
  {}

  /** While the audit lasts its party is unchanged, and the chain moves once per contribution. */
  lemma {:induction false} AuditKeepsParty(s: State, ops: seq<Op>)
    requires InAudit(s, ops)
    ensures var e := Run(s, ops).epoch;
      e.party == s.epoch.party && e.chainPos == s.epoch.chainPos + Advances(ops)
  {
    if ops == [] { return; }
    var n := |ops| - 1;
    InAuditPrefix(s, ops, n);
    AuditKeepsParty(s, ops[..n]);
    assert ops[..n + 1] == ops;
    AuditStep(Run(s, ops[..n]), ops[n]);
  }

  /** ... and what has been collected is each sender's last submission, in the order they came. */
  lemma {:induction false} AuditCollects(s: State, ops: seq<Op>, id: Id)
    requires InAudit(s, ops) && s.epoch.totals == s.epoch.partials == map[]
    ensures var e := Run(s, ops).epoch;
      Lookup(e.totals, id) == LastTotal(ops, id) && Lookup(e.partials, id) == LastPartial(ops, id)
  {
    if ops == [] { return; }
    var n := |ops| - 1;
    InAuditPrefix(s, ops, n);
    AuditCollects(s, ops[..n], id);
    assert ops[..n + 1] == ops;
    AuditStep(Run(s, ops[..n]), ops[n]);
  }

  /** The party is also still fully connected. */
  lemma AuditPartyConnected(s: State, ops: seq<Op>)
    requires Inv(s) && Possible(s, ops) && InAudit(s, ops)
    ensures var t := Run(s, ops);
      t.epoch.party == s.epoch.party && Distinct(t.epoch.party) && forall id :: id in t.epoch.party ==> id in t.peers
  {
    AuditKeepsParty(s, ops);
    RunKeepsInv(s, ops);
    assert ops[..|ops|] == ops;
  }

  /**
   * Interleaved with anything else, the chain visits the frozen party once each in order: the k-th
   * contribution is answered with party member k, and with "done" from the n-th on.
   */
  lemma ChainVisitsParty(s: State, ops: seq<Op>, pk: Blob)
    requires InAudit(s, ops) && s.epoch.chainPos == 0
    ensures var k, party := Advances(ops) + 1, s.epoch.party;
      Answer(Run(s, ops), AdvanceEpochChain(pk)) == if k < |party| then Next(party[k]) else ChainDone
  {
    AuditKeepsParty(s, ops);
    ChainAnswer(Run(s, ops), AdvanceEpochChain(pk));
  }

  lemma ChainAnswer(s: State, op: Op)
    requires op.AdvanceEpochChain?
    ensures var k, party := s.epoch.chainPos + 1, s.epoch.party;
      Answer(s, op) == if k < |party| then Next(party[k]) else ChainDone
  {}

  lemma {:induction false} PartyOrderFull(party: seq<Id>, m: map<Id, Blob>)
    requires forall i :: 0 <= i < |party| ==> party[i] in m
    ensures |InPartyOrder(party, m)| == |party|
    ensures forall i :: 0 <= i < |party| ==> InPartyOrder(party, m)[i] == m[party[i]]
  {
    if party != [] { PartyOrderFull(party[..|party| - 1], m); }
  }

  /** The list holds this frozen party's last submissions, one each, in party order. */
  ghost predicate OneEach(party: seq<Id>, list: seq<Blob>, last: Id -> Option<Blob>) {
    |list| == |party| && forall i :: 0 <= i < |party| ==> last(party[i]) == Some(list[i])
  }

  lemma CollectedMeans(party: seq<Id>, m: map<Id, Blob>, last: Id -> Option<Blob>)
    requires forall id :: Lookup(m, id) == last(id)
    ensures HaveAll(party, m) <==> party != [] && forall i :: 0 <= i < |party| ==> last(party[i]).Some?
    ensures HaveAll(party, m) ==> OneEach(party, InPartyOrder(party, m), last)
  {
    forall i | 0 <= i < |party| ensures party[i] in m <==> last(party[i]).Some? {
      assert Lookup(m, party[i]) == last(party[i]);
    }
    if HaveAll(party, m) {
      PartyOrderFull(party, m);
      forall i | 0 <= i < |party| ensures last(party[i]) == Some(InPartyOrder(party, m)[i]) {
        assert Lookup(m, party[i]) == last(party[i]);
      }
    }
  }

  /**
   * The relay reports the totals complete exactly when every frozen party has sent one, and then the
   * list to be summed holds one entry per party in party order, whatever outsiders sent.
   */
  lemma TotalsComplete(s: State, ops: seq<Op>, id: Id, ct: Blob)
    requires InAudit(s, ops + [SubmitEpochTotal(id, ct)]) && s.epoch.totals == s.epoch.partials == map[]
    ensures var all, party := ops + [SubmitEpochTotal(id, ct)], s.epoch.party;
      var last := x => LastTotal(all, x);
      && (Answer(Run(s, ops), SubmitEpochTotal(id, ct)) == Collected(true) <==>
            party != [] && forall i :: 0 <= i < |party| ==> last(party[i]).Some?)
      && (Answer(Run(s, ops), SubmitEpochTotal(id, ct)) == Collected(true) ==>
            OneEach(party, InPartyOrder(party, Run(s, all).epoch.totals), last))
  {
    var op := SubmitEpochTotal(id, ct);
    var all := ops + [op];
    assert all[..|ops|] == ops;
    InAuditPrefix(s, all, |ops|);
    AuditKeepsParty(s, all);
    forall x ensures Lookup(Run(s, all).epoch.totals, x) == LastTotal(all, x) { AuditCollects(s, all, x); }
    CollectedMeans(s.epoch.party, Run(s, all).epoch.totals, x => LastTotal(all, x));
  }

  lemma PartialsComplete(s: State, ops: seq<Op>, id: Id, ct: Blob)
    requires InAudit(s, ops + [SubmitEpochPartial(id, ct)]) && s.epoch.totals == s.epoch.partials == map[]
    ensures var all, party := ops + [SubmitEpochPartial(id, ct)], s.epoch.party;
      var last := x => LastPartial(all, x);
      && (Answer(Run(s, ops), SubmitEpochPartial(id, ct)) == Collected(true) <==>
            party != [] && forall i :: 0 <= i < |party| ==> last(party[i]).Some?)
      && (Answer(Run(s, ops), SubmitEpochPartial(id, ct)) == Collected(true) ==>
            OneEach(party, InPartyOrder(party, Run(s, all).epoch.partials), last))
  {
    var op := SubmitEpochPartial(id, ct);
    var all := ops + [op];
    assert all[..|ops|] == ops;
    InAuditPrefix(s, all, |ops|);
    AuditKeepsParty(s, all);
    forall x ensures Lookup(Run(s, all).epoch.partials, x) == LastPartial(all, x) { AuditCollects(s, all, x); }
    CollectedMeans(s.epoch.party, Run(s, all).epoch.partials, x => LastPartial(all, x));
  }

  /**
   * A share is taken in any phase, also after the audit is closed. In every state the reply is "complete" exactly
   * when each frozen party has a share in the table, and the list handed out then holds one from each.
   */
  lemma PartialsReported(s: State, id: Id, ct: Blob)
    ensures var t := Step(s, SubmitEpochPartial(id, ct));
      var held := x => Lookup(t.epoch.partials, x);
      && (Answer(s, SubmitEpochPartial(id, ct)) == Collected(true) <==>
            t.epoch.party != [] && forall i :: 0 <= i < |t.epoch.party| ==> held(t.epoch.party[i]).Some?)
      && (Answer(s, SubmitEpochPartial(id, ct)) == Collected(true) ==>
            OneEach(t.epoch.party, InPartyOrder(t.epoch.party, t.epoch.partials), held))
  {
    var t := Step(s, SubmitEpochPartial(id, ct));
    CollectedMeans(t.epoch.party, t.epoch.partials, x => Lookup(t.epoch.partials, x));
  }

  /** ... and every share in the table was sent by the party it is listed under. */
  lemma {:induction false} PartialsWereSubmitted(ops: seq<Op>, x: Id) returns (i: nat)
    requires x in Run(Init, ops).epoch.partials
    ensures i < |ops| && ops[i] == SubmitEpochPartial(x, Run(Init, ops).epoch.partials[x])
    decreases |ops|
  {
    var n := |ops| - 1;
    var before := Run(Init, ops[..n]);
    if ops[n].SubmitEpochPartial? && ops[n].id == x { return n; }
    PartialsComeFrom(before, ops[n], x);
    i := PartialsWereSubmitted(ops[..n], x);
  }

  lemma PartialsComeFrom(s: State, op: Op, x: Id)
    requires x in Step(s, op).epoch.partials && !(op.SubmitEpochPartial? && op.id == x)
    ensures x in s.epoch.partials && Step(s, op).epoch.partials[x] == s.epoch.partials[x]
  {
    match op
    case Leave(_) =>
    case SubmitBid(_, _, _) =>
    case _ =>
  }

  // ---- aborts ------------------------------------------------------------------

  /** A departing party ends the audit and empties it. */
  lemma DepartureAborts(s: State, id: Id)
    requires s.epoch.phase == Audit && id in s.epoch.party
    ensures var e := Step(s, Leave(id)).epoch;
      e.phase == Ready && e.party == [] && e.totals == map[] && e.partials == map[] && e.aborted
  {}

  lemma NothingCompletes(s: State, op: Op)
    requires s.epoch.party == [] && !op.StartEpochChain?
    ensures Step(s, op).epoch.party == [] && Answer(s, op) != Collected(true)
  {
    match op
    case Leave(_) =>
    case _ =>
  }

  /** Without a frozen party nothing is ever reported complete until an audit is started again. */
  lemma {:induction false} NothingCompletesUntilRestart(s: State, ops: seq<Op>, op: Op)
    requires s.epoch.party == [] && !op.StartEpochChain? && forall i :: 0 <= i < |ops| ==> !ops[i].StartEpochChain?
    ensures Run(s, ops).epoch.party == [] && Answer(Run(s, ops), op) != Collected(true)
    decreases |ops|
  {
    if ops != [] {
      var n := |ops| - 1;
      NothingCompletesUntilRestart(s, ops[..n], ops[n]);
      NothingCompletes(Run(s, ops[..n]), ops[n]);
    }
    NothingCompletes(Run(s, ops), op);
  }

  // ---- when an epoch is ready ---------------------------------------------------------

  /** An epoch is ready for its audit only with five trades, or again after an audit broke off. */
  lemma {:induction false} ReadyOnlyAtFive(ops: seq<Op>)
    ensures var s := Run(Init, ops); s.epoch.phase == Ready ==> |s.trades| >= 5 || s.epoch.aborted
    ensures var s := Run(Init, ops); s.epoch.phase == Open ==> |s.trades| < 5 && !s.epoch.aborted
    decreases |ops|
  {
    if ops != [] {
      ReadyOnlyAtFive(ops[..|ops| - 1]);
      ReadyStep(Run(Init, ops[..|ops| - 1]), ops[|ops| - 1]);
    }
  }

  ghost predicate ReadyOk(s: State) {
    && (s.epoch.phase == Ready ==> |s.trades| >= 5 || s.epoch.aborted)
    && (s.epoch.phase == Open ==> |s.trades| < 5 && !s.epoch.aborted)
  }

  lemma ReadyStep(s: State, op: Op)
    requires ReadyOk(s)
    ensures ReadyOk(Step(s, op))
  {
    match op
    case Settle(_) =>
    case Leave(_) =>
    case SubmitBid(_, _, _) =>
    case _ =>
  }
}

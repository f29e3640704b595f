/** The plaintext uniform-price clearing of pkg/ares/pool/clearing.go. */
module Clearing {
  import opened Wrappers
  import opened Reals
  import opened Grid

  const NoClearing := -1

  datatype SlotResult = SlotResult(
    bucket: int, price: real,
    supply: real, supplyPrev: real, demand: real, cleared: real,
    marginal: real, infra: real)

  const Nothing := SlotResult(NoClearing, 0.0, 0.0, 0.0, 0.0, 0.0, 0.0, 0.0)

  // ---- one slot -------------------------------------------------------------

  predicate Packed(g: GridSpec, supply: seq<real>, demand: seq<real>) {
    g.Valid() && |supply| == g.Len() && |demand| == g.Len()
  }

  /** Reading a packed vector; positions outside it read as 0. */
  function At(v: seq<real>, i: int): real { if 0 <= i < |v| then v[i] else 0.0 }

  predicate Crosses(g: GridSpec, supply: seq<real>, demand: seq<real>, slot: int, k: int) {
    1 <= k < g.buckets && At(supply, g.Index(slot, k)) >= At(demand, g.Index(slot, k))
  }

  /** The first bucket at or above `from` where supply meets demand, if any. */
  function CrossingFrom(g: GridSpec, supply: seq<real>, demand: seq<real>, slot: int, from: int): (k: int)
    requires 1 <= from
    ensures k == NoClearing <==> forall j :: from <= j < g.buckets ==> !Crosses(g, supply, demand, slot, j)
    ensures k != NoClearing ==> k >= from && Crosses(g, supply, demand, slot, k)
    ensures k != NoClearing ==> forall j :: from <= j < k ==> !Crosses(g, supply, demand, slot, j)
    decreases g.buckets - from
  {
    if from >= g.buckets then NoClearing
    else if Crosses(g, supply, demand, slot, from) then from
    else CrossingFrom(g, supply, demand, slot, from + 1)
  }

  /** The aggregates a slot would report at bucket k, before allocation. */
  function Reading(g: GridSpec, supply: seq<real>, demand: seq<real>, slot: int, k: int): SlotResult {
    SlotResult(k, g.Price(k), At(supply, g.Index(slot, k)), At(supply, g.Index(slot, k - 1)),
               At(demand, g.Index(slot, k)), 0.0, 0.0, 0.0)
  }

  /** The clearing of one slot, stated without a loop: bucket 0 is a guard and never clears. */
  function SlotOutcome(g: GridSpec, supply: seq<real>, demand: seq<real>, slot: int): SlotResult {
    var k := CrossingFrom(g, supply, demand, slot, 1);
    if k == NoClearing then Nothing else DeriveAllocation(Reading(g, supply, demand, slot, k))
  }

  /** Fills in the traded quantity and the two rationing ratios, or reports no clearing. */
  function DeriveAllocation(res: SlotResult): SlotResult {
    var cleared := Min(res.supply, res.demand);
    if cleared <= 0.0 then Nothing else
      var infra := if res.supplyPrev > cleared && res.supplyPrev > 0.0 then cleared / res.supplyPrev else 1.0;
      var tranche := res.supply - res.supplyPrev;
      var marginal :=
        if tranche > 0.0 then Min(Max((cleared - res.supplyPrev) / tranche, 0.0), 1.0) else res.marginal;
      res.(cleared := cleared, infra := infra, marginal := marginal)
  }

  method ClearSlot(g: GridSpec, supply: seq<real>, demand: seq<real>, slot: int) returns (res: SlotResult)
    requires Packed(g, supply, demand) && 0 <= slot < g.slots
    ensures res == SlotOutcome(g, supply, demand, slot)
  {
    res := Nothing;
    for k := 1 to g.buckets
      invariant res == Nothing
      invariant CrossingFrom(g, supply, demand, slot, 1) == CrossingFrom(g, supply, demand, slot, k)
    {
      IndexInRange(g, slot, k);
      var i := g.Index(slot, k);
      if supply[i] - demand[i] < 0.0 { continue; }
      res := SlotResult(k, g.Price(k), supply[i], 0.0, demand[i], 0.0, 0.0, 0.0);
      if k > 0 { res := res.(supplyPrev := supply[g.Index(slot, k - 1)]); }
      break;
    }
    if res.bucket == NoClearing { return; }
    res := DeriveAllocation(res);
  }

  method ClearPlaintext(g: GridSpec, supply: seq<real>, demand: seq<real>)
    returns (r: Result<seq<SlotResult>, PoolError>)
    ensures r.Ok? <==> Packed(g, supply, demand)
    ensures r.Ok? ==> |r.value| == g.slots
    ensures r.Ok? ==> forall s :: 0 <= s < g.slots ==> r.value[s] == SlotOutcome(g, supply, demand, s)
  {
    if !g.Valid() { return Err(BadGrid); }
    if |supply| != g.Len() { return Err(BadLength); }
    if |demand| != g.Len() { return Err(BadLength); }
    var out := [];
    for slot := 0 to g.slots
      invariant |out| == slot
      invariant forall s :: 0 <= s < slot ==> out[s] == SlotOutcome(g, supply, demand, s)
    {
      var res := ClearSlot(g, supply, demand, slot);
      out := out + [res];
    }
    return Ok(out);
  }

  // ---- what a clearing promises ---------------------------------------------

  /** Supply never falls and demand never rises with the price; neither is negative. */
  ghost predicate Monotone(g: GridSpec, supply: seq<real>, demand: seq<real>, slot: int) {
    forall k, k' :: 0 <= k <= k' < g.buckets ==>
      && 0.0 <= At(supply, g.Index(slot, k)) <= At(supply, g.Index(slot, k'))
      && At(demand, g.Index(slot, k)) >= At(demand, g.Index(slot, k')) >= 0.0
  }

  lemma EncodedCurvesAreMonotone(g: GridSpec, sells: seq<Offer>, buys: seq<Offer>,
                                 supply: seq<real>, demand: seq<real>, slot: int)
    requires g.Valid() && OffersOk(g, sells) && OffersOk(g, buys) && 0 <= slot < g.slots
    requires IsSupplyCurve(g, sells, supply) && IsDemandCurve(g, buys, demand)
    ensures Monotone(g, supply, demand, slot)
  {
    forall k, k' | 0 <= k <= k' < g.buckets
      ensures 0.0 <= At(supply, g.Index(slot, k)) <= At(supply, g.Index(slot, k'))
      ensures At(demand, g.Index(slot, k)) >= At(demand, g.Index(slot, k')) >= 0.0
    {
      IndexInRange(g, slot, k); IndexInRange(g, slot, k');
      IndexUnpack(g, slot, k); IndexUnpack(g, slot, k');
      SupplyMonotone(g, sells, slot, k, k');
      DemandMonotone(g, buys, slot, k, k');
    }
  }

  /** There is one crossing: supply meets demand from it on and nowhere before it. */
  lemma CrossingIsUnique(g: GridSpec, supply: seq<real>, demand: seq<real>, slot: int, k: int)
    requires Monotone(g, supply, demand, slot) && 1 <= k < g.buckets
    ensures var c := CrossingFrom(g, supply, demand, slot, 1);
      Crosses(g, supply, demand, slot, k) <==> c != NoClearing && c <= k
  {
    var c := CrossingFrom(g, supply, demand, slot, 1);
    if c != NoClearing && c <= k {
      assert At(supply, g.Index(slot, c)) <= At(supply, g.Index(slot, k));
      assert At(demand, g.Index(slot, c)) >= At(demand, g.Index(slot, k));
    }
  }

  /** What a trader may rely on: everything demanded is dispatched, cheaper sellers first. */
  ghost predicate SharesOut(r: SlotResult) {
    && r.cleared == r.demand > 0.0
    && r.infra * r.supplyPrev + r.marginal * (r.supply - r.supplyPrev) == r.cleared
    && 0.0 < r.infra <= 1.0 && 0.0 <= r.marginal <= 1.0
    && (r.marginal > 0.0 ==> r.infra == 1.0)
  }

  /** The rationing arithmetic on its own. */
  lemma RatiosShareOut(res: SlotResult)
    requires 0.0 <= res.supplyPrev <= res.supply && 0.0 < res.demand <= res.supply && res.marginal == 0.0
    ensures SharesOut(DeriveAllocation(res))
  {
    var c, p, t := res.demand, res.supplyPrev, res.supply - res.supplyPrev;
    if p > c {
      Quotient(c, p);
      if t > 0.0 { QuotientSign(c - p, t); }
    } else if t > 0.0 {
      Quotient(c - p, t);
    }
  }

  lemma Quotient(a: real, b: real)
    requires b > 0.0 && 0.0 <= a <= b
    ensures (a / b) * b == a && 0.0 <= a / b <= 1.0 && (a > 0.0 ==> a / b > 0.0)
  {}

  lemma QuotientSign(a: real, b: real)
    requires b > 0.0 && a < 0.0
    ensures a / b < 0.0
  {}

  /** The quantity that could change hands at bucket k. */
  function Tradable(g: GridSpec, supply: seq<real>, demand: seq<real>, slot: int, k: int): real {
    Min(At(supply, g.Index(slot, k)), At(demand, g.Index(slot, k)))
  }

  /**
   * A clearing dispatches exactly the demand at its price, and rations the marginal tranche
   * only once cheaper sellers are served in full.
   */
  lemma ClearingIsExact(g: GridSpec, supply: seq<real>, demand: seq<real>, slot: int)
    requires Monotone(g, supply, demand, slot)
    ensures var r := SlotOutcome(g, supply, demand, slot);
      r.bucket != NoClearing ==>
        && r.bucket == CrossingFrom(g, supply, demand, slot, 1)
        && r.(cleared := 0.0, infra := 0.0, marginal := 0.0) == Reading(g, supply, demand, slot, r.bucket)
        && SharesOut(r)
  {
    var c := CrossingFrom(g, supply, demand, slot, 1);
    if SlotOutcome(g, supply, demand, slot).bucket == NoClearing { return; }
    var raw := Reading(g, supply, demand, slot, c);
    assert 0.0 <= raw.supplyPrev <= raw.supply by {
      assert 0 <= c - 1 <= c < g.buckets;
    }
    RatiosShareOut(raw);
  }

  /**
   * What clears, in terms of the offers: all that is wanted at the price, out of what is on sale at it, and what is
   * on sale one bucket lower is served first.
   */
  lemma ClearingServesOffers(g: GridSpec, sells: seq<Offer>, buys: seq<Offer>, supply: seq<real>, demand: seq<real>, slot: int)
    requires g.Valid() && OffersOk(g, sells) && OffersOk(g, buys) && 0 <= slot < g.slots
    requires IsSupplyCurve(g, sells, supply) && IsDemandCurve(g, buys, demand)
    ensures var r := SlotOutcome(g, supply, demand, slot); r.bucket != NoClearing ==> Serves(g, sells, buys, slot, r)
  {
    var r := SlotOutcome(g, supply, demand, slot);
    if r.bucket == NoClearing { return; }
    CurvesRead(g, sells, buys, supply, demand, slot, r.bucket);
    OutcomeReads(g, supply, demand, slot);
  }

  ghost predicate Serves(g: GridSpec, sells: seq<Offer>, buys: seq<Offer>, slot: int, r: SlotResult) {
    && 1 <= r.bucket < g.buckets && r.price == g.tick * r.bucket as real
    && r.cleared == r.demand == DemandQty(g, buys, slot, r.bucket) > 0.0
    && r.supply == SupplyQty(g, sells, slot, r.bucket) >= r.cleared
    && r.supplyPrev == SupplyQty(g, sells, slot, r.bucket - 1)
  }

  lemma OutcomeReads(g: GridSpec, supply: seq<real>, demand: seq<real>, slot: int)
    ensures var r := SlotOutcome(g, supply, demand, slot);
      r.bucket != NoClearing ==>
        && 1 <= r.bucket < g.buckets && r.price == g.tick * r.bucket as real
        && r.cleared == r.demand == At(demand, g.Index(slot, r.bucket)) > 0.0
        && r.supply == At(supply, g.Index(slot, r.bucket)) >= r.cleared
        && r.supplyPrev == At(supply, g.Index(slot, r.bucket - 1))
  {}

  lemma CurvesRead(g: GridSpec, sells: seq<Offer>, buys: seq<Offer>, supply: seq<real>, demand: seq<real>, slot: int, k: int)
    requires g.Valid() && 0 <= slot < g.slots && IsSupplyCurve(g, sells, supply) && IsDemandCurve(g, buys, demand)
    ensures 0 <= k < g.buckets ==> At(supply, g.Index(slot, k)) == SupplyQty(g, sells, slot, k)
    ensures 0 <= k < g.buckets ==> At(demand, g.Index(slot, k)) == DemandQty(g, buys, slot, k)
    ensures 1 <= k < g.buckets ==> At(supply, g.Index(slot, k - 1)) == SupplyQty(g, sells, slot, k - 1)
  {
    if 0 <= k < g.buckets { IndexInRange(g, slot, k); IndexUnpack(g, slot, k); }
    if 1 <= k < g.buckets { IndexInRange(g, slot, k - 1); IndexUnpack(g, slot, k - 1); }
  }

  /** No other bucket trades more than what was cleared or what was on sale just below. */
  lemma NoBucketTradesMore(g: GridSpec, supply: seq<real>, demand: seq<real>, slot: int, k: int)
    requires Monotone(g, supply, demand, slot) && 1 <= k < g.buckets
    ensures var r := SlotOutcome(g, supply, demand, slot);
      r.bucket != NoClearing ==> Tradable(g, supply, demand, slot, k) <= Max(r.cleared, r.supplyPrev)
  {
    var c := CrossingFrom(g, supply, demand, slot, 1);
    if SlotOutcome(g, supply, demand, slot).bucket == NoClearing { return; }
    ClearingIsExact(g, supply, demand, slot);
    if k < c {
      assert At(supply, g.Index(slot, k)) <= At(supply, g.Index(slot, c - 1));
    } else {
      assert At(demand, g.Index(slot, k)) <= At(demand, g.Index(slot, c));
    }
  }

  /** One past the last bucket where demand still exceeds supply. */
  function Edge(g: GridSpec, supply: seq<real>, demand: seq<real>, slot: int): int {
    var c := CrossingFrom(g, supply, demand, slot, 1);
    if c == NoClearing then g.buckets else c
  }

  /**
   * When the pool reports no clearing, nothing at or above the crossing can trade; and nothing
   * at all can trade exactly when the bucket below the crossing has no supply.
   */
  lemma NoClearingMeans(g: GridSpec, supply: seq<real>, demand: seq<real>, slot: int)
    requires Monotone(g, supply, demand, slot)
    ensures SlotOutcome(g, supply, demand, slot).bucket == NoClearing ==>
      var e := Edge(g, supply, demand, slot);
      && (forall k :: 1 <= k < g.buckets && k >= e ==> Tradable(g, supply, demand, slot, k) <= 0.0)
      && ((forall k :: 1 <= k < g.buckets ==> Tradable(g, supply, demand, slot, k) <= 0.0)
          <==> e <= 1 || At(supply, g.Index(slot, e - 1)) == 0.0)
  {
    var c := CrossingFrom(g, supply, demand, slot, 1);
    var e := Edge(g, supply, demand, slot);
    if SlotOutcome(g, supply, demand, slot).bucket != NoClearing { return; }
    forall k | 1 <= k < g.buckets && k >= e ensures Tradable(g, supply, demand, slot, k) <= 0.0 {
      assert At(demand, g.Index(slot, c)) <= 0.0;
      assert At(demand, g.Index(slot, k)) <= At(demand, g.Index(slot, c));
    }
    forall k | 1 <= k < e
      ensures Tradable(g, supply, demand, slot, k) == At(supply, g.Index(slot, k)) <= At(supply, g.Index(slot, e - 1))
    {
      assert !Crosses(g, supply, demand, slot, k);
    }
    if e > 1 && At(supply, g.Index(slot, e - 1)) != 0.0 {
      assert At(supply, g.Index(slot, e - 1)) >= 0.0;
      assert Tradable(g, supply, demand, slot, e - 1) > 0.0;
    }
  }

  /** A slot that reports no clearing although five units could trade one bucket lower. */
  lemma NoClearingCanMissATrade()
    ensures exists g, s, d ::
      && Packed(g, s, d) && Monotone(g, s, d, 0)
      && SlotOutcome(g, s, d, 0).bucket == NoClearing && Tradable(g, s, d, 0, 1) == 5.0
  {
    var g, s, d := GridSpec(1.0, 3, 1), [5.0, 5.0, 5.0], [10.0, 10.0, 0.0];
    MissedTrade(g, s, d);
    assert Packed(g, s, d);
  }

  lemma MissedTrade(g: GridSpec, s: seq<real>, d: seq<real>)
    requires g.buckets == 3 && |s| >= 3 && |d| >= 3
    requires s[0] == s[1] == s[2] == 5.0 && d[0] == d[1] == 10.0 && d[2] == 0.0
    ensures Monotone(g, s, d, 0) && SlotOutcome(g, s, d, 0) == Nothing && Tradable(g, s, d, 0, 1) == 5.0
  {
    assert g.Index(0, 0) == 0 && g.Index(0, 1) == 1 && g.Index(0, 2) == 2;
    assert !Crosses(g, s, d, 0, 1) && Crosses(g, s, d, 0, 2);
    assert CrossingFrom(g, s, d, 0, 1) == 2;
    assert Reading(g, s, d, 0, 2).demand == 0.0;
  }

  // ---- the split among participants -----------------------------------------

  ghost function SupplyCurves(g: GridSpec, parts: seq<seq<Offer>>): seq<real>
    requires g.Valid()
  {
    seq(g.Len(), i requires 0 <= i => AggregateSupply(g, parts, i / g.buckets, i % g.buckets))
  }
  ghost function DemandCurves(g: GridSpec, parts: seq<seq<Offer>>): seq<real>
    requires g.Valid()
  {
    seq(g.Len(), i requires 0 <= i => AggregateDemand(g, parts, i / g.buckets, i % g.buckets))
  }

  /** Summing the participants' encoded vectors gives the aggregate curve. */
  lemma AggregateOneMore(g: GridSpec, parts: seq<seq<Offer>>, own: seq<Offer>, s: seq<real>, d: seq<real>)
    requires g.Valid() && IsSupplyCurve(g, own, s) && IsDemandCurve(g, own, d)
    ensures Add(SupplyCurves(g, parts), s) == SupplyCurves(g, parts + [own])
    ensures Add(DemandCurves(g, parts), d) == DemandCurves(g, parts + [own])
  {
    assert (parts + [own])[..|parts|] == parts;
  }

  /** The clearing depends on the offers, not on which participants hold them. */
  lemma ClearingIgnoresSplit(g: GridSpec, sells: seq<seq<Offer>>, sells': seq<seq<Offer>>,
                             buys: seq<seq<Offer>>, buys': seq<seq<Offer>>, slot: int)
    requires g.Valid()
    requires multiset(Flatten(sells)) == multiset(Flatten(sells'))
    requires multiset(Flatten(buys)) == multiset(Flatten(buys'))
    ensures SlotOutcome(g, SupplyCurves(g, sells), DemandCurves(g, buys), slot)
         == SlotOutcome(g, SupplyCurves(g, sells'), DemandCurves(g, buys'), slot)
  {
    forall i | 0 <= i < g.Len()
      ensures SupplyCurves(g, sells)[i] == SupplyCurves(g, sells')[i]
      ensures DemandCurves(g, buys)[i] == DemandCurves(g, buys')[i]
    {
      SplitDoesNotMatter(g, sells, sells', i / g.buckets, i % g.buckets);
      SplitDoesNotMatter(g, buys, buys', i / g.buckets, i % g.buckets);
    }
    assert SupplyCurves(g, sells) == SupplyCurves(g, sells');
    assert DemandCurves(g, buys) == DemandCurves(g, buys');
  }
}

/** The public price grid and the packed step curves of pkg/ares/pool/grid.go. */
module Grid {
  import opened Wrappers
  import opened Sequences

  /** Absorbs float noise when a price is mapped onto a bucket boundary. */
  const TickEpsilon: real := 0.000000001

  /** Layout is price-minor: a rotation by one position moves along the price axis. */
  datatype GridSpec = GridSpec(tick: real, buckets: int, slots: int) {
    predicate Valid() { tick > 0.0 && buckets > 0 && slots > 0 }
    function Price(bucket: int): real { tick * (bucket as real) }
    function Len(): int { slots * buckets }
    function Index(slot: int, bucket: int): int { slot * buckets + bucket }
    predicate InRange(slot: int, bucket: int) { 0 <= slot < slots && 0 <= bucket < buckets }
  }

  /** A seller's lowest acceptable price, or a buyer's highest, for one delivery slot. */
  datatype Offer = Offer(slot: int, price: real, quantity: real)

  datatype PoolError = BadGrid | BadOffer(index: nat) | BadLength | MissingInput | BadScale

  predicate OfferOk(g: GridSpec, o: Offer) { 0 <= o.slot < g.slots && o.quantity >= 0.0 }
  predicate OffersOk(g: GridSpec, offers: seq<Offer>) { forall i :: 0 <= i < |offers| ==> OfferOk(g, offers[i]) }

  // ---- packing -------------------------------------------------------------

  lemma IndexInRange(g: GridSpec, slot: int, k: int)
    requires g.Valid() && g.InRange(slot, k)
    ensures 0 <= g.Index(slot, k) < g.Len()
    ensures k > 0 ==> g.Index(slot, k) > 0 && g.Index(slot, k) - 1 == g.Index(slot, k - 1)
  {
    assert slot * g.buckets >= 0;
    assert (slot + 1) * g.buckets <= g.slots * g.buckets;
  }

  /** Packing loses nothing: the pair can be read back from the position. */
  lemma IndexUnpack(g: GridSpec, slot: int, k: int)
    requires g.Valid() && g.InRange(slot, k)
    ensures g.Index(slot, k) / g.buckets == slot && g.Index(slot, k) % g.buckets == k
  {
    var i, n := g.Index(slot, k), g.buckets;
    assert i == (i / n) * n + i % n;
    WholeMultiples(i / n - slot, n);
    assert (i / n - slot) * n == k - i % n;
  }

  /** ... and every position is some pair. */
  lemma IndexOnto(g: GridSpec, i: int)
    requires g.Valid() && 0 <= i < g.Len()
    ensures g.InRange(i / g.buckets, i % g.buckets)
    ensures g.Index(i / g.buckets, i % g.buckets) == i
  {
    var n := g.buckets;
    assert i == (i / n) * n + i % n;
    WholeMultiples(i / n - g.slots + 1, n);
    assert (i / n - g.slots + 1) * n == (i / n) * n - g.slots * n + n;
  }

  // ---- reference curves ----------------------------------------------------

  /** Does this sell offer stand at bucket k? The bid may exceed the bucket price by the tolerance. */
  predicate Sells(g: GridSpec, o: Offer, slot: int, k: int) {
    o.slot == slot && o.price <= g.tick * (k as real + TickEpsilon)
  }

  /** Does this buy offer stand at bucket k? */
  predicate Buys(g: GridSpec, o: Offer, slot: int, k: int) {
    o.slot == slot && o.price >= g.tick * (k as real - TickEpsilon)
  }

  function SupplyQty(g: GridSpec, offers: seq<Offer>, slot: int, k: int): real {
    if |offers| == 0 then 0.0 else
      var o := offers[|offers| - 1];
      SupplyQty(g, offers[..|offers| - 1], slot, k) + (if Sells(g, o, slot, k) then o.quantity else 0.0)
  }

  function DemandQty(g: GridSpec, offers: seq<Offer>, slot: int, k: int): real {
    if |offers| == 0 then 0.0 else
      var o := offers[|offers| - 1];
      DemandQty(g, offers[..|offers| - 1], slot, k) + (if Buys(g, o, slot, k) then o.quantity else 0.0)
  }

  ghost predicate IsSupplyCurve(g: GridSpec, offers: seq<Offer>, v: seq<real>) {
    |v| == g.Len() && forall i :: 0 <= i < |v| ==> v[i] == SupplyQty(g, offers, i / g.buckets, i % g.buckets)
  }
  ghost predicate IsDemandCurve(g: GridSpec, offers: seq<Offer>, v: seq<real>) {
    |v| == g.Len() && forall i :: 0 <= i < |v| ==> v[i] == DemandQty(g, offers, i / g.buckets, i % g.buckets)
  }

  // ---- encoding ------------------------------------------------------------

  function Ceil(x: real): int { -((-x).Floor) }

  lemma DivideCompare(x: real, y: real, t: real)
    requires t > 0.0
    ensures x / t <= y <==> x <= t * y
    ensures x / t >= y <==> x >= t * y
  {
    var q := x / t;
    assert x == t * q;
    if q <= y { assert t * (y - q) >= 0.0; } else { assert t * (q - y) > 0.0; }
  }

  lemma FirstBucket(g: GridSpec, o: Offer, k: int)
    requires g.Valid()
    ensures Ceil(o.price / g.tick - TickEpsilon) <= k <==> Sells(g, o, o.slot, k)
  {
    DivideCompare(o.price, k as real + TickEpsilon, g.tick);
  }

  lemma LastBucket(g: GridSpec, o: Offer, k: int)
    requires g.Valid()
    ensures k <= (o.price / g.tick + TickEpsilon).Floor <==> Buys(g, o, o.slot, k)
  {
    DivideCompare(o.price, k as real - TickEpsilon, g.tick);
  }

  method ValidateOffers(g: GridSpec, offers: seq<Offer>) returns (r: Option<PoolError>)
    ensures r.None? <==> g.Valid() && OffersOk(g, offers)
    ensures r == Some(BadGrid) <==> !g.Valid()
    ensures r.Some? && r.value.BadOffer? ==>
      var i := r.value.index; i < |offers| && !OfferOk(g, offers[i]) && OffersOk(g, offers[..i])
  {
    if !g.Valid() { return Some(BadGrid); }
    for i := 0 to |offers|
      invariant OffersOk(g, offers[..i])
    {
      if offers[i].slot < 0 || offers[i].slot >= g.slots { return Some(BadOffer(i)); }
      if offers[i].quantity < 0.0 { return Some(BadOffer(i)); }
    }
    assert offers[..|offers|] == offers;
    return None;
  }

  /** Lays out a seller's packed step curve: each position holds the quantity on sale there. */
  method EncodeSupply(g: GridSpec, offers: seq<Offer>) returns (r: Result<seq<real>, PoolError>)
    ensures r.Ok? <==> g.Valid() && OffersOk(g, offers)
    ensures r.Ok? ==> IsSupplyCurve(g, offers, r.value)
  {
    var bad := ValidateOffers(g, offers);
    if bad.Some? { return Err(bad.value); }
    var out := seq(g.Len(), _ => 0.0);
    for n := 0 to |offers|
      invariant IsSupplyCurve(g, offers[..n], out)
    {
      var o := offers[n];
      var first := Ceil(o.price / g.tick - TickEpsilon);
      if first < 0 { first := 0; }
      out := AddRange(g, out, o.slot, first, g.buckets, o.quantity);
      assert offers[..n + 1][..n] == offers[..n];
      forall i | 0 <= i < |out|
        ensures out[i] == SupplyQty(g, offers[..n + 1], i / g.buckets, i % g.buckets)
      {
        IndexOnto(g, i);
        FirstBucket(g, o, i % g.buckets);
      }
    }
    assert offers[..|offers|] == offers;
    return Ok(out);
  }

  /** Lays out a buyer's packed step curve: each position holds the quantity wanted there. */
  method EncodeDemand(g: GridSpec, offers: seq<Offer>) returns (r: Result<seq<real>, PoolError>)
    ensures r.Ok? <==> g.Valid() && OffersOk(g, offers)
    ensures r.Ok? ==> IsDemandCurve(g, offers, r.value)
  {
    var bad := ValidateOffers(g, offers);
    if bad.Some? { return Err(bad.value); }
    var out := seq(g.Len(), _ => 0.0);
    for n := 0 to |offers|
      invariant IsDemandCurve(g, offers[..n], out)
    {
      var o := offers[n];
      var last := (o.price / g.tick + TickEpsilon).Floor;
      if last >= g.buckets { last := g.buckets - 1; }
      out := AddRange(g, out, o.slot, 0, last + 1, o.quantity);
      assert offers[..n + 1][..n] == offers[..n];
      forall i | 0 <= i < |out|
        ensures out[i] == DemandQty(g, offers[..n + 1], i / g.buckets, i % g.buckets)
      {
        IndexOnto(g, i);
        LastBucket(g, o, i % g.buckets);
      }
    }
    assert offers[..|offers|] == offers;
    return Ok(out);
  }

  /** The inner loop of both encoders: adds q at buckets from..to of one slot and nowhere else. */
  method AddRange(g: GridSpec, v: seq<real>, slot: int, from: int, to: int, q: real) returns (r: seq<real>)
    requires g.Valid() && |v| == g.Len() && 0 <= slot < g.slots && 0 <= from && to <= g.buckets
    ensures |r| == |v|
    ensures forall i :: 0 <= i < |v| ==>
      r[i] == v[i] + (if Within(g, i, slot, from, to) then q else 0.0)
  {
    r := v;
    var k := from;
    while k < to
      invariant from <= k && (k <= to || k == from) && |r| == |v|
      invariant forall i :: 0 <= i < |v| ==> r[i] == v[i] + (if Within(g, i, slot, from, k) then q else 0.0)
    {
      IndexInRange(g, slot, k);
      var j := g.Index(slot, k);
      ghost var was := r;
      r := r[j := r[j] + q];
      forall i | 0 <= i < |v| ensures r[i] == v[i] + (if Within(g, i, slot, from, k + 1) then q else 0.0) {
        WithinStep(g, i, slot, from, k);
        assert was[i] == v[i] + (if Within(g, i, slot, from, k) then q else 0.0);
      }
      k := k + 1;
    }
    forall i | 0 <= i < |v| ensures r[i] == v[i] + (if Within(g, i, slot, from, to) then q else 0.0) {
      assert Within(g, i, slot, from, k) == Within(g, i, slot, from, to);
    }
  }

  predicate Within(g: GridSpec, i: int, slot: int, from: int, to: int)
    requires g.Valid()
  {
    i / g.buckets == slot && from <= i % g.buckets < to
  }

  lemma WithinStep(g: GridSpec, i: int, slot: int, from: int, k: int)
    requires g.Valid() && 0 <= i < g.Len() && g.InRange(slot, k) && from <= k
    ensures Within(g, i, slot, from, k + 1) <==> Within(g, i, slot, from, k) || i == g.Index(slot, k)
    ensures !Within(g, g.Index(slot, k), slot, from, k)
  {
    IndexOnto(g, i);
    IndexUnpack(g, slot, k);
  }

  /** 0 at the first bucket of every delivery slot, 1 everywhere else. */
  method SlotBoundaryMask(g: GridSpec) returns (mask: seq<real>)
    requires g.Valid()
    ensures mask == BoundaryMask(g)
  {
    mask := seq(g.Len(), _ => 1.0);
    for slot := 0 to g.slots
      invariant |mask| == g.Len()
      invariant forall i :: 0 <= i < |mask| ==>
        mask[i] == if i % g.buckets == 0 && i / g.buckets < slot then 0.0 else 1.0
    {
      IndexInRange(g, slot, 0);
      IndexUnpack(g, slot, 0);
      forall i | 0 <= i < |mask| && i % g.buckets == 0 && i / g.buckets == slot
        ensures i == g.Index(slot, 0)
      {
        IndexOnto(g, i);
      }
      mask := mask[g.Index(slot, 0) := 0.0];
    }
    forall i | 0 <= i < |mask| ensures i / g.buckets < g.slots { IndexOnto(g, i); }
  }

  function BoundaryMask(g: GridSpec): seq<real>
    requires g.Valid()
  {
    seq(g.Len(), i requires 0 <= i => if i % g.buckets == 0 then 0.0 else 1.0)
  }

  // ---- what the curves promise --------------------------------------------

  function Add(a: seq<real>, b: seq<real>): seq<real>
    requires |a| == |b|
  {
    seq(|a|, i requires 0 <= i < |a| => a[i] + b[i])
  }

  /** Curves add up: encoding two lists together is encoding them apart and summing. */
  lemma {:induction false} SupplyAdditive(g: GridSpec, a: seq<Offer>, b: seq<Offer>, slot: int, k: int)
    ensures SupplyQty(g, a + b, slot, k) == SupplyQty(g, a, slot, k) + SupplyQty(g, b, slot, k)
  {
    if |b| == 0 { assert a + b == a; return; }
    assert (a + b)[..|a + b| - 1] == a + b[..|b| - 1];
    SupplyAdditive(g, a, b[..|b| - 1], slot, k);
  }

  lemma {:induction false} DemandAdditive(g: GridSpec, a: seq<Offer>, b: seq<Offer>, slot: int, k: int)
    ensures DemandQty(g, a + b, slot, k) == DemandQty(g, a, slot, k) + DemandQty(g, b, slot, k)
  {
    if |b| == 0 { assert a + b == a; return; }
    assert (a + b)[..|a + b| - 1] == a + b[..|b| - 1];
    DemandAdditive(g, a, b[..|b| - 1], slot, k);
  }

  lemma {:induction false} SupplyMonotone(g: GridSpec, offers: seq<Offer>, slot: int, k: int, k': int)
    requires g.Valid() && OffersOk(g, offers) && k <= k'
    ensures 0.0 <= SupplyQty(g, offers, slot, k) <= SupplyQty(g, offers, slot, k')
  {
    if |offers| == 0 { return; }
    var o := offers[|offers| - 1];
    SupplyMonotone(g, offers[..|offers| - 1], slot, k, k');
    assert g.tick * (k' as real + TickEpsilon) - g.tick * (k as real + TickEpsilon)
        == g.tick * ((k' - k) as real);
    assert Sells(g, o, slot, k) ==> Sells(g, o, slot, k');
    assert OfferOk(g, o);
  }

  lemma {:induction false} DemandMonotone(g: GridSpec, offers: seq<Offer>, slot: int, k: int, k': int)
    requires g.Valid() && OffersOk(g, offers) && k <= k'
    ensures DemandQty(g, offers, slot, k) >= DemandQty(g, offers, slot, k') >= 0.0
  {
    if |offers| == 0 { return; }
    var o := offers[|offers| - 1];
    DemandMonotone(g, offers[..|offers| - 1], slot, k, k');
    assert g.tick * (k' as real - TickEpsilon) - g.tick * (k as real - TickEpsilon)
        == g.tick * ((k' - k) as real);
    assert Buys(g, o, slot, k') ==> Buys(g, o, slot, k);
    assert OfferOk(g, o);
  }

  // ---- splitting offers among participants ---------------------------------

  function Flatten(parts: seq<seq<Offer>>): seq<Offer> {
    if |parts| == 0 then [] else Flatten(parts[..|parts| - 1]) + parts[|parts| - 1]
  }

  /** The sum of the participants' own curves, as level-free ciphertext addition forms it. */
  function AggregateSupply(g: GridSpec, parts: seq<seq<Offer>>, slot: int, k: int): real {
    if |parts| == 0 then 0.0
    else AggregateSupply(g, parts[..|parts| - 1], slot, k) + SupplyQty(g, parts[|parts| - 1], slot, k)
  }
  function AggregateDemand(g: GridSpec, parts: seq<seq<Offer>>, slot: int, k: int): real {
    if |parts| == 0 then 0.0
    else AggregateDemand(g, parts[..|parts| - 1], slot, k) + DemandQty(g, parts[|parts| - 1], slot, k)
  }

  lemma {:induction false} AggregateIsFlat(g: GridSpec, parts: seq<seq<Offer>>, slot: int, k: int)
    ensures AggregateSupply(g, parts, slot, k) == SupplyQty(g, Flatten(parts), slot, k)
    ensures AggregateDemand(g, parts, slot, k) == DemandQty(g, Flatten(parts), slot, k)
  {
    if |parts| == 0 { return; }
    var n := |parts| - 1;
    AggregateIsFlat(g, parts[..n], slot, k);
    SupplyAdditive(g, Flatten(parts[..n]), parts[n], slot, k);
    DemandAdditive(g, Flatten(parts[..n]), parts[n], slot, k);
  }

  /** Who placed an offer, and in what order, leaves the aggregate curves alone. */
  lemma {:induction false} ReorderKeepsCurves(g: GridSpec, a: seq<Offer>, b: seq<Offer>, slot: int, k: int)
    requires multiset(a) == multiset(b)
    ensures SupplyQty(g, a, slot, k) == SupplyQty(g, b, slot, k)
    ensures DemandQty(g, a, slot, k) == DemandQty(g, b, slot, k)
  {
    assert |a| == |multiset(a)| == |multiset(b)| == |b|;
    if |a| == 0 { return; }
    var n := |a| - 1;
    var o := a[n];
    assert o in multiset(b);
    var j :| 0 <= j < |b| && b[j] == o;
    WithoutOne(a, n);
    WithoutOne(b, j);
    assert a[..n] + a[n + 1..] == a[..n];
    ReorderKeepsCurves(g, a[..n], b[..j] + b[j + 1..], slot, k);
    TakeOne(g, b, j, slot, k);
  }

  lemma TakeOne(g: GridSpec, b: seq<Offer>, j: nat, slot: int, k: int)
    requires j < |b|
    ensures SupplyQty(g, b, slot, k)
         == SupplyQty(g, b[..j] + b[j + 1..], slot, k) + (if Sells(g, b[j], slot, k) then b[j].quantity else 0.0)
    ensures DemandQty(g, b, slot, k)
         == DemandQty(g, b[..j] + b[j + 1..], slot, k) + (if Buys(g, b[j], slot, k) then b[j].quantity else 0.0)
  {
    var l, m, r := b[..j], b[..j + 1], b[j + 1..];
    assert b == m + r && m[..j] == l;
    SupplyAdditive(g, l, r, slot, k);
    SupplyAdditive(g, m, r, slot, k);
    DemandAdditive(g, l, r, slot, k);
    DemandAdditive(g, m, r, slot, k);
  }

  /** Any two ways of splitting the same offers among participants give the same aggregates. */
  lemma SplitDoesNotMatter(g: GridSpec, p: seq<seq<Offer>>, q: seq<seq<Offer>>, slot: int, k: int)
    requires multiset(Flatten(p)) == multiset(Flatten(q))
    ensures AggregateSupply(g, p, slot, k) == AggregateSupply(g, q, slot, k)
    ensures AggregateDemand(g, p, slot, k) == AggregateDemand(g, q, slot, k)
  {
    AggregateIsFlat(g, p, slot, k);
    AggregateIsFlat(g, q, slot, k);
    ReorderKeepsCurves(g, Flatten(p), Flatten(q), slot, k);
  }

  // ---- the documented curve, and when the code meets it --------------------

  /** The comment on EncodeSupply: quantities whose bid price is at most Price(k), with no tolerance. */
  function DocumentedSupply(g: GridSpec, offers: seq<Offer>, slot: int, k: int): real {
    if |offers| == 0 then 0.0 else
      var o := offers[|offers| - 1];
      DocumentedSupply(g, offers[..|offers| - 1], slot, k)
      + (if o.slot == slot && o.price <= g.Price(k) then o.quantity else 0.0)
  }

  /** An offer the tolerance lets in although its price is above the bucket's. */
  predicate JustAbove(g: GridSpec, o: Offer, slot: int, k: int) {
    o.slot == slot && o.quantity > 0.0 && g.Price(k) < o.price <= g.tick * (k as real + TickEpsilon)
  }

  /** The code never shows less than documented, and shows exactly that unless some bid sits just above. */
  lemma {:induction false} SupplyMatchesDocumentation(g: GridSpec, offers: seq<Offer>, slot: int, k: int)
    requires g.Valid() && OffersOk(g, offers)
    ensures SupplyQty(g, offers, slot, k) >= DocumentedSupply(g, offers, slot, k)
    ensures SupplyQty(g, offers, slot, k) == DocumentedSupply(g, offers, slot, k)
        <==> forall i :: 0 <= i < |offers| ==> !JustAbove(g, offers[i], slot, k)
  {
    if |offers| == 0 { return; }
    var n := |offers| - 1;
    var o, rest := offers[n], offers[..n];
    SupplyMatchesDocumentation(g, rest, slot, k);
    assert OfferOk(g, o);
    assert g.tick * (k as real + TickEpsilon) - g.Price(k) == g.tick * TickEpsilon > 0.0;
    assert forall i :: 0 <= i < n ==> rest[i] == offers[i];
    if forall i :: 0 <= i < |rest| ==> !JustAbove(g, rest[i], slot, k) {
      assert (forall i :: 0 <= i < |offers| ==> !JustAbove(g, offers[i], slot, k)) <==> !JustAbove(g, o, slot, k);
    } else {
      var i :| 0 <= i < |rest| && JustAbove(g, rest[i], slot, k);
      assert JustAbove(g, offers[i], slot, k);
    }
  }

  /** Half a tolerance above its bucket, an offer is on sale in the code and not in the documentation. */
  lemma SupplyDeparts(g: GridSpec, slot: int, k: int, q: real)
    requires g.Valid() && g.InRange(slot, k) && q > 0.0
    ensures var offers := [Offer(slot, g.tick * (k as real + TickEpsilon / 2.0), q)];
      OffersOk(g, offers) && SupplyQty(g, offers, slot, k) == q && DocumentedSupply(g, offers, slot, k) == 0.0
  {
    var o := Offer(slot, g.tick * (k as real + TickEpsilon / 2.0), q);
    TickScales(g.tick, k as real, TickEpsilon);
    assert [o][..0] == [];
    assert SupplyQty(g, [], slot, k) == 0.0 && DocumentedSupply(g, [], slot, k) == 0.0;
  }

  lemma TickScales(tick: real, k: real, e: real)
    requires tick > 0.0 && e > 0.0
    ensures tick * k < tick * (k + e / 2.0) < tick * (k + e)
    ensures tick * (k - e) < tick * (k - e / 2.0) < tick * k
  {
    assert tick * (e / 2.0) > 0.0;
    assert tick * (k + e / 2.0) == tick * k + tick * (e / 2.0) && tick * (k + e) == tick * k + 2.0 * (tick * (e / 2.0));
    assert tick * (k - e / 2.0) == tick * k - tick * (e / 2.0) && tick * (k - e) == tick * k - 2.0 * (tick * (e / 2.0));
  }

  /** The comment on EncodeDemand: quantities whose limit price is at least Price(k), with no tolerance. */
  function DocumentedDemand(g: GridSpec, offers: seq<Offer>, slot: int, k: int): real {
    if |offers| == 0 then 0.0 else
      var o := offers[|offers| - 1];
      DocumentedDemand(g, offers[..|offers| - 1], slot, k)
      + (if o.slot == slot && o.price >= g.Price(k) then o.quantity else 0.0)
  }

  /** An offer the tolerance lets in although its limit is below the bucket's price. */
  predicate JustBelow(g: GridSpec, o: Offer, slot: int, k: int) {
    o.slot == slot && o.quantity > 0.0 && g.tick * (k as real - TickEpsilon) <= o.price < g.Price(k)
  }

  /** The demand side: never less than documented, and exactly that unless some limit sits just below. */
  lemma {:induction false} DemandMatchesDocumentation(g: GridSpec, offers: seq<Offer>, slot: int, k: int)
    requires g.Valid() && OffersOk(g, offers)
    ensures DemandQty(g, offers, slot, k) >= DocumentedDemand(g, offers, slot, k)
    ensures DemandQty(g, offers, slot, k) == DocumentedDemand(g, offers, slot, k)
        <==> forall i :: 0 <= i < |offers| ==> !JustBelow(g, offers[i], slot, k)
  {
    if |offers| == 0 { return; }
    var n := |offers| - 1;
    var o, rest := offers[n], offers[..n];
    DemandMatchesDocumentation(g, rest, slot, k);
    assert OfferOk(g, o);
    TickScales(g.tick, k as real, TickEpsilon);
    assert forall i :: 0 <= i < n ==> rest[i] == offers[i];
    if forall i :: 0 <= i < |rest| ==> !JustBelow(g, rest[i], slot, k) {
      assert (forall i :: 0 <= i < |offers| ==> !JustBelow(g, offers[i], slot, k)) <==> !JustBelow(g, o, slot, k);
    } else {
      var i :| 0 <= i < |rest| && JustBelow(g, rest[i], slot, k);
      assert JustBelow(g, offers[i], slot, k);
    }
  }

  lemma DemandDeparts(g: GridSpec, slot: int, k: int, q: real)
    requires g.Valid() && g.InRange(slot, k) && q > 0.0
    ensures var offers := [Offer(slot, g.tick * (k as real - TickEpsilon / 2.0), q)];
      OffersOk(g, offers) && DemandQty(g, offers, slot, k) == q && DocumentedDemand(g, offers, slot, k) == 0.0
  {
    var o := Offer(slot, g.tick * (k as real - TickEpsilon / 2.0), q);
    TickScales(g.tick, k as real, TickEpsilon);
    assert [o][..0] == [];
    assert DemandQty(g, [], slot, k) == 0.0 && DocumentedDemand(g, [], slot, k) == 0.0;
  }
}

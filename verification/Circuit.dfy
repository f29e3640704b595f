/**
 * The slot-packed clearing circuit of pkg/ares/pool/circuit_openfhe.go, over exact vectors.
 * A ciphertext is the vector it decrypts to; the context fixes how many positions it packs.
 */
module Circuit {
  import opened Wrappers
  import opened Reals
  import opened Grid
  import opened Clearing
  import opened Comparator

  /** The floor a bump must clear to be divided out. */
  const OneHotThreshold: real := 0.01

  /** Absorbs jitter around the one-half threshold. */
  const CrossingTolerance: real := 0.001

  datatype ClearingOutputs = ClearingOutputs(
    step: seq<real>, oneHot: seq<real>, supplyAt: seq<real>, supplyPrevAt: seq<real>, demandAt: seq<real>)

  // ---- homomorphic operations ----------------------------------------------

  /** Encryption packs a shorter vector into the first positions and zeros into the rest. */
  function Encrypt(batch: nat, v: seq<real>): Result<seq<real>, PoolError> {
    if |v| <= batch then Ok(Pad(batch, v)) else Err(BadLength)
  }
  function Pad(batch: nat, v: seq<real>): seq<real> {
    seq(batch, i requires 0 <= i => if i < |v| then v[i] else 0.0)
  }
  function Sub(a: seq<real>, b: seq<real>): seq<real>
    requires |a| == |b|
  {
    seq(|a|, i requires 0 <= i < |a| => a[i] - b[i])
  }
  function Mult(a: seq<real>, b: seq<real>): seq<real>
    requires |a| == |b|
  {
    seq(|a|, i requires 0 <= i < |a| => Times(a[i], b[i]))
  }
  function MultConst(a: seq<real>, c: real): seq<real> {
    seq(|a|, i requires 0 <= i < |a| => Times(a[i], c))
  }
  function EvalPoly(a: seq<real>, coeffs: seq<real>): seq<real> {
    seq(|a|, i requires 0 <= i < |a| => Poly(coeffs, a[i]))
  }
  /** Rotation by -1 over the whole ciphertext: position 0 receives the last one. */
  function RotateBack(a: seq<real>): seq<real> {
    seq(|a|, i requires 0 <= i < |a| => if i == 0 then a[|a| - 1] else a[i - 1])
  }

  // ---- the circuit -----------------------------------------------------------

  function EvalClearing(batch: nat, g: GridSpec, supply: seq<real>, demand: seq<real>,
                        coeffs: seq<real>, scale: real): Result<ClearingOutputs, PoolError>
    requires |supply| == 0 || |supply| == batch
    requires |demand| == 0 || |demand| == batch
  {
    if !g.Valid() then Err(BadGrid)
    else if |supply| == 0 || |demand| == 0 then Err(MissingInput)
    else if |coeffs| == 0 then Err(MissingInput)
    else if !(scale > 0.0) then Err(BadScale)
    else
      var step := Compare(supply, demand, coeffs, scale);
      var mask := Encrypt(batch, BoundaryMask(g));
      if mask.Err? then Err(mask.error) else
        var oneHot := Difference(step, mask.value);
        Ok(ClearingOutputs(step, oneHot, Mult(oneHot, supply),
                           Mult(oneHot, RotateBack(supply)), Mult(oneHot, demand)))
  }

  /** Stages 3 and 4: excess supply, range control, sign test. */
  function Compare(supply: seq<real>, demand: seq<real>, coeffs: seq<real>, scale: real): (step: seq<real>)
    requires |supply| == |demand| && scale > 0.0
    ensures |step| == |supply|
  {
    var excess := Sub(supply, demand);
    var normalized := MultConst(excess, 1.0 / scale);
    EvalPoly(normalized, coeffs)
  }

  /** Stages 5 and 6: difference along the price axis, masked at each slot's first bucket. */
  function Difference(step: seq<real>, mask: seq<real>): (oneHot: seq<real>)
    requires |step| == |mask|
    ensures |oneHot| == |step|
  {
    Mult(Sub(step, RotateBack(step)), mask)
  }

  /** The comparator's input at one packed position: the excess, brought into its trusted range. */
  function Normalized(supply: seq<real>, demand: seq<real>, scale: real, i: int): real
    requires scale > 0.0
  {
    Times(At(supply, i) - At(demand, i), 1.0 / scale)
  }

  function StepAt(supply: seq<real>, demand: seq<real>, coeffs: seq<real>, scale: real, i: int): real
    requires scale > 0.0
  {
    Poly(coeffs, Normalized(supply, demand, scale, i))
  }

  /** The masked difference along the price axis; a slot's first bucket has none. */
  function BumpAt(g: GridSpec, supply: seq<real>, demand: seq<real>, coeffs: seq<real>, scale: real, i: int): real
    requires scale > 0.0 && g.Valid()
  {
    if i % g.buckets == 0 then 0.0
    else StepAt(supply, demand, coeffs, scale, i) - StepAt(supply, demand, coeffs, scale, i - 1)
  }

  ghost predicate Runs(batch: nat, g: GridSpec, supply: seq<real>, demand: seq<real>, coeffs: seq<real>, scale: real) {
    Packed(g, supply, demand) && g.Len() <= batch && |coeffs| > 0 && scale > 0.0
  }

  function Outputs(batch: nat, g: GridSpec, supply: seq<real>, demand: seq<real>,
                   coeffs: seq<real>, scale: real): Result<ClearingOutputs, PoolError> {
    EvalClearing(batch, g, Pad(batch, supply), Pad(batch, demand), coeffs, scale)
  }

  /** What position i of the five outputs holds, in closed form. */
  ghost predicate Holds(g: GridSpec, o: ClearingOutputs, supply: seq<real>, demand: seq<real>,
                        coeffs: seq<real>, scale: real, i: int)
    requires scale > 0.0 && g.Valid()
  {
    var m := BumpAt(g, supply, demand, coeffs, scale, i);
    && At(o.step, i) == StepAt(supply, demand, coeffs, scale, i)
    && At(o.oneHot, i) == m
    && At(o.supplyAt, i) == Times(m, At(supply, i))
    && At(o.supplyPrevAt, i) == Times(m, At(supply, i - 1))
    && At(o.demandAt, i) == Times(m, At(demand, i))
  }

  lemma StepInClosedForm(batch: nat, supply: seq<real>, demand: seq<real>, coeffs: seq<real>, scale: real, i: nat)
    requires |supply| == |demand| && i < |supply| <= batch && scale > 0.0
    ensures Compare(Pad(batch, supply), Pad(batch, demand), coeffs, scale)[i] == StepAt(supply, demand, coeffs, scale, i)
  {
    assert Sub(Pad(batch, supply), Pad(batch, demand))[i] == At(supply, i) - At(demand, i);
  }

  /** The mask removes exactly the differences that reach across a slot boundary or the wrap. */
  lemma BumpInClosedForm(batch: nat, g: GridSpec, step: seq<real>, i: nat)
    requires g.Valid() && i < g.Len() <= batch == |step|
    ensures var b := Difference(step, Pad(batch, BoundaryMask(g)))[i];
      if i % g.buckets == 0 then b == 0.0 else i > 0 && b == step[i] - step[i - 1]
  {
    var diff := Sub(step, RotateBack(step));
    var m := Pad(batch, BoundaryMask(g))[i];
    assert m == if i % g.buckets == 0 then 0.0 else 1.0;
    assert Difference(step, Pad(batch, BoundaryMask(g)))[i] == Times(diff[i], m);
  }

  lemma OutputsInClosedForm(batch: nat, g: GridSpec, supply: seq<real>, demand: seq<real>,
                            coeffs: seq<real>, scale: real, i: nat)
    requires Runs(batch, g, supply, demand, coeffs, scale) && i < g.Len()
    ensures var r := Outputs(batch, g, supply, demand, coeffs, scale);
      r.Ok? && Holds(g, r.value, supply, demand, coeffs, scale, i)
  {
    var s, d := Pad(batch, supply), Pad(batch, demand);
    var step := Compare(s, d, coeffs, scale);
    BumpInClosedForm(batch, g, step, i);
    StepInClosedForm(batch, supply, demand, coeffs, scale, i);
    if i > 0 { StepInClosedForm(batch, supply, demand, coeffs, scale, i - 1); }
    var m := Difference(step, Pad(batch, BoundaryMask(g)));
    assert m[i] == BumpAt(g, supply, demand, coeffs, scale, i);
    MaskedValues(m, s, i);
    MaskedValues(m, d, i);
    if i == 0 { assert m[i] == 0.0; }
  }

  lemma MaskedValues(m: seq<real>, x: seq<real>, i: nat)
    requires i < |m| == |x|
    ensures Mult(m, x)[i] == Times(m[i], x[i])
    ensures Mult(m, RotateBack(x))[i] == Times(m[i], if i == 0 then x[|x| - 1] else x[i - 1])
  {}

  /** Slots are isolated: what one slot's outputs say depends on that slot's inputs alone. */
  lemma SlotsDoNotLeak(batch: nat, batch': nat, g: GridSpec, s: seq<real>, d: seq<real>, s': seq<real>, d': seq<real>,
                       coeffs: seq<real>, scale: real, slot: int, k: int, o: ClearingOutputs, o': ClearingOutputs)
    requires Runs(batch, g, s, d, coeffs, scale) && Outputs(batch, g, s, d, coeffs, scale) == Ok(o)
    requires Runs(batch', g, s', d', coeffs, scale) && Outputs(batch', g, s', d', coeffs, scale) == Ok(o')
    requires g.InRange(slot, k)
    requires forall j :: 0 <= j < g.buckets ==>
      At(s, g.Index(slot, j)) == At(s', g.Index(slot, j)) && At(d, g.Index(slot, j)) == At(d', g.Index(slot, j))
    ensures SameAt(o, o', g.Index(slot, k))
  {
    var i := g.Index(slot, k);
    IndexInRange(g, slot, k);
    IndexUnpack(g, slot, k);
    OutputsInClosedForm(batch, g, s, d, coeffs, scale, i);
    OutputsInClosedForm(batch', g, s', d', coeffs, scale, i);
    SameNeighbour(g, s, d, s', d', slot, k);
    SameInputsSameOutputs(g, o, o', s, d, s', d', coeffs, scale, i);
  }

  lemma SameNeighbour(g: GridSpec, s: seq<real>, d: seq<real>, s': seq<real>, d': seq<real>, slot: int, k: int)
    requires g.Valid() && g.InRange(slot, k)
    requires forall j :: 0 <= j < g.buckets ==>
      At(s, g.Index(slot, j)) == At(s', g.Index(slot, j)) && At(d, g.Index(slot, j)) == At(d', g.Index(slot, j))
    ensures k > 0 ==> At(s, g.Index(slot, k) - 1) == At(s', g.Index(slot, k) - 1)
    ensures k > 0 ==> At(d, g.Index(slot, k) - 1) == At(d', g.Index(slot, k) - 1)
  {
    if k > 0 { assert At(s, g.Index(slot, k - 1)) == At(s', g.Index(slot, k - 1)); }
  }

  ghost predicate SameAt(o: ClearingOutputs, o': ClearingOutputs, i: int) {
    && At(o.step, i) == At(o'.step, i) && At(o.oneHot, i) == At(o'.oneHot, i)
    && At(o.supplyAt, i) == At(o'.supplyAt, i) && At(o.supplyPrevAt, i) == At(o'.supplyPrevAt, i)
    && At(o.demandAt, i) == At(o'.demandAt, i)
  }

  lemma SameInputsSameOutputs(g: GridSpec, o: ClearingOutputs, o': ClearingOutputs, s: seq<real>, d: seq<real>,
                              s': seq<real>, d': seq<real>, coeffs: seq<real>, scale: real, i: int)
    requires g.Valid() && scale > 0.0
    requires Holds(g, o, s, d, coeffs, scale, i) && Holds(g, o', s', d', coeffs, scale, i)
    requires At(s, i) == At(s', i) && At(d, i) == At(d', i)
    requires i % g.buckets != 0 ==> At(s, i - 1) == At(s', i - 1) && At(d, i - 1) == At(d', i - 1)
    ensures SameAt(o, o', i)
  {
    assert Normalized(s, d, scale, i) == Normalized(s', d', scale, i);
    if i % g.buckets != 0 { assert Normalized(s, d, scale, i - 1) == Normalized(s', d', scale, i - 1); }
    assert BumpAt(g, s, d, coeffs, scale, i) == BumpAt(g, s', d', coeffs, scale, i);
  }

  // ---- reading the result -----------------------------------------------------

  predicate Hot(g: GridSpec, step: seq<real>, slot: int, k: int) {
    1 <= k < g.buckets && At(step, g.Index(slot, k)) >= 0.5 - CrossingTolerance
  }

  /** The first bucket at or above `from` whose comparator output counts as one half. */
  function HotFrom(g: GridSpec, step: seq<real>, slot: int, from: int): int
    requires 1 <= from
    decreases g.buckets - from
  {
    if from >= g.buckets then NoClearing
    else if Hot(g, step, slot, from) then from
    else HotFrom(g, step, slot, from + 1)
  }

  method DecodeCrossing(g: GridSpec, step: seq<real>) returns (out: seq<int>)
    requires g.Valid() && |step| >= g.Len()
    ensures |out| == g.slots
    ensures forall s :: 0 <= s < g.slots ==> out[s] == HotFrom(g, step, s, 1)
  {
    out := seq(g.slots, _ => NoClearing);
    for slot := 0 to g.slots
      invariant |out| == g.slots
      invariant forall s :: 0 <= s < slot ==> out[s] == HotFrom(g, step, s, 1)
    {
      out := out[slot := NoClearing];
      for k := 1 to g.buckets
        invariant |out| == g.slots && out[slot] == NoClearing
        invariant forall s :: 0 <= s < slot ==> out[s] == HotFrom(g, step, s, 1)
        invariant HotFrom(g, step, slot, 1) == HotFrom(g, step, slot, k)
      {
        IndexInRange(g, slot, k);
        if step[g.Index(slot, k)] >= 0.5 - CrossingTolerance {
          out := out[slot := k];
          break;
        }
      }
    }
  }

  /** One slot read back from the decrypted outputs. */
  function DecodedSlot(g: GridSpec, o: ClearingOutputs, slot: int): SlotResult {
    var k := HotFrom(g, o.step, slot, 1);
    var i := g.Index(slot, k);
    var m := At(o.oneHot, i);
    if k == NoClearing then Nothing
    else if m < OneHotThreshold then Nothing.(bucket := k, price := g.Price(k))
    else
      var res := DeriveAllocation(
        Nothing.(bucket := k, price := g.Price(k), supply := At(o.supplyAt, i) / m,
                 supplyPrev := At(o.supplyPrevAt, i) / m, demand := At(o.demandAt, i) / m));
      if res.bucket != NoClearing then res.(bucket := k, price := g.Price(k)) else res
  }

  method DecodeClearing(g: GridSpec, o: ClearingOutputs) returns (out: seq<SlotResult>)
    requires g.Valid()
    requires |o.step| >= g.Len() && |o.oneHot| >= g.Len()
    requires |o.supplyAt| >= g.Len() && |o.supplyPrevAt| >= g.Len() && |o.demandAt| >= g.Len()
    ensures |out| == g.slots
    ensures forall s :: 0 <= s < g.slots ==> out[s] == DecodedSlot(g, o, s)
  {
    var buckets := DecodeCrossing(g, o.step);
    out := [];
    for slot := 0 to g.slots
      invariant |out| == slot
      invariant forall s :: 0 <= s < slot ==> out[s] == DecodedSlot(g, o, s)
    {
      var k := buckets[slot];
      if k == NoClearing {
        out := out + [Nothing];
        continue;
      }
      HotInRange(g, o.step, slot, 1);
      IndexInRange(g, slot, k);
      var idx := g.Index(slot, k);
      var m := o.oneHot[idx];
      if m < OneHotThreshold {
        out := out + [Nothing.(bucket := k, price := g.Price(k))];
        continue;
      }
      var res := Nothing.(bucket := k, price := g.Price(k), supply := o.supplyAt[idx] / m,
                          supplyPrev := o.supplyPrevAt[idx] / m, demand := o.demandAt[idx] / m);
      res := DeriveAllocation(res);
      if res.bucket != NoClearing { res := res.(bucket := k, price := g.Price(k)); }
      out := out + [res];
    }
  }

  lemma {:induction false} HotInRange(g: GridSpec, step: seq<real>, slot: int, from: int)
    requires 1 <= from
    ensures var k := HotFrom(g, step, slot, from); k == NoClearing || (from <= k < g.buckets && Hot(g, step, slot, k))
    decreases g.buckets - from
  {
    if from < g.buckets && !Hot(g, step, slot, from) { HotInRange(g, step, slot, from + 1); }
  }

  // ---- refinement -------------------------------------------------------------

  /** On the inputs that occur in this slot, the comparator tells non-negative excess from negative. */
  ghost predicate Separates(g: GridSpec, supply: seq<real>, demand: seq<real>, coeffs: seq<real>, scale: real, slot: int)
    requires scale > 0.0
  {
    forall k :: 1 <= k < g.buckets ==>
      (StepAt(supply, demand, coeffs, scale, g.Index(slot, k)) >= 0.5 - CrossingTolerance
       <==> Crosses(g, supply, demand, slot, k))
  }

  lemma {:induction false} SameCrossing(g: GridSpec, supply: seq<real>, demand: seq<real>, step: seq<real>, slot: int, from: int)
    requires 1 <= from
    requires forall k :: 1 <= k < g.buckets ==> (Hot(g, step, slot, k) <==> Crosses(g, supply, demand, slot, k))
    ensures HotFrom(g, step, slot, from) == CrossingFrom(g, supply, demand, slot, from)
    decreases g.buckets - from
  {
    if from < g.buckets { SameCrossing(g, supply, demand, step, slot, from + 1); }
  }

  lemma DecodedCrossing(batch: nat, g: GridSpec, supply: seq<real>, demand: seq<real>,
                        coeffs: seq<real>, scale: real, slot: int)
    requires Runs(batch, g, supply, demand, coeffs, scale) && 0 <= slot < g.slots
    requires Separates(g, supply, demand, coeffs, scale, slot)
    ensures var r := Outputs(batch, g, supply, demand, coeffs, scale);
      r.Ok? && HotFrom(g, r.value.step, slot, 1) == CrossingFrom(g, supply, demand, slot, 1)
  {
    var r := Outputs(batch, g, supply, demand, coeffs, scale);
    OutputsInClosedForm(batch, g, supply, demand, coeffs, scale, 0);
    forall k | 1 <= k < g.buckets
      ensures Hot(g, r.value.step, slot, k) <==> Crosses(g, supply, demand, slot, k)
    {
      IndexInRange(g, slot, k);
      OutputsInClosedForm(batch, g, supply, demand, coeffs, scale, g.Index(slot, k));
    }
    SameCrossing(g, supply, demand, r.value.step, slot, 1);
  }

  /** The bump height at a slot's crossing. */
  function Amplitude(g: GridSpec, supply: seq<real>, demand: seq<real>, coeffs: seq<real>, scale: real, slot: int): real
    requires scale > 0.0 && g.Valid()
  {
    BumpAt(g, supply, demand, coeffs, scale, g.Index(slot, CrossingFrom(g, supply, demand, slot, 1)))
  }

  lemma DivideOut(m: real, x: real, mx: real)
    requires m > 0.0 && mx == Times(m, x)
    ensures mx / m == x
  {}

  /** The readings divided out of the masked aggregates are the plaintext ones. */
  lemma DecodedReading(g: GridSpec, o: ClearingOutputs, supply: seq<real>, demand: seq<real>,
                       coeffs: seq<real>, scale: real, slot: int, k: int)
    requires Packed(g, supply, demand) && scale > 0.0 && g.InRange(slot, k) && k >= 1
    requires Holds(g, o, supply, demand, coeffs, scale, g.Index(slot, k)) && At(o.oneHot, g.Index(slot, k)) > 0.0
    ensures var i, raw := g.Index(slot, k), Reading(g, supply, demand, slot, k);
      && At(o.supplyAt, i) / At(o.oneHot, i) == raw.supply
      && At(o.supplyPrevAt, i) / At(o.oneHot, i) == raw.supplyPrev
      && At(o.demandAt, i) / At(o.oneHot, i) == raw.demand
  {
    var i := g.Index(slot, k);
    var m := At(o.oneHot, i);
    IndexInRange(g, slot, k);
    DivideOut(m, At(supply, i), At(o.supplyAt, i));
    DivideOut(m, At(supply, i - 1), At(o.supplyPrevAt, i));
    DivideOut(m, At(demand, i), At(o.demandAt, i));
  }

  lemma AllocationKeepsOrDrops(res: SlotResult)
    requires res.bucket != NoClearing
    ensures var r := DeriveAllocation(res);
      r == Nothing || (r.bucket == res.bucket && r.price == res.price && r.cleared > 0.0)
  {}

  /**
   * The circuit refines the oracle. A slot decodes to exactly its plaintext clearing if and only if
   * it has no crossing or its bump reaches the threshold; below the threshold the decoder still
   * names the right bucket and price, and no quantity.
   */
  lemma CircuitRefinesOracle(batch: nat, g: GridSpec, supply: seq<real>, demand: seq<real>,
                             coeffs: seq<real>, scale: real, slot: int)
    requires Runs(batch, g, supply, demand, coeffs, scale) && 0 <= slot < g.slots
    requires Separates(g, supply, demand, coeffs, scale, slot)
    ensures var r := Outputs(batch, g, supply, demand, coeffs, scale);
      r.Ok? && var k, d := CrossingFrom(g, supply, demand, slot, 1), DecodedSlot(g, r.value, slot);
      && (d == SlotOutcome(g, supply, demand, slot) <==>
            k == NoClearing || Amplitude(g, supply, demand, coeffs, scale, slot) >= OneHotThreshold)
      && (k != NoClearing && Amplitude(g, supply, demand, coeffs, scale, slot) < OneHotThreshold ==>
            d == Nothing.(bucket := k, price := g.Price(k)))
  {
    DecodedCrossing(batch, g, supply, demand, coeffs, scale, slot);
    var o := Outputs(batch, g, supply, demand, coeffs, scale).value;
    var k := CrossingFrom(g, supply, demand, slot, 1);
    if k == NoClearing { return; }
    var i := g.Index(slot, k);
    IndexInRange(g, slot, k);
    OutputsInClosedForm(batch, g, supply, demand, coeffs, scale, i);
    if At(o.oneHot, i) >= OneHotThreshold { DecodedReading(g, o, supply, demand, coeffs, scale, slot, k); }
    AllocationKeepsOrDrops(Reading(g, supply, demand, slot, k));
  }

  /** A comparator input the decoder can trust: any at all for degree 13, if a shortfall is not vanishing. */
  predicate Readable(degree: int, gain: real, x: real) {
    Trusted(degree, gain, x) && (Times(gain, x) < 0.0 ==> Times(gain, x) < -6.0 * CrossingTolerance)
  }

  ghost predicate SlotReadable(g: GridSpec, supply: seq<real>, demand: seq<real>,
                               degree: int, gain: real, scale: real, slot: int)
    requires scale > 0.0
  {
    forall k :: 1 <= k < g.buckets ==> Readable(degree, gain, Normalized(supply, demand, scale, g.Index(slot, k)))
  }

  /** With the logistic comparator, of any degree and positive gain, the refinement's hypothesis is about inputs. */
  lemma LogisticMeetsHypothesis(g: GridSpec, supply: seq<real>, demand: seq<real>, coeffs: seq<real>,
                                degree: int, gain: real, scale: real, slot: int)
    requires Packed(g, supply, demand) && 0 <= slot < g.slots
    requires IsLogistic(coeffs, degree, gain) && scale > 0.0 && gain > 0.0
    requires SlotReadable(g, supply, demand, degree, gain, scale, slot)
    ensures Separates(g, supply, demand, coeffs, scale, slot)
  {
    forall k | 1 <= k < g.buckets
      ensures StepAt(supply, demand, coeffs, scale, g.Index(slot, k)) >= 0.5 - CrossingTolerance
          <==> Crosses(g, supply, demand, slot, k)
    {
      var i := g.Index(slot, k);
      SignOfInput(At(supply, i) - At(demand, i), scale, gain, Normalized(supply, demand, scale, i));
      ReadsSign(coeffs, degree, gain, Normalized(supply, demand, scale, i));
    }
  }

  /**
   * The whole chain with the logistic comparator: on readable inputs a slot decodes to exactly its plaintext
   * clearing if and only if it has no crossing or its bump reaches the threshold, at any degree, gain, scale,
   * grid and batch.
   */
  lemma LogisticCircuitIsExact(batch: nat, g: GridSpec, supply: seq<real>, demand: seq<real>, coeffs: seq<real>,
                               degree: int, gain: real, scale: real, slot: int)
    requires Runs(batch, g, supply, demand, coeffs, scale) && 0 <= slot < g.slots
    requires IsLogistic(coeffs, degree, gain) && gain > 0.0
    requires SlotReadable(g, supply, demand, degree, gain, scale, slot)
    ensures var r := Outputs(batch, g, supply, demand, coeffs, scale);
      r.Ok? && (DecodedSlot(g, r.value, slot) == SlotOutcome(g, supply, demand, slot) <==>
        CrossingFrom(g, supply, demand, slot, 1) == NoClearing ||
        Amplitude(g, supply, demand, coeffs, scale, slot) >= OneHotThreshold)
  {
    LogisticMeetsHypothesis(g, supply, demand, coeffs, degree, gain, scale, slot);
    CircuitRefinesOracle(batch, g, supply, demand, coeffs, scale, slot);
  }

  /** At degree 13 every excess is readable; only a shortfall can be too small. */
  lemma Degree13IsReadable(gain: real, x: real)
    requires Times(gain, x) >= 0.0 || Times(gain, x) < -6.0 * CrossingTolerance
    ensures Readable(13, gain, x)
  {
    assert SeriesTerms(13) == 7;
  }

  lemma ReadsSign(c: seq<real>, degree: int, gain: real, x: real)
    requires IsLogistic(c, degree, gain) && Readable(degree, gain, x)
    ensures Poly(c, x) >= 0.5 - CrossingTolerance <==> Times(gain, x) >= 0.0
  {
    LogisticSeparates(c, degree, gain, x);
  }

  lemma SignOfInput(e: real, scale: real, gain: real, x: real)
    requires scale > 0.0 && gain > 0.0 && x == Times(e, 1.0 / scale)
    ensures e >= 0.0 <==> Times(gain, x) >= 0.0
  {
    var inv := 1.0 / scale;
    assert inv > 0.0;
    if e >= 0.0 { assert e * inv >= 0.0 && gain * x >= 0.0; }
    else { assert (-e) * inv > 0.0 && gain * (-x) > 0.0; }
  }

  // ---- calibration ground truth -------------------------------------------------

  lemma MaskedProduct(step: real, prev: real, mask: real, x: real, bump: real)
    requires (mask == 0.0 && bump == 0.0) || (mask == 1.0 && bump == step - prev)
    ensures (step - prev) * mask * x == Times(bump, x)
  {}

  /** The comparator's output at every position. */
  method Steps(supply: seq<real>, demand: seq<real>, coeffs: seq<real>, scale: real) returns (step: seq<real>)
    requires |supply| == |demand| && scale > 0.0
    ensures |step| == |supply| && forall j :: 0 <= j < |step| ==> step[j] == StepAt(supply, demand, coeffs, scale, j)
  {
    step := [];
    for i := 0 to |supply|
      invariant |step| == i && forall j :: 0 <= j < i ==> step[j] == StepAt(supply, demand, coeffs, scale, j)
    {
      DivideIsTimes(supply[i] - demand[i], scale);
      var v := EvalPolyAt(coeffs, (supply[i] - demand[i]) / scale);
      step := step + [v];
    }
  }

  /** Every position before bucket k of the slot holds its expected value. */
  ghost predicate FilledUpTo(g: GridSpec, supply: seq<real>, demand: seq<real>, coeffs: seq<real>, scale: real,
                             out: seq<real>, slot: int, k: int)
    requires scale > 0.0 && g.Valid()
  {
    |out| == g.Len() && forall i :: 0 <= i < g.Len() && Before(g, i, slot, k) ==> out[i] == ExpectedAt(g, supply, demand, coeffs, scale, i)
  }

  lemma FilledNext(g: GridSpec, supply: seq<real>, demand: seq<real>, coeffs: seq<real>, scale: real,
                   out: seq<real>, slot: int, k: int)
    requires scale > 0.0 && g.Valid() && g.InRange(slot, k) && FilledUpTo(g, supply, demand, coeffs, scale, out, slot, k)
    ensures 0 <= g.Index(slot, k) < g.Len()
    ensures FilledUpTo(g, supply, demand, coeffs, scale,
                       out[g.Index(slot, k) := ExpectedAt(g, supply, demand, coeffs, scale, g.Index(slot, k))], slot, k + 1)
  {
    var idx := g.Index(slot, k);
    IndexInRange(g, slot, k);
    forall i | 0 <= i < g.Len() && Before(g, i, slot, k + 1) ensures Before(g, i, slot, k) || i == idx { BeforeNext(g, i, slot, k); }
  }

  lemma BeforeNext(g: GridSpec, i: int, slot: int, k: int)
    requires g.Valid() && g.InRange(slot, k) && 0 <= i < g.Len()
    ensures Before(g, i, slot, k + 1) <==> Before(g, i, slot, k) || i == g.Index(slot, k)
  {
    IndexOnto(g, i);
    IndexUnpack(g, slot, k);
  }

  lemma SlotFilled(g: GridSpec, supply: seq<real>, demand: seq<real>, coeffs: seq<real>, scale: real, out: seq<real>, slot: int, k: int)
    requires scale > 0.0 && g.Valid() && k == g.buckets && FilledUpTo(g, supply, demand, coeffs, scale, out, slot, k)
    ensures FilledUpTo(g, supply, demand, coeffs, scale, out, slot + 1, 0)
  {
    forall i | 0 <= i < g.Len() && Before(g, i, slot + 1, 0) ensures Before(g, i, slot, k) {}
  }

  /** One position: the masked difference along the price axis, times the supply. */
  method ExpectedOne(g: GridSpec, supply: seq<real>, demand: seq<real>, coeffs: seq<real>, scale: real,
                     step: seq<real>, mask: seq<real>, slot: int, k: int) returns (v: real)
    requires Packed(g, supply, demand) && scale > 0.0 && g.InRange(slot, k) && |step| == |mask| == g.Len()
    requires forall j :: 0 <= j < |step| ==> step[j] == StepAt(supply, demand, coeffs, scale, j)
    requires forall j :: 0 <= j < |mask| ==> mask[j] == if j % g.buckets == 0 then 0.0 else 1.0
    ensures v == ExpectedAt(g, supply, demand, coeffs, scale, g.Index(slot, k))
  {
    var idx := g.Index(slot, k);
    IndexInRange(g, slot, k);
    IndexUnpack(g, slot, k);
    var prev := 0.0;
    if k > 0 { prev := step[idx - 1]; }
    MaskedProduct(step[idx], prev, mask[idx], supply[idx], BumpAt(g, supply, demand, coeffs, scale, idx));
    v := (step[idx] - prev) * mask[idx] * supply[idx];
  }

  /** The calibrator's expected vector: the same formula, stage for stage, in plaintext. */
  method Expected(g: GridSpec, supply: seq<real>, demand: seq<real>, coeffs: seq<real>, scale: real)
    returns (out: seq<real>)
    requires Packed(g, supply, demand) && scale > 0.0
    ensures |out| == g.Len()
    ensures forall i :: 0 <= i < g.Len() ==> out[i] == ExpectedAt(g, supply, demand, coeffs, scale, i)
  {
    var step := Steps(supply, demand, coeffs, scale);
    var mask := SlotBoundaryMask(g);
    LenIsPositive(g);
    out := seq(g.Len(), _ => 0.0);
    NothingFilled(g, supply, demand, coeffs, scale, out);
    for slot := 0 to g.slots
      invariant FilledUpTo(g, supply, demand, coeffs, scale, out, slot, 0)
    {
      for k := 0 to g.buckets
        invariant FilledUpTo(g, supply, demand, coeffs, scale, out, slot, k)
      {
        FilledNext(g, supply, demand, coeffs, scale, out, slot, k);
        var v := ExpectedOne(g, supply, demand, coeffs, scale, step, mask, slot, k);
        out := out[g.Index(slot, k) := v];
      }
      SlotFilled(g, supply, demand, coeffs, scale, out, slot, g.buckets);
    }
    AllFilled(g, supply, demand, coeffs, scale, out, g.slots);
  }

  lemma AllFilled(g: GridSpec, supply: seq<real>, demand: seq<real>, coeffs: seq<real>, scale: real, out: seq<real>, slot: int)
    requires scale > 0.0 && g.Valid() && slot == g.slots && FilledUpTo(g, supply, demand, coeffs, scale, out, slot, 0)
    ensures forall i :: 0 <= i < g.Len() ==> out[i] == ExpectedAt(g, supply, demand, coeffs, scale, i)
  {
    forall i | 0 <= i < g.Len() ensures Before(g, i, slot, 0) { IndexOnto(g, i); }
  }

  lemma LenIsPositive(g: GridSpec)
    requires g.Valid()
    ensures g.Len() > 0
  {}

  lemma NothingFilled(g: GridSpec, supply: seq<real>, demand: seq<real>, coeffs: seq<real>, scale: real, out: seq<real>)
    requires scale > 0.0 && g.Valid() && |out| == g.Len()
    ensures FilledUpTo(g, supply, demand, coeffs, scale, out, 0, 0)
  {
    forall i | 0 <= i < g.Len() ensures !Before(g, i, 0, 0) { IndexOnto(g, i); }
  }

  /** Position i comes before bucket k of the slot in packing order. */
  predicate Before(g: GridSpec, i: int, slot: int, k: int)
    requires g.Valid()
  {
    i / g.buckets < slot || (i / g.buckets == slot && i % g.buckets < k)
  }

  function ExpectedAt(g: GridSpec, supply: seq<real>, demand: seq<real>, coeffs: seq<real>, scale: real, i: int): real
    requires scale > 0.0 && g.Valid()
  {
    Times(BumpAt(g, supply, demand, coeffs, scale, i), At(supply, i))
  }

  /** The ground truth is the circuit's deepest output, position by position, whatever the batch. */
  lemma ExpectedIsSupplyAt(batch: nat, g: GridSpec, supply: seq<real>, demand: seq<real>,
                           coeffs: seq<real>, scale: real, i: nat)
    requires Runs(batch, g, supply, demand, coeffs, scale) && i < g.Len()
    ensures var r := Outputs(batch, g, supply, demand, coeffs, scale);
      r.Ok? && i < |r.value.supplyAt| && r.value.supplyAt[i] == ExpectedAt(g, supply, demand, coeffs, scale, i)
  {
    OutputsInClosedForm(batch, g, supply, demand, coeffs, scale, i);
  }

  lemma DivideIsTimes(x: real, s: real)
    requires s > 0.0
    ensures Times(x, 1.0 / s) == x / s
  {}
}

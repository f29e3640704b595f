/**
 * The blind argmax of the energy auction: the evaluator's soft masks
 * (examples/energy_auction/wasm/pool_wasm.cpp) and the seller's reading of them
 * (examples/energy_auction/e2e/auction_e2e.js), in exact arithmetic.
 */
module Argmax {
  import opened Wrappers
  import opened Reals
  import opened AuctionState
  import opened AuctionRuns

  /** The demo's comparator, coefficients [0.5, 0.5]. */
  function Sharpen(x: real): real { 0.5 + 0.5 * x }

  /** The product over j < n, leaving out positions i and k, of the comparator at x - b[j]. */
  function Product(b: seq<real>, x: real, i: int, k: int, n: nat): real
    requires n <= |b|
  {
    if n == 0 then 1.0
    else if n - 1 == i || n - 1 == k then Product(b, x, i, k, n - 1)
    else Times(Product(b, x, i, k, n - 1), Sharpen(x - b[n - 1]))
  }

  /** mask[i] is the product over j != i of p(bid_i - bid_j). */
  function Mask(b: seq<real>, i: nat): real
    requires i < |b|
  {
    Product(b, b[i], i, i, |b|)
  }

  function Half(n: nat): real { if n == 0 then 1.0 else 0.5 * Half(n - 1) }

  predicate Normalised(b: seq<real>) { forall i :: 0 <= i < |b| ==> 0.0 <= b[i] <= 1.0 }
  predicate Highest(b: seq<real>, i: nat) { i < |b| && forall j :: 0 <= j < |b| ==> b[j] <= b[i] }

  lemma ProductBound(a: real, b: real)
    requires 0.0 <= a <= 1.0 && 0.0 <= b <= 1.0
    ensures 0.0 <= Times(a, b) <= 1.0 && Times(a, b) <= b
  {
    ProductSign(a, b);
    ProductSign(1.0 - a, b);
    assert (1.0 - a) * b == b - a * b;
  }

  lemma {:induction false} ProductInUnit(b: seq<real>, x: real, i: int, k: int, n: nat)
    requires Normalised(b) && 0.0 <= x <= 1.0 && n <= |b|
    ensures 0.0 <= Product(b, x, i, k, n) <= 1.0
  {
    if n == 0 { return; }
    ProductInUnit(b, x, i, k, n - 1);
    ProductBound(Product(b, x, i, k, n - 1), Sharpen(x - b[n - 1]));
  }

  lemma ProductMono(a: real, b: real, p: real, q: real)
    requires 0.0 <= a <= b && 0.0 <= p <= q
    ensures Times(a, p) <= Times(b, q)
  {
    assert (b - a) * p >= 0.0;
    assert b * (q - p) >= 0.0;
  }

  /** A higher bid has at least as large a product against the same opponents. */
  lemma {:induction false} ProductMonotone(b: seq<real>, x: real, y: real, i: int, k: int, n: nat)
    requires Normalised(b) && 0.0 <= x <= y <= 1.0 && n <= |b|
    ensures Product(b, x, i, k, n) <= Product(b, y, i, k, n)
  {
    if n == 0 { return; }
    ProductMonotone(b, x, y, i, k, n - 1);
    ProductInUnit(b, x, i, k, n - 1);
    ProductMono(Product(b, x, i, k, n - 1), Product(b, y, i, k, n - 1), Sharpen(x - b[n - 1]), Sharpen(y - b[n - 1]));
  }

  /** How many of the first n positions are opponents of i. */
  function Opponents(i: int, n: nat): nat { if 0 <= i < n then n - 1 else n }

  lemma {:induction false} HighestProduct(b: seq<real>, i: nat, n: nat)
    requires Normalised(b) && Highest(b, i) && n <= |b|
    ensures Product(b, b[i], i, i, n) >= Half(Opponents(i, n)) > 0.0
  {
    if n == 0 { return; }
    HighestProduct(b, i, n - 1);
    if n - 1 == i { return; }
    assert Opponents(i, n) == Opponents(i, n - 1) + 1;
    ProductMono(Half(Opponents(i, n - 1)), Product(b, b[i], i, i, n - 1), 0.5, Sharpen(b[i] - b[n - 1]));
  }

  /** Taking one opponent's factor out of the product. */
  lemma {:induction false} FactorOut(b: seq<real>, x: real, i: int, k: nat, n: nat)
    requires k < n <= |b| && k != i
    ensures Product(b, x, i, i, n) == Times(Product(b, x, i, k, n), Sharpen(x - b[k]))
  {
    var s := Sharpen(x - b[n - 1]);
    if n - 1 == k {
      SkipUnseen(b, x, i, k, n - 1);
    } else {
      FactorOut(b, x, i, k, n - 1);
      if n - 1 != i { Swap(Product(b, x, i, k, n - 1), Sharpen(x - b[k]), s); }
    }
  }

  lemma Swap(p: real, q: real, r: real)
    ensures Times(Times(p, q), r) == Times(Times(p, r), q)
  {
    Regrouped(p, q, r);
    Regrouped(p, r, q);
  }

  lemma {:induction false} SkipUnseen(b: seq<real>, x: real, i: int, k: int, n: nat)
    requires n <= |b| && k >= n
    ensures Product(b, x, i, i, n) == Product(b, x, i, k, n)
  {
    if n > 0 { SkipUnseen(b, x, i, k, n - 1); }
  }

  lemma {:induction false} SkipOrder(b: seq<real>, x: real, i: int, k: int, n: nat)
    requires n <= |b|
    ensures Product(b, x, i, k, n) == Product(b, x, k, i, n)
  {
    if n > 0 { SkipOrder(b, x, i, k, n - 1); }
  }

  lemma ScaleStrict(h: real, p: real, q: real)
    requires h >= 0.0 && h * q > 0.0 && p < q
    ensures h * p < h * q
  {
    var d := q - p;
    assert h * d > 0.0;
  }

  lemma StrictProduct(f: real, h: real, p: real, q: real)
    requires 0.0 <= f <= h && 0.0 <= p < q && Times(h, q) > 0.0
    ensures Times(f, p) < Times(h, q)
  {
    var e := h - f;
    assert e * p >= 0.0;
    ScaleStrict(h, p, q);
  }

  /** Against a highest bid m, a strictly lower bid l has a strictly smaller mask, and one of at most 1/2. */
  lemma LowerBidLoses(b: seq<real>, l: nat, m: nat)
    requires Normalised(b) && Highest(b, m) && l < |b| && b[l] < b[m]
    ensures Mask(b, l) < Mask(b, m) && Mask(b, l) <= 0.5
  {
    var n := |b|;
    FactorOut(b, b[l], l, m, n);
    FactorOut(b, b[m], m, l, n);
    SkipOrder(b, b[l], l, m, n);
    ProductMonotone(b, b[l], b[m], m, l, n);
    ProductInUnit(b, b[l], m, l, n);
    ProductInUnit(b, b[m], m, l, n);
    HighestProduct(b, m, n);
    var f, p := Product(b, b[l], m, l, n), Sharpen(b[l] - b[m]);
    StrictProduct(f, Product(b, b[m], m, l, n), p, Sharpen(b[m] - b[l]));
    ProductBound(f, p);
  }

  // ---- the evaluator's product tree --------------------------------------------

  function ProductOf(fs: seq<real>): real {
    if fs == [] then 1.0 else Times(ProductOf(fs[..|fs| - 1]), fs[|fs| - 1])
  }

  lemma OneMoreFactor(fs: seq<real>, f: real)
    ensures ProductOf(fs + [f]) == Times(ProductOf(fs), f)
  {
    assert (fs + [f])[..|fs|] == fs;
  }

  lemma TwoMoreFactors(fs: seq<real>, k: nat)
    requires k + 1 < |fs|
    ensures ProductOf(fs[..k + 2]) == Times(ProductOf(fs[..k]), fs[k] * fs[k + 1])
  {
    assert fs[..k + 2] == fs[..k] + [fs[k]] + [fs[k + 1]];
    OneMoreFactor(fs[..k], fs[k]);
    OneMoreFactor(fs[..k] + [fs[k]], fs[k + 1]);
    Regrouped(ProductOf(fs[..k]), fs[k], fs[k + 1]);
  }

  lemma Regrouped(p: real, f: real, g: real)
    ensures Times(Times(p, f), g) == Times(p, f * g)
  {
    assert Times(p, f) == p * f;
    assert Times(p * f, g) == p * (f * g);
  }

  /** One level of the tree: neighbours multiplied, an odd one out carried over. */
  method PairUp(fs: seq<real>) returns (next: seq<real>)
    ensures ProductOf(next) == ProductOf(fs) && |next| == (|fs| + 1) / 2
  {
    next := [];
    var k := 0;
    while k < |fs|
      invariant 0 <= k <= |fs| + 1 && k % 2 == 0 && |next| == k / 2
      invariant ProductOf(next) == ProductOf(fs[..if k <= |fs| then k else |fs|])
    {
      if k + 1 == |fs| {
        assert fs[..k + 1] == fs[..k] + [fs[k]] == fs;
        OneMoreFactor(fs[..k], fs[k]);
        OneMoreFactor(next, fs[k]);
        next := next + [fs[k]];
      } else {
        TwoMoreFactors(fs, k);
        OneMoreFactor(next, fs[k] * fs[k + 1]);
        next := next + [fs[k] * fs[k + 1]];
      }
      k := k + 2;
    }
    assert fs[..|fs|] == fs;
  }

  /** The balanced tree multiplies what the sequential chain would. */
  method BalancedProduct(factors: seq<real>) returns (p: real)
    requires factors != []
    ensures p == ProductOf(factors)
  {
    var fs := factors;
    while |fs| > 1
      invariant fs != [] && ProductOf(fs) == ProductOf(factors)
      decreases |fs|
    {
      fs := PairUp(fs);
    }
    assert fs[..0] == [];
    return fs[0];
  }

  /** One mask: the comparators against every other bid, multiplied. */
  method MaskAt(b: seq<real>, i: nat) returns (mask: real)
    requires i < |b| && |b| >= 2
    ensures mask == Mask(b, i)
  {
    var factors: seq<real> := [];
    for j := 0 to |b|
      invariant ProductOf(factors) == Product(b, b[i], i, i, j) && |factors| == Opponents(i, j)
    {
      if i != j {
        OneMoreFactor(factors, Sharpen(b[i] - b[j]));
        factors := factors + [Sharpen(b[i] - b[j])];
      }
    }
    mask := BalancedProduct(factors);
  }

  /** The masks of all bids; fewer than two are refused. */
  method EvalArgmax(b: seq<real>) returns (r: Option<seq<real>>)
    ensures r == if |b| < 2 then None else Some(Masks(b))
  {
    if |b| < 2 { return None; }
    var masks: seq<real> := [];
    for i := 0 to |b|
      invariant |masks| == i && forall k :: 0 <= k < i ==> masks[k] == Mask(b, k)
    {
      var mask := MaskAt(b, i);
      masks := masks + [mask];
    }
    assert masks == Masks(b);
    return Some(masks);
  }

  // ---- the seller's reading ---------------------------------------------------

  ghost predicate FirstMaximum(v: seq<real>, win: nat) {
    && win < |v|
    && (forall j :: 0 <= j < |v| ==> v[j] <= v[win])
    && (forall j :: 0 <= j < win ==> v[j] < v[win])
  }

  method IndexOfMax(v: seq<real>) returns (win: nat)
    requires v != []
    ensures FirstMaximum(v, win)
  {
    win := 0;
    for i := 1 to |v|
      invariant win < i && FirstMaximum(v[..i], win)
    {
      assert v[..i + 1] == v[..i] + [v[i]];
      if v[i] > v[win] { win := i; }
    }
    assert v[..|v|] == v;
  }

  /** The masks the evaluator returns: a lone bid is not compared with anything. */
  function Masks(b: seq<real>): seq<real> {
    if |b| < 2 then [1.0] else seq(|b|, i requires 0 <= i < |b| => Mask(b, i))
  }

  lemma {:induction false} SomeHighest(b: seq<real>, n: nat) returns (m: nat)
    requires 1 <= n <= |b|
    ensures m < n && forall j :: 0 <= j < n ==> b[j] <= b[m]
  {
    if n == 1 { return 0; }
    m := SomeHighest(b, n - 1);
    if b[n - 1] > b[m] { m := n - 1; }
  }

  /**
   * For any number of bids in [0, 1], the first maximum of the masks is at a highest bid; its mask
   * is at least (1/2)^(n-1), while every strictly lower bid's is smaller and at most 1/2.
   */
  lemma HighestBidWins(b: seq<real>, win: nat)
    requires b != [] && Normalised(b) && FirstMaximum(Masks(b), win)
    ensures Highest(b, win) && Masks(b)[win] >= Half(|b| - 1)
    ensures |b| >= 2 ==> forall l :: 0 <= l < |b| && b[l] < b[win] ==> Masks(b)[l] < Masks(b)[win] && Masks(b)[l] <= 0.5
  {
    if |b| < 2 { return; }
    var m := SomeHighest(b, |b|);
    assert Masks(b)[m] <= Masks(b)[win];
    if b[win] < b[m] { LowerBidLoses(b, win, m); }
    HighestProduct(b, win, |b|);
    forall l | 0 <= l < |b| && b[l] < b[win] ensures Masks(b)[l] < Masks(b)[win] && Masks(b)[l] <= 0.5 {
      LowerBidLoses(b, l, win);
    }
  }

  /** Among equal highest bids the lowest position wins. */
  lemma TiesGoToTheFirst(b: seq<real>, win: nat, other: nat)
    requires |b| >= 2 && Normalised(b) && FirstMaximum(Masks(b), win) && Highest(b, other)
    ensures win <= other
  {
    HighestBidWins(b, win);
    SameBidSameMask(b, win, other);
    assert Masks(b)[other] == Masks(b)[win];
  }

  lemma SameBidSameMask(b: seq<real>, i: nat, k: nat)
    requires i < |b| && k < |b| && b[i] == b[k]
    ensures Mask(b, i) == Mask(b, k)
  {
    if i == k { return; }
    FactorOut(b, b[i], i, k, |b|);
    FactorOut(b, b[k], k, i, |b|);
    SkipOrder(b, b[i], i, k, |b|);
  }

  // ---- from masks to buyers ----------------------------------------------------

  /** The bids of a round in seat order, as the evaluator gets them; `open` is what a ciphertext holds. */
  function BidsInOrder(bids: map<int, Blob>, open: Blob -> real): seq<real> {
    BidsAt(bids, SeatsBelow(bids, MaxBuyers), open)
  }

  function BidsAt(bids: map<int, Blob>, seats: seq<int>, open: Blob -> real): seq<real> {
    seq(|seats|, i requires 0 <= i < |seats| => if seats[i] in bids then open(bids[seats[i]]) else 0.0)
  }

  /** What the buyer x bid is no more than what was bid from this seat. */
  ghost predicate Beaten(peers: Peers, bids: map<int, Blob>, open: Blob -> real, x: Id, seat: int) {
    x in peers && peers[x].seat in bids && seat in bids && open(bids[peers[x].seat]) <= open(bids[seat])
  }

  /**
   * When a bid completes the round, the seat the seller reads off the masks is held by exactly one buyer, and
   * that buyer bid at least as much as every other.
   */
  lemma HighestBidderWins(s: State, id: Id, keyId: int, ct: Blob, open: Blob -> real, win: nat) returns (winner: Id)
    requires Inv(s) && Answer(s, SubmitBid(id, keyId, ct)) == Bid(BidComplete) && Opens(open)
    requires FirstMaximum(Masks(BidsInOrder(Step(s, SubmitBid(id, keyId, ct)).round.bids, open)), win)
    ensures var t := Step(s, SubmitBid(id, keyId, ct)); var seats := SeatsBelow(t.round.bids, MaxBuyers);
      && win < |seats| && (forall x :: Sits(t.peers, x, seats[win]) <==> x == winner)
      && forall x :: x in Buyers(t.peers) ==> Beaten(t.peers, t.round.bids, open, x, seats[win])
  {
    var op := SubmitBid(id, keyId, ct);
    var t := Step(s, op);
    BidCompletes(s, id, keyId, ct);
    StepKeepsInv(s, op);
    assert id in Buyers(t.peers);
    WinningSeat(t, open, win);
    var seat := SeatsBelow(t.round.bids, MaxBuyers)[win];
    winner :| Sits(t.peers, winner, seat);
    forall x | Sits(t.peers, x, seat) ensures x == winner { assert SameSeat(t.peers[x], t.peers[winner]); }
  }

  /** A ciphertext holds a bid in [0, 1]. */
  ghost predicate Opens(open: Blob -> real) { forall c :: 0.0 <= open(c) <= 1.0 }

  lemma WinningSeat(t: State, open: Blob -> real, win: nat)
    requires Inv(t) && AllSealed(t.peers) && SeatsApart(t.peers) && Buyers(t.peers) != {} && Opens(open)
    requires FirstMaximum(Masks(BidsInOrder(t.round.bids, open)), win)
    ensures var seats := SeatsBelow(t.round.bids, MaxBuyers);
      && win < |seats| && SeatTaken(t.peers, seats[win])
      && forall x :: x in Buyers(t.peers) ==> Beaten(t.peers, t.round.bids, open, x, seats[win])
  {
    var seats, b := SeatsBelow(t.round.bids, MaxBuyers), BidsInOrder(t.round.bids, open);
    CompleteRoundIsListed(t);
    forall i | 0 <= i < |seats| ensures seats[i] in t.round.bids { assert seats[i] in seats; }
    ListedBids(t.round.bids, seats, open);
    HighestBidWins(b, win);
    assert seats[win] in seats;
    forall x | x in Buyers(t.peers) ensures Beaten(t.peers, t.round.bids, open, x, seats[win]) {
      assert Sits(t.peers, x, t.peers[x].seat);
      assert t.peers[x].seat in seats;
      var k :| 0 <= k < |seats| && seats[k] == t.peers[x].seat;
      assert b[k] <= b[win];
    }
  }

  lemma ListedBids(bids: map<int, Blob>, seats: seq<int>, open: Blob -> real)
    requires Opens(open) && forall i :: 0 <= i < |seats| ==> seats[i] in bids
    ensures Normalised(BidsAt(bids, seats, open))
    ensures forall i :: 0 <= i < |seats| ==> BidsAt(bids, seats, open)[i] == open(bids[seats[i]])
  {}
}

/** The deterministic slot permutation of pkg/ares/onion/permutation.go. */
module Permutation {
  import opened Sequences

  type Byte = x: int | 0 <= x < 256
  type Hash = seq<Byte> -> seq<Byte>

  const TwoTo32 := 0x1_0000_0000
  const TwoTo64 := 0x1_0000_0000_0000_0000

  // ---- the keystream ------------------------------------------------------------

  /** A counter as eight bytes, most significant first. */
  function BigEndian(n: nat, width: nat): seq<Byte> {
    if width == 0 then [] else BigEndian(n / 256, width - 1) + [n % 256]
  }

  const CounterWidth: nat := 8

  /** Bytes read as a number, the first most significant. */
  function Number(bs: seq<Byte>): nat { if bs == [] then 0 else Number(bs[..|bs| - 1]) * 256 + bs[|bs| - 1] }

  function Span(width: nat): nat { if width == 0 then 1 else 256 * Span(width - 1) }

  lemma {:induction false} NumberReadsBack(bs: seq<Byte>)
    ensures Number(bs) < Span(|bs|) && BigEndian(Number(bs), |bs|) == bs
  {
    if bs == [] { return; }
    NumberReadsBack(bs[..|bs| - 1]);
    assert bs == bs[..|bs| - 1] + [bs[|bs| - 1]];
  }

  /** Block k of the stream: the hash of the seed and the 64-bit counter. */
  function Block(sha: Hash, seed: seq<Byte>, k: nat): seq<Byte> { sha(seed + BigEndian(k % TwoTo64, CounterWidth)) }

  ghost predicate Digests(sha: Hash) { forall m :: |sha(m)| == 32 }

  /** The keystream, byte by byte. */
  type Stream = nat -> Byte

  function StreamOf(sha: Hash, seed: seq<Byte>): Stream
    requires Digests(sha)
  {
    pos => Block(sha, seed, pos / 32)[pos % 32]
  }

  lemma CounterSpan(width: nat)
    requires width == CounterWidth
    ensures Span(width) == TwoTo64
  {
    assert Span(2) == 0x1_0000;
    assert Span(4) == 0x1_0000 * Span(2);
    assert Span(6) == 0x1_0000 * Span(4);
    assert Span(8) == 0x1_0000 * Span(6);
  }

  lemma BlockFor(sha: Hash, seed: seq<Byte>, k: nat, width: nat)
    requires k < TwoTo64 && width == CounterWidth
    ensures Block(sha, seed, k) == sha(seed + BigEndian(k, width))
  {
    assert k % TwoTo64 == k;
  }

  /** The stream is made of the blocks, in order. */
  ghost predicate MadeOf(stream: Stream, sha: Hash, seed: seq<Byte>)
    requires Digests(sha)
  {
    forall k: nat, i :: 0 <= i < 32 ==> Block(sha, seed, k)[i] == stream(32 * k + i)
  }

  lemma StreamIsMadeOfBlocks(sha: Hash, seed: seq<Byte>)
    requires Digests(sha)
    ensures MadeOf(StreamOf(sha, seed), sha, seed)
  {
    forall k: nat, i | 0 <= i < 32 ensures Block(sha, seed, k)[i] == StreamOf(sha, seed)(32 * k + i) {
      assert (32 * k + i) / 32 == k && (32 * k + i) % 32 == i;
    }
  }

  lemma InBlock(stream: Stream, sha: Hash, seed: seq<Byte>, counter: seq<Byte>, width: nat, j: nat)
    requires Digests(sha) && MadeOf(stream, sha, seed) && |counter| == width == CounterWidth && j < 32
    ensures stream(32 * Number(counter) + j) == sha(seed + counter)[j]
  {
    NumberReadsBack(counter);
    CounterSpan(width);
    BlockFor(sha, seed, Number(counter), width);
  }

  /** Thirty-two bytes of the stream are the hash of the seed and eight counter bytes that give their number. */
  lemma StreamIsCounterMode(sha: Hash, seed: seq<Byte>, counter: seq<Byte>, j: nat)
    requires Digests(sha) && |counter| == 8 && j < 32
    ensures StreamOf(sha, seed)(32 * Number(counter) + j) == sha(seed + counter)[j]
  {
    StreamIsMadeOfBlocks(sha, seed);
    InBlock(StreamOf(sha, seed), sha, seed, counter, |counter|, j);
  }

  /** Four stream bytes as a 32-bit word, the first most significant. */
  function Word(stream: Stream, pos: nat): int { WordSoFar(stream, pos, WordWidth) }

  const WordWidth: nat := 4

  function WordSoFar(stream: Stream, pos: nat, n: nat): int {
    if n == 0 then 0 else WordSoFar(stream, pos, n - 1) * 256 + stream(pos + n - 1)
  }

  /** A word is its four bytes, the first most significant. */
  lemma WordBytes(stream: Stream, pos: nat)
    ensures Word(stream, pos) ==
      0x100_0000 * stream(pos) + 0x1_0000 * stream(pos + 1) + 0x100 * stream(pos + 2) + stream(pos + 3)
  {
    FirstByte(stream, pos);
    NextByte(stream, pos, 1, WordSoFar(stream, pos, 1), stream(pos + 1));
    NextByte(stream, pos, 2, WordSoFar(stream, pos, 2), stream(pos + 2));
    NextByte(stream, pos, 3, WordSoFar(stream, pos, 3), stream(pos + 3));
  }

  lemma FirstByte(stream: Stream, pos: nat)
    ensures WordSoFar(stream, pos, 1) == stream(pos)
  {
    assert WordSoFar(stream, pos, 0) == 0;
  }

  lemma NextByte(stream: Stream, pos: nat, n: nat, v: int, b: int)
    requires v == WordSoFar(stream, pos, n) && b == stream(pos + n)
    ensures v * 256 + b == WordSoFar(stream, pos, n + 1)
  {}

  /** The largest multiple of m that rejection sampling accepts below. */
  function Limit(m: nat): nat
    requires 0 < m < TwoTo32
  {
    (TwoTo32 - 1) / m * m
  }

  /** Attempt k from pos on draws a word below the limit. */
  ghost predicate Accepted(stream: Stream, pos: nat, limit: nat, k: nat) { Word(stream, pos + 4 * k) < limit }

  ghost predicate FirstAccepted(stream: Stream, pos: nat, limit: nat, k: nat) {
    Accepted(stream, pos, limit, k) && forall j: nat :: j < k ==> !Accepted(stream, pos, limit, j)
  }

  /** The attempts before k are refused, and attempt `hit` is not. */
  ghost predicate Refused(stream: Stream, pos: nat, limit: nat, k: nat, hit: nat) {
    k <= hit && Accepted(stream, pos, limit, hit) && forall j: nat :: j < k ==> !Accepted(stream, pos, limit, j)
  }

  lemma RefusedAgain(stream: Stream, pos: nat, limit: nat, k: nat, hit: nat)
    requires Refused(stream, pos, limit, k, hit) && !Accepted(stream, pos, limit, k)
    ensures k < hit && Refused(stream, pos, limit, k + 1, hit)
  {}

  /** Some attempt from here on is accepted; otherwise sampling would not return. */
  ghost predicate SomeAccepted(stream: Stream, pos: nat, limit: nat) {
    exists k: nat :: Accepted(stream, pos, limit, k)
  }

  ghost predicate Productive(stream: Stream, n: nat)
    requires n < TwoTo32
  {
    forall pos: nat, m: nat :: 1 < m <= n ==> Returns(stream, pos, m)
  }

  /** Sampling below m from this position returns. */
  ghost predicate Returns(stream: Stream, pos: nat, m: nat)
    requires 0 < m < TwoTo32
  {
    SomeAccepted(stream, pos, Limit(m))
  }

  lemma {:induction false} SomeIsFirst(stream: Stream, pos: nat, limit: nat, k: nat)
    requires Accepted(stream, pos, limit, k)
    ensures exists j: nat :: FirstAccepted(stream, pos, limit, j)
  {
    if j: nat :| j < k && Accepted(stream, pos, limit, j) {
      SomeIsFirst(stream, pos, limit, j);
    } else {
      assert FirstAccepted(stream, pos, limit, k);
    }
  }

  /** The first accepted attempt from a position on. */
  ghost function Attempt(stream: Stream, pos: nat, limit: nat): (k: nat)
    requires SomeAccepted(stream, pos, limit)
    ensures FirstAccepted(stream, pos, limit, k)
  {
    var any: nat :| Accepted(stream, pos, limit, any);
    SomeIsFirst(stream, pos, limit, any);
    var k: nat :| FirstAccepted(stream, pos, limit, k);
    k
  }

  lemma FirstIsAttempt(stream: Stream, pos: nat, limit: nat, k: nat)
    requires FirstAccepted(stream, pos, limit, k)
    ensures SomeAccepted(stream, pos, limit) && Attempt(stream, pos, limit) == k
  {
    var a := Attempt(stream, pos, limit);
    assert Accepted(stream, pos, limit, a) && Accepted(stream, pos, limit, k);
  }

  lemma CounterStep(blocks: nat)
    ensures (blocks % TwoTo64 + 1) % TwoTo64 == (blocks + 1) % TwoTo64
  {}

  lemma NextBlock(sha: Hash, seed: seq<Byte>, counter: nat, blocks: nat)
    requires counter == blocks % TwoTo64
    ensures sha(seed + BigEndian(counter, CounterWidth)) == Block(sha, seed, blocks)
  {}

  class SeedStream {
    const sha: Hash
    const seed: seq<Byte>
    var counter: nat
    var buf: seq<Byte>
    var off: nat
    ghost var blocks: nat
    ghost const stream: Stream

    /** The number of bytes drawn so far. */
    ghost var pos: nat

    ghost predicate Valid()
      reads this
    {
      && Digests(sha) && MadeOf(stream, sha, seed) && counter == blocks % TwoTo64
      && (if blocks == 0 then buf == [] && off == 0 && pos == 0
          else |buf| == 32 && off <= 32 && buf == Block(sha, seed, blocks - 1) && pos == 32 * (blocks - 1) + off)
    }

    constructor (sha: Hash, seed: seq<Byte>)
      requires Digests(sha)
      ensures Valid() && pos == 0 && stream == StreamOf(sha, seed)
    {
      StreamIsMadeOfBlocks(sha, seed);
      this.sha, this.seed, counter, buf, off, blocks, pos := sha, seed, 0, [], 0, 0, 0;
      stream := StreamOf(sha, seed);
    }

    /** Hashes the next counter value into the buffer. */
    method Refill()
      requires Valid() && off >= |buf|
      modifies this
      ensures Valid() && off == 0 && blocks == old(blocks) + 1 && pos == old(pos)
    {
      CounterStep(blocks);
      NextBlock(sha, seed, counter, blocks);
      buf := sha(seed + BigEndian(counter, CounterWidth));
      counter := (counter + 1) % TwoTo64;
      off := 0;
      blocks := blocks + 1;
    }

    /** The next byte of the keystream. */
    method Next() returns (b: Byte)
      requires Valid()
      modifies this
      ensures Valid() && pos == old(pos) + 1 && b == stream(old(pos))
    {
      if off >= |buf| { Refill(); }
      b := buf[off];
      off := off + 1;
      pos := pos + 1;
    }

    method NextWord() returns (v: int)
      requires Valid()
      modifies this
      ensures Valid() && pos == old(pos) + 4 && v == Word(stream, old(pos))
    {
      ghost var start := pos;
      v := Next();
      FirstByte(stream, start);
      for i := 1 to WordWidth
        invariant Valid() && pos == start + i && v == WordSoFar(stream, start, i)
      {
        var b: int := Next();
        NextByte(stream, start, i, v, b);
        v := v * 256 + b;
      }
    }

    /** Draws words until one is below the limit. */
    method Sample(limit: nat) returns (v: int, ghost k: nat)
      requires Valid() && SomeAccepted(stream, pos, limit)
      modifies this
      ensures Valid() && FirstAccepted(stream, old(pos), limit, k) && pos == old(pos) + 4 * (k + 1)
      ensures v == Word(stream, old(pos) + 4 * k)
    {
      ghost var start := pos;
      ghost var hit: nat :| Accepted(stream, start, limit, hit);
      k := 0;
      while true
        invariant Valid() && pos == start + 4 * k && Refused(stream, start, limit, k, hit)
        decreases hit - k
      {
        v := NextWord();
        if v < limit { return; }
        RefusedAgain(stream, start, limit, k, hit);
        k := k + 1;
      }
    }

    /** A value below m: the residue of the first accepted word. */
    method IntN(m: nat) returns (r: nat, ghost k: nat)
      requires Valid() && m < TwoTo32 && (m > 1 ==> SomeAccepted(stream, pos, Limit(m)))
      modifies this
      ensures Valid() && (m > 0 ==> r < m)
      ensures m <= 1 ==> r == 0 && pos == old(pos)
      ensures m > 1 ==> FirstAccepted(stream, old(pos), Limit(m), k) && pos == old(pos) + 4 * (k + 1)
      ensures m > 1 ==> r == Word(stream, old(pos) + 4 * k) % m
    {
      if m <= 1 { return 0, 0; }
      var v: int;
      v, k := Sample(Limit(m));
      r := v % m;
    }
  }

  // ---- no residue is favoured ------------------------------------------------------

  function Residues(m: nat, r: nat, top: nat): set<nat>
    requires m > 0
  {
    set v: nat | v < top && v % m == r
  }

  lemma {:induction false} ResidueCount(m: nat, r: nat, t: nat)
    requires 0 <= r < m
    ensures |Residues(m, r, t * m)| == t
  {
    if t == 0 { assert Residues(m, r, 0) == {}; return; }
    ResidueCount(m, r, t - 1);
    var low, v := (t - 1) * m, (t - 1) * m + r;
    OneResidue(m, r, t - 1);
    assert Residues(m, r, t * m) == Residues(m, r, low) + {v};
  }

  /** In one stretch of m values each residue occurs once. */
  lemma OneResidue(m: nat, r: nat, t: nat)
    requires 0 <= r < m
    ensures t * m + m == (t + 1) * m && forall v: nat :: t * m <= v < t * m + m ==> (v % m == r <==> v == t * m + r)
  {
    forall v: nat | t * m <= v < t * m + m ensures v % m == r <==> v == t * m + r {
      Remainder(m, t, v - t * m);
    }
  }

  lemma Remainder(m: nat, t: nat, d: nat)
    requires d < m
    ensures (t * m + d) % m == d
  {
    var x := t * m + d;
    assert x == (x / m) * m + x % m;
    WholeMultiples(x / m - t, m);
    assert (x / m - t) * m == d - x % m;
  }

  /**
   * Rejection sampling is unbiased: of the accepted 32-bit words exactly Limit(m) / m fall on each
   * residue, and at most m words are rejected.
   */
  lemma SamplingIsUnbiased(m: nat, r: nat)
    requires 0 < m < TwoTo32 && r < m
    ensures |Residues(m, r, Limit(m))| == (TwoTo32 - 1) / m
    ensures Limit(m) < TwoTo32 <= Limit(m) + m
  {
    ResidueCount(m, r, (TwoTo32 - 1) / m);
  }

  // ---- Fisher-Yates ------------------------------------------------------------------

  function Identity(n: nat): seq<nat> { seq(n, i requires i >= 0 => i) }

  function Swapped(p: seq<nat>, i: nat, j: nat): seq<nat>
    requires i < |p| && j < |p|
  {
    p[i := p[j]][j := p[i]]
  }

  /** Draws d[1..n], each at most its own index. */
  predicate Draws(d: seq<nat>, n: nat) { |d| == n && forall i :: 0 <= i < n ==> d[i] <= i }

  /** The swaps for indices i, i-1, ..., 1. */
  function Shuffled(p: seq<nat>, d: seq<nat>, i: nat): seq<nat>
    requires i < |p| && Draws(d, |p|)
    decreases i
  {
    if i == 0 then p else Shuffled(Swapped(p, i, d[i]), d, i - 1)
  }

  function PermutationOf(d: seq<nat>): seq<nat>
    requires Draws(d, |d|)
  {
    if d == [] then [] else Shuffled(Identity(|d|), d, |d| - 1)
  }

  /** What the loop holds once the swaps above index i are done. */
  function Partway(d: seq<nat>, i: nat): seq<nat>
    requires i < |d| && Draws(d, |d|)
    decreases |d| - i
  {
    if i == |d| - 1 then Identity(|d|) else SwapAt(Partway(d, i + 1), i + 1, d[i + 1])
  }

  function SwapAt(p: seq<nat>, i: nat, j: nat): seq<nat> { if i < |p| && j < |p| then Swapped(p, i, j) else p }

  lemma {:induction false} PartwayLength(d: seq<nat>, i: nat)
    requires i < |d| && Draws(d, |d|)
    ensures |Partway(d, i)| == |d|
    decreases |d| - i
  {
    if i < |d| - 1 { PartwayLength(d, i + 1); }
  }

  lemma {:induction false} PartwayContinues(d: seq<nat>, i: nat)
    requires i < |d| && Draws(d, |d|)
    ensures |Partway(d, i)| == |d| && Shuffled(Partway(d, i), d, i) == PermutationOf(d)
    decreases |d| - i
  {
    PartwayLength(d, i);
    if i < |d| - 1 { PartwayContinues(d, i + 1); }
  }

  method SwapSlots(a: array<nat>, i: nat, j: nat)
    requires i < a.Length && j < a.Length
    modifies a
    ensures a[..] == Swapped(old(a[..]), i, j)
  {
    a[i], a[j] := a[j], a[i];
  }

  // ---- the draws a stream determines --------------------------------------------------

  /** Where the stream stands when the loop, which counts down from n - 1, comes to index i. */
  ghost function PosAt(stream: Stream, n: nat, i: nat): nat
    requires i < n < TwoTo32 && Productive(stream, n)
    decreases n - i
  {
    if i == n - 1 then 0 else
      var pos := PosAt(stream, n, i + 1);
      assert Returns(stream, pos, i + 2);
      pos + 4 * (Attempt(stream, pos, Limit(i + 2)) + 1)
  }

  /** The draw for index i: the residue of the first word accepted from there on. */
  ghost function DrawAt(stream: Stream, n: nat, i: nat): (r: nat)
    requires i < n < TwoTo32 && Productive(stream, n)
    ensures r <= i
  {
    if i == 0 then 0 else
      var pos := PosAt(stream, n, i);
      assert Returns(stream, pos, i + 1);
      Word(stream, pos + 4 * Attempt(stream, pos, Limit(i + 1))) % (i + 1)
  }

  ghost function StreamDraws(stream: Stream, n: nat): (d: seq<nat>)
    requires n < TwoTo32 && Productive(stream, n)
    ensures Draws(d, n)
  {
    seq(n, i requires 0 <= i < n => DrawAt(stream, n, i))
  }

  /** The ordering a seed stands for: a function of the seed and the number of slots, and of nothing else. */
  ghost function SlotOrder(sha: Hash, seed: seq<Byte>, n: nat): seq<nat>
    requires Digests(sha) && n < TwoTo32 && Productive(StreamOf(sha, seed), n)
  {
    PermutationOf(StreamDraws(StreamOf(sha, seed), n))
  }

  /** The loop is about to draw for index i. */
  ghost predicate Underway(stream: Stream, n: nat, pos: nat, p: seq<nat>, i: nat) {
    i < n < TwoTo32 && Productive(stream, n) && pos == PosAt(stream, n, i) && p == Partway(StreamDraws(stream, n), i)
  }

  lemma UnderwayStep(stream: Stream, n: nat, pos: nat, p: seq<nat>, i: nat, j: nat, k: nat)
    requires Underway(stream, n, pos, p, i) && i > 0
    requires FirstAccepted(stream, pos, Limit(i + 1), k) && j == Word(stream, pos + 4 * k) % (i + 1)
    ensures |p| == n && j <= i && Underway(stream, n, pos + 4 * (k + 1), Swapped(p, i, j), i - 1)
  {
    FirstIsAttempt(stream, pos, Limit(i + 1), k);
    PartwayLength(StreamDraws(stream, n), i);
    assert StreamDraws(stream, n)[i] == DrawAt(stream, n, i) == j;
    assert PosAt(stream, n, i - 1) == pos + 4 * (k + 1);
  }

  lemma UnderwayStart(stream: Stream, n: nat, p: seq<nat>, i: nat)
    requires 0 < n < TwoTo32 && Productive(stream, n) && p == Identity(n) && i == n - 1
    ensures Underway(stream, n, 0, p, i)
  {}

  /** The sequence is what the stream's draws make of the identity. */
  ghost predicate Shuffles(stream: Stream, n: nat, p: seq<nat>) {
    n < TwoTo32 && Productive(stream, n) && p == PermutationOf(StreamDraws(stream, n)) && multiset(p) == multiset(Identity(n))
  }

  lemma UnderwayEnd(stream: Stream, n: nat, pos: nat, p: seq<nat>, i: nat)
    requires Underway(stream, n, pos, p, i) && i == 0
    ensures Shuffles(stream, n, p)
  {
    PartwayContinues(StreamDraws(stream, n), 0);
    ShuffleKeeps(Identity(n), StreamDraws(stream, n), n - 1);
  }

  lemma ProductiveAt(stream: Stream, n: nat, pos: nat, m: nat)
    requires n < TwoTo32 && Productive(stream, n) && 1 < m <= n
    ensures SomeAccepted(stream, pos, Limit(m))
  {
    assert Returns(stream, pos, m);
  }

  /** One turn of the loop: draw and swap. */
  method ShuffleStep(s: SeedStream, perm: array<nat>, i: nat)
    requires s.Valid() && i > 0 && Loop(s, perm, i)
    modifies s, perm
    ensures s.Valid() && Loop(s, perm, i - 1)
  {
    ProductiveAt(s.stream, perm.Length, s.pos, i + 1);
    ghost var start, was := s.pos, perm[..];
    var j, k := s.IntN(i + 1);
    assert perm[..] == was;
    UnderwayStep(s.stream, perm.Length, start, was, i, j, k);
    SwapSlots(perm, i, j);
  }

  method ShuffleAll(s: SeedStream, perm: array<nat>)
    requires s.Valid() && s.pos == 0 && 0 < perm.Length < TwoTo32 && Productive(s.stream, perm.Length)
    requires perm[..] == Identity(perm.Length)
    modifies s, perm
    ensures Shuffles(s.stream, perm.Length, perm[..])
  {
    var i: nat := perm.Length - 1;
    LoopStarts(s, perm, i);
    while i > 0
      invariant s.Valid() && Loop(s, perm, i)
    {
      ShuffleStep(s, perm, i);
      i := i - 1;
    }
    LoopEnds(s, perm, i);
  }

  lemma LoopStarts(s: SeedStream, perm: array<nat>, i: nat)
    requires s.pos == 0 && 0 < perm.Length < TwoTo32 && Productive(s.stream, perm.Length)
    requires perm[..] == Identity(perm.Length) && i == perm.Length - 1
    ensures Loop(s, perm, i)
  {
    UnderwayStart(s.stream, perm.Length, perm[..], i);
  }

  lemma LoopEnds(s: SeedStream, perm: array<nat>, i: nat)
    requires Loop(s, perm, i) && i == 0
    ensures Shuffles(s.stream, perm.Length, perm[..])
  {
    UnderwayEnd(s.stream, perm.Length, s.pos, perm[..], i);
  }

  /** The loop's invariant, on the objects it works on. */
  ghost predicate Loop(s: SeedStream, perm: array<nat>, i: nat)
    reads s, perm
  {
    Underway(s.stream, perm.Length, s.pos, perm[..], i)
  }

  method NewIdentity(n: nat) returns (perm: array<nat>)
    ensures fresh(perm) && perm[..] == Identity(n)
  {
    perm := new nat[n](i => i);
  }

  /** Every holder of the seed computes the same ordering, and it is a permutation. */
  method SlotPermutation(sha: Hash, seed: seq<Byte>, n: nat) returns (perm: array<nat>)
    requires Digests(sha) && n < TwoTo32 && Productive(StreamOf(sha, seed), n)
    ensures fresh(perm) && perm[..] == SlotOrder(sha, seed, n)
    ensures multiset(perm[..]) == multiset(Identity(n))
  {
    perm := NewIdentity(n);
    if n == 0 { return; }
    var s := new SeedStream(sha, seed);
    ShuffleAll(s, perm);
  }

  /** No two participants get the same slot. */
  lemma SlotsAreDistinct(sha: Hash, seed: seq<Byte>, n: nat, a: nat, b: nat)
    requires Digests(sha) && n < TwoTo32 && Productive(StreamOf(sha, seed), n) && a < b < n
    ensures |SlotOrder(sha, seed, n)| == n && SlotOrder(sha, seed, n)[a] != SlotOrder(sha, seed, n)[b]
  {
    OrderIsDistinct(StreamDraws(StreamOf(sha, seed), n));
  }

  lemma OrderIsDistinct(d: seq<nat>)
    requires d != [] && Draws(d, |d|)
    ensures |PermutationOf(d)| == |d| && Distinct(PermutationOf(d))
  {
    ShuffledIsDistinct(Identity(|d|), d, |d| - 1);
  }

  lemma {:induction false} ShuffledIsDistinct(p: seq<nat>, d: seq<nat>, i: nat)
    requires i < |p| && Draws(d, |p|) && Distinct(p)
    ensures |Shuffled(p, d, i)| == |p| && Distinct(Shuffled(p, d, i))
    decreases i
  {
    if i > 0 {
      SwapDistinct(p, i, d[i]);
      ShuffledIsDistinct(Swapped(p, i, d[i]), d, i - 1);
    }
  }

  lemma SwapKeeps(p: seq<nat>, i: nat, j: nat)
    requires i < |p| && j < |p|
    ensures multiset(Swapped(p, i, j)) == multiset(p)
  {}

  lemma {:induction false} ShuffleKeeps(p: seq<nat>, d: seq<nat>, i: nat)
    requires i < |p| && Draws(d, |p|)
    ensures multiset(Shuffled(p, d, i)) == multiset(p)
    decreases i
  {
    if i > 0 {
      SwapKeeps(p, i, d[i]);
      ShuffleKeeps(Swapped(p, i, d[i]), d, i - 1);
    }
  }

  // ---- every outcome from exactly one draw vector -------------------------------------

  /** Swaps at or below i do not touch what is above. */
  lemma {:induction false} ShuffleFixes(p: seq<nat>, d: seq<nat>, i: nat)
    requires i < |p| && Draws(d, |p|)
    ensures |Shuffled(p, d, i)| == |p| && forall k :: i < k < |p| ==> Shuffled(p, d, i)[k] == p[k]
    decreases i
  {
    if i > 0 { ShuffleFixes(Swapped(p, i, d[i]), d, i - 1); }
  }

  lemma {:induction false} DrawsAreRecovered(p: seq<nat>, d: seq<nat>, e: seq<nat>, i: nat)
    requires i < |p| && Draws(d, |p|) && Draws(e, |p|) && Distinct(p)
    requires Shuffled(p, d, i) == Shuffled(p, e, i)
    ensures forall k :: 1 <= k <= i ==> d[k] == e[k]
    decreases i
  {
    if i == 0 { return; }
    var q, r := Swapped(p, i, d[i]), Swapped(p, i, e[i]);
    SwappedAt(p, i, d[i]);
    SwappedAt(p, i, e[i]);
    ShuffleFixes(q, d, i - 1);
    ShuffleFixes(r, e, i - 1);
    assert Shuffled(q, d, i - 1)[i] == Shuffled(r, e, i - 1)[i];
    SwapDistinct(p, i, d[i]);
    DrawsAreRecovered(Swapped(p, i, d[i]), d, e, i - 1);
  }

  lemma SwappedAt(p: seq<nat>, i: nat, j: nat)
    requires i < |p| && j < |p|
    ensures |Swapped(p, i, j)| == |p| && Swapped(p, i, j)[i] == p[j] && Swapped(p, i, j)[j] == p[i]
  {}

  lemma SwapDistinct(p: seq<nat>, i: nat, j: nat)
    requires i < |p| && j < |p| && Distinct(p)
    ensures Distinct(Swapped(p, i, j))
  {}

  /** Different draws give different permutations. */
  lemma ShuffleIsInjective(d: seq<nat>, e: seq<nat>)
    requires Draws(d, |d|) && Draws(e, |d|) && PermutationOf(d) == PermutationOf(e)
    ensures d == e
  {
    if d == [] { return; }
    DrawsAreRecovered(Identity(|d|), d, e, |d| - 1);
    assert d[0] == e[0] == 0;
  }

  lemma {:induction false} DrawsReach(p: seq<nat>, q: seq<nat>, i: nat) returns (d: seq<nat>)
    requires i < |p| == |q| && multiset(p[..i + 1]) == multiset(q[..i + 1])
    requires forall k :: i < k < |p| ==> p[k] == q[k]
    ensures Draws(d, |p|) && Shuffled(p, d, i) == q
    decreases i
  {
    if i == 0 {
      d := seq(|p|, _ => 0);
      assert p[..1] == [p[0]] && q[..1] == [q[0]];
      assert multiset{p[0]} == multiset{q[0]};
      assert p[0] in multiset{q[0]};
      assert p == q;
      return;
    }
    var j := FindIn(p, q, i);
    var p' := Swapped(p, i, j);
    SwapPrefix(p, q, i, j);
    d := DrawsReach(p', q, i - 1);
    var e := d[i := j];
    SameBelow(p', d, e, i - 1);
    d := e;
  }

  lemma FindIn(p: seq<nat>, q: seq<nat>, i: nat) returns (j: nat)
    requires i < |p| == |q| && multiset(p[..i + 1]) == multiset(q[..i + 1])
    ensures j <= i && p[j] == q[i]
  {
    assert q[..i + 1][i] == q[i];
    assert q[i] in multiset(p[..i + 1]);
    j :| 0 <= j < i + 1 && p[..i + 1][j] == q[i];
  }

  lemma SwapPrefix(p: seq<nat>, q: seq<nat>, i: nat, j: nat)
    requires j <= i < |p| == |q| && multiset(p[..i + 1]) == multiset(q[..i + 1]) && p[j] == q[i]
    ensures multiset(Swapped(p, i, j)[..i]) == multiset(q[..i])
  {
    var p' := Swapped(p, i, j);
    assert p'[..i + 1] == Swapped(p[..i + 1], i, j);
    SwapKeeps(p[..i + 1], i, j);
    WithoutOne(p'[..i + 1], i);
    WithoutOne(q[..i + 1], i);
    DropLast(p', i);
    DropLast(q, i);
  }

  lemma DropLast(p: seq<nat>, i: nat)
    requires i < |p|
    ensures p[..i + 1][..i] + p[..i + 1][i + 1..] == p[..i] && p[..i + 1][i] == p[i]
  {}

  lemma {:induction false} SameBelow(p: seq<nat>, d: seq<nat>, e: seq<nat>, i: nat)
    requires i < |p| && Draws(d, |p|) && Draws(e, |p|) && forall k :: 0 <= k <= i ==> d[k] == e[k]
    ensures Shuffled(p, d, i) == Shuffled(p, e, i)
    decreases i
  {
    if i > 0 { SameBelow(Swapped(p, i, d[i]), d, e, i - 1); }
  }

  /** Every permutation of [0, n) comes from some draws: with injectivity, a bijection. */
  lemma ShuffleIsSurjective(q: seq<nat>) returns (d: seq<nat>)
    requires multiset(q) == multiset(Identity(|q|))
    ensures Draws(d, |q|) && PermutationOf(d) == q
  {
    if q == [] { return []; }
    var n := |q|;
    assert Identity(n)[..n] == Identity(n) && q[..n] == q;
    d := DrawsReach(Identity(n), q, n - 1);
  }
}

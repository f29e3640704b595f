/**
 * Handle lifetimes in pkg/ares/crypto/cgo/incremental_combine.go. Native objects live in a table until
 * freed; freeing needs a live handle and handles are not reused, so a double free or a use after free
 * does not verify, and a leak shows as a table that has not gone back to what it was.
 */
module NativeHandles {
  import opened Wrappers
  import opened Sequences
  import opened Combine

  class Heap {
    var rots: map<nat, KeyMap>
    var pubs: map<nat, Pub>
    var avecs: map<nat, AVec>
    var next: nat
    /** The most rotation-key handles that were ever live at once. */
    ghost var peak: nat

    ghost predicate Valid()
      reads this
    {
      && (forall h :: h in rots ==> h < next) && (forall h :: h in pubs ==> h < next) && (forall h :: h in avecs ==> h < next)
      && |rots| <= peak
    }

    method NewRot(k: KeyMap) returns (h: nat)
      requires Valid()
      modifies this
      ensures Valid() && h !in old(rots) && rots == old(rots)[h := k] && pubs == old(pubs) && avecs == old(avecs)
      ensures peak == Max(old(peak), |old(rots)| + 1)
    {
      h := next;
      rots, next := rots[h := k], next + 1;
      peak := Max(peak, |rots|);
    }

    method NewPub(k: Pub) returns (h: nat)
      requires Valid()
      modifies this
      ensures Valid() && h !in old(pubs) && pubs == old(pubs)[h := k] && rots == old(rots) && avecs == old(avecs) && peak == old(peak)
    {
      h := next;
      pubs, next := pubs[h := k], next + 1;
    }

    method NewAVec(k: AVec) returns (h: nat)
      requires Valid()
      modifies this
      ensures Valid() && h !in old(avecs) && avecs == old(avecs)[h := k] && rots == old(rots) && pubs == old(pubs) && peak == old(peak)
    {
      h := next;
      avecs, next := avecs[h := k], next + 1;
    }

    method FreeRot(h: nat)
      requires Valid() && h in rots
      modifies this
      ensures Valid() && rots == old(rots) - {h} && pubs == old(pubs) && avecs == old(avecs) && peak == old(peak)
    {
      assert rots.Keys == (rots - {h}).Keys + {h};
      rots := rots - {h};
    }

    method FreePub(h: nat)
      requires Valid() && h in pubs
      modifies this
      ensures Valid() && pubs == old(pubs) - {h} && rots == old(rots) && avecs == old(avecs) && peak == old(peak)
    {
      pubs := pubs - {h};
    }

    method FreeAVec(h: nat)
      requires Valid() && h in avecs
      modifies this
      ensures Valid() && avecs == old(avecs) - {h} && rots == old(rots) && pubs == old(pubs) && peak == old(peak)
    {
      avecs := avecs - {h};
    }

    /** Updates the accumulator in place; a failing fold leaves it as it was. */
    method FoldInto(c: Native, acc: nat, pk: nat, share: nat) returns (ok: bool)
      requires Valid() && acc in rots && share in rots && pk in pubs
      modifies this
      ensures Valid() && pubs == old(pubs) && avecs == old(avecs) && peak == old(peak)
      ensures ok <==> Fold(c, old(rots)[acc], pubs[pk], old(rots)[share]).Some?
      ensures rots == if ok then old(rots)[acc := Fold(c, old(rots)[acc], pubs[pk], old(rots)[share]).value] else old(rots)
    {
      var r := Fold(c, rots[acc], pubs[pk], rots[share]);
      if r.None? { return false; }
      rots := rots[acc := r.value];
      return true;
    }

    method MergeInto(c: Native, into: nat, other: nat) returns (ok: bool)
      requires Valid() && into in rots && other in rots
      modifies this
      ensures Valid() && pubs == old(pubs) && avecs == old(avecs) && peak == old(peak)
      ensures ok <==> c.merged(old(rots)[into], old(rots)[other])
      ensures rots == if ok then old(rots)[into := old(rots)[into] + old(rots)[other]] else old(rots)
    {
      if !c.merged(rots[into], rots[other]) { return false; }
      rots := rots[into := rots[into] + rots[other]];
      return true;
    }
  }

  function Max(a: nat, b: nat): nat { if a < b then b else a }

  /** A copy of a seed; the seed is freed by the caller either way. */
  method CombineStart(n: Heap, c: Native, seed: nat) returns (acc: Option<nat>)
    requires n.Valid() && seed in n.rots
    modifies n
    ensures n.Valid() && n.pubs == old(n.pubs) && n.avecs == old(n.avecs)
    ensures acc.Some? <==> c.started(old(n.rots)[seed])
    ensures acc.Some? ==> acc.value !in old(n.rots) && n.rots == old(n.rots)[acc.value := old(n.rots)[seed]]
    ensures acc.None? ==> n.rots == old(n.rots)
    ensures n.peak <= Max(old(n.peak), |old(n.rots)| + 1)
  {
    if !c.started(n.rots[seed]) { return None; }
    var h := n.NewRot(n.rots[seed]);
    return Some(h);
  }

  // ---- the a-vector cache --------------------------------------------------------------

  type Cache = map<string, nat>

  /** The table holds what it held before, and one live a-vector per cached reference, read from that reference. */
  ghost predicate CacheOk(avecs: map<nat, AVec>, base: map<nat, AVec>, cache: Cache, c: Native, resolve: Resolver) {
    && Injective(cache)
    && (forall h :: h in avecs <==> h in base || h in cache.Values)
    && (forall h :: h in base ==> h !in cache.Values && avecs[h] == base[h])
    && forall a :: a in cache ==> resolve(a).Some? && c.readA(resolve(a).value) == Some(avecs[cache[a]])
  }

  lemma CacheGrows(avecs: map<nat, AVec>, base: map<nat, AVec>, cache: Cache, c: Native, resolve: Resolver, a: string, h: nat, v: AVec)
    requires CacheOk(avecs, base, cache, c, resolve) && a !in cache && h !in avecs
    requires resolve(a).Some? && c.readA(resolve(a).value) == Some(v)
    ensures CacheOk(avecs[h := v], base, cache[a := h], c, resolve)
  {
    var next := cache[a := h];
    assert forall x :: x in next.Values <==> x in cache.Values || x == h by {
      assert next[a] == h;
      assert forall k :: k in cache ==> next[k] == cache[k];
    }
  }

  /** Loads the a-part through the cache: each reference is resolved and read at most once. */
  method CachedAVec(n: Heap, c: Native, resolve: Resolver, aRef: string, cache: Cache, ghost base: map<nat, AVec>)
    returns (h: Option<nat>, cache': Cache)
    requires n.Valid() && CacheOk(n.avecs, base, cache, c, resolve)
    modifies n
    ensures n.Valid() && CacheOk(n.avecs, base, cache', c, resolve) && n.rots == old(n.rots) && n.pubs == old(n.pubs) && n.peak == old(n.peak)
    ensures h.None? <==> resolve(aRef).None? || c.readA(resolve(aRef).value).None?
    ensures h.Some? ==> h.value in n.avecs && c.readA(resolve(aRef).value) == Some(n.avecs[h.value])
  {
    cache' := cache;
    if aRef in cache {
      assert cache[aRef] in cache.Values;
      return Some(cache[aRef]), cache;
    }
    var raw := resolve(aRef);
    if raw.None? { return None, cache; }
    var a := c.readA(raw.value);
    if a.None? { return None, cache; }
    ghost var before := n.avecs;
    var v := n.NewAVec(a.value);
    CacheGrows(before, base, cache, c, resolve, aRef, v, a.value);
    return Some(v), cache[aRef := v];
  }

  /** Frees every cached a-vector once. */
  method FreeCache(n: Heap, cache: Cache, ghost base: map<nat, AVec>, ghost c: Native, ghost resolve: Resolver)
    requires n.Valid() && CacheOk(n.avecs, base, cache, c, resolve)
    modifies n
    ensures n.Valid() && n.avecs == base && n.rots == old(n.rots) && n.pubs == old(n.pubs) && n.peak == old(n.peak)
  {
    var left := cache;
    while left.Keys != {}
      invariant n.Valid() && CacheOk(n.avecs, base, left, c, resolve)
      invariant n.rots == old(n.rots) && n.pubs == old(n.pubs) && n.peak == old(n.peak)
      decreases |left.Keys|
    {
      var a :| a in left.Keys;
      assert left[a] in left.Values;
      CacheShrinks(n.avecs, base, left, c, resolve, a);
      n.FreeAVec(left[a]);
      OneKeyFewer(left, a);
      left := left - {a};
    }
    NothingCached(n.avecs, base, left, c, resolve);
  }

  lemma OneKeyFewer(cache: Cache, a: string)
    requires a in cache
    ensures |(cache - {a}).Keys| < |cache.Keys|
  {
    assert cache.Keys == (cache - {a}).Keys + {a};
  }

  lemma NothingCached(avecs: map<nat, AVec>, base: map<nat, AVec>, cache: Cache, c: Native, resolve: Resolver)
    requires CacheOk(avecs, base, cache, c, resolve) && cache.Keys == {}
    ensures avecs == base
  {
    assert cache == map[];
  }

  lemma CacheShrinks(avecs: map<nat, AVec>, base: map<nat, AVec>, cache: Cache, c: Native, resolve: Resolver, a: string)
    requires CacheOk(avecs, base, cache, c, resolve) && a in cache
    ensures CacheOk(avecs - {cache[a]}, base, cache - {a}, c, resolve)
  {
    var h, rest := cache[a], cache - {a};
    assert h in cache.Values;
    assert forall x :: x in rest.Values <==> x in cache.Values && x != h by {
      assert forall k :: k in rest ==> rest[k] == cache[k] && k != a;
      assert forall k :: k in cache && k != a ==> k in rest && rest[k] != h;
    }
  }

  /** One key through the cache: a fresh handle to the map the uncached resolver would give, or nothing at all. */
  method LoadCached(n: Heap, c: Native, resolve: Resolver, r: KeyRef, cache: Cache, ghost base: map<nat, AVec>)
    returns (h: Option<nat>, cache': Cache)
    requires n.Valid() && CacheOk(n.avecs, base, cache, c, resolve)
    modifies n
    ensures n.Valid() && CacheOk(n.avecs, base, cache', c, resolve) && n.pubs == old(n.pubs)
    ensures h.Some? <==> Load(c, resolve, r).Some?
    ensures h.Some? ==> h.value !in old(n.rots) && n.rots == old(n.rots)[h.value := Load(c, resolve, r).value]
    ensures h.None? ==> n.rots == old(n.rots)
    ensures n.peak <= Max(old(n.peak), |old(n.rots)| + 1)
  {
    cache' := cache;
    if r.whole != "" && r.aRef == "" && r.bRef == "" {
      var raw := resolve(r.whole);
      if raw.None? { return None, cache; }
      var k := c.readRot(raw.value);
      if k.None? { return None, cache; }
      var x := n.NewRot(k.value);
      return Some(x), cache;
    }
    if !(r.whole == "" && r.aRef != "" && r.bRef != "") { return None, cache; }
    var a;
    a, cache' := CachedAVec(n, c, resolve, r.aRef, cache, base);
    if a.None? { return None, cache'; }
    var b := resolve(r.bRef);
    if b.None? { return None, cache'; }
    var k := c.rebuild(n.avecs[a.value], b.value);
    if k.None? { return None, cache'; }
    var x := n.NewRot(k.value);
    return Some(x), cache';
  }

  // ---- one index -----------------------------------------------------------------------------

  /** The lead's share as accumulator. */
  method SeedIndex(n: Heap, c: Native, resolve: Resolver, r: KeyRef, cache: Cache, ghost base: map<nat, AVec>)
    returns (acc: Option<nat>, cache': Cache)
    requires n.Valid() && CacheOk(n.avecs, base, cache, c, resolve)
    modifies n
    ensures n.Valid() && CacheOk(n.avecs, base, cache', c, resolve) && n.pubs == old(n.pubs)
    ensures acc.Some? <==> Load(c, resolve, r).Some? && c.started(Load(c, resolve, r).value)
    ensures acc.Some? ==> acc.value !in old(n.rots) && n.rots == old(n.rots)[acc.value := Load(c, resolve, r).value]
    ensures acc.None? ==> n.rots == old(n.rots)
    ensures n.peak <= Max(old(n.peak), |old(n.rots)| + 2)
  {
    var seed;
    seed, cache' := LoadCached(n, c, resolve, r, cache, base);
    if seed.None? { return None, cache'; }
    acc := CombineStart(n, c, seed.value);
    ghost var k := Load(c, resolve, r).value;
    if acc.Some? { SwapHandle(old(n.rots), seed.value, acc.value, k); } else { AddThenRemove(old(n.rots), seed.value, k); }
    n.FreeRot(seed.value);
  }

  /** Loads a share, folds it into the accumulator, and frees it at once. */
  method FoldShare(n: Heap, c: Native, resolve: Resolver, r: KeyRef, acc: nat, pk: nat, cache: Cache, ghost base: map<nat, AVec>)
    returns (ok: bool, cache': Cache)
    requires n.Valid() && CacheOk(n.avecs, base, cache, c, resolve) && acc in n.rots && pk in n.pubs
    modifies n
    ensures n.Valid() && CacheOk(n.avecs, base, cache', c, resolve) && n.pubs == old(n.pubs)
    ensures var next := Folded(c, old(n.rots)[acc], Some(old(n.pubs)[pk]), Load(c, resolve, r));
      ok == next.Some? && n.rots == if ok then old(n.rots)[acc := next.value] else old(n.rots)
    ensures n.peak <= Max(old(n.peak), |old(n.rots)| + 1)
  {
    var share;
    share, cache' := LoadCached(n, c, resolve, r, cache, base);
    if share.None? { return false, cache'; }
    ok := n.FoldInto(c, acc, pk, share.value);
    SetThenRemove(old(n.rots), share.value, Load(c, resolve, r).value, acc, n.rots[acc]);
    n.FreeRot(share.value);
  }

  function Folded(c: Native, acc: KeyMap, pk: Option<Pub>, share: Option<KeyMap>): Option<KeyMap> {
    if pk.None? || share.None? then None else Fold(c, acc, pk.value, share.value)
  }

  lemma SwapHandle(m: map<nat, KeyMap>, h: nat, acc: nat, k: KeyMap)
    requires h !in m && acc !in m[h := k]
    ensures m[h := k][acc := k] - {h} == m[acc := k]
  {}

  lemma SetThenRemove(m: map<nat, KeyMap>, h: nat, k: KeyMap, acc: nat, v: KeyMap)
    requires h !in m && acc in m
    ensures m[h := k][acc := v] - {h} == m[acc := v] && m[h := k] - {h} == m
  {}

  lemma AddThenRemove<V>(m: map<nat, V>, h: nat, v: V)
    requires h !in m
    ensures m[h := v] - {h} == m
  {}

  /** One party folded into a live accumulator; a failure leaves the accumulator for the caller to free. */
  method FoldParty(n: Heap, c: Native, resolve: Resolver, pkBytes: Bytes, r: KeyRef, acc: nat, cache: Cache, ghost base: map<nat, AVec>)
    returns (ok: bool, cache': Cache)
    requires n.Valid() && CacheOk(n.avecs, base, cache, c, resolve) && acc in n.rots
    modifies n
    ensures n.Valid() && CacheOk(n.avecs, base, cache', c, resolve) && n.pubs == old(n.pubs)
    ensures var next := Folded(c, old(n.rots)[acc], c.readPub(pkBytes), Load(c, resolve, r));
      ok == next.Some? && n.rots == if ok then old(n.rots)[acc := next.value] else old(n.rots)
    ensures n.peak <= Max(old(n.peak), |old(n.rots)| + 1)
  {
    var pub := c.readPub(pkBytes);
    if pub.None? { return false, cache; }
    var pk := n.NewPub(pub.value);
    AddThenRemove(old(n.pubs), pk, pub.value);
    ok, cache' := FoldShare(n, c, resolve, r, acc, pk, cache, base);
    n.FreePub(pk);
  }

  function Loaded(c: Native, resolve: Resolver, refs: seq<KeyRef>): seq<Option<KeyMap>> {
    seq(|refs|, p requires 0 <= p < |refs| => Load(c, resolve, refs[p]))
  }

  /** The table is `rest` and an accumulator holding r, or just `rest` when there is none. */
  ghost predicate Holds(rots: map<nat, KeyMap>, rest: map<nat, KeyMap>, acc: nat, r: Option<KeyMap>) {
    acc !in rest && rots == if r.Some? then rest[acc := r.value] else rest
  }

  /** What becomes of an accumulator once parties p and up have been folded in. */
  ghost function FoldOnward(c: Native, pks: seq<Bytes>, shares: seq<Option<KeyMap>>, acc: KeyMap, p: nat): Option<KeyMap>
    requires p <= |shares| <= |pks|
    decreases |shares| - p
  {
    if p == |shares| then Some(acc) else
      var next := Folded(c, acc, c.readPub(pks[p]), shares[p]);
      if next.None? then None else FoldOnward(c, pks, shares, next.value, p + 1)
  }

  lemma OnwardStep(c: Native, pks: seq<Bytes>, shares: seq<Option<KeyMap>>, acc: KeyMap, p: nat)
    requires p < |shares| <= |pks|
    ensures var next := Folded(c, acc, c.readPub(pks[p]), shares[p]);
      FoldOnward(c, pks, shares, acc, p) == if next.None? then None else FoldOnward(c, pks, shares, next.value, p + 1)
  {}

  lemma {:induction false} OnwardIsFold(c: Native, pks: seq<Bytes>, shares: seq<Option<KeyMap>>, p: nat)
    requires p < |shares| <= |pks|
    ensures var r, all := FoldIndex(c, pks, shares, p), FoldIndex(c, pks, shares, |shares| - 1);
      if r.None? then all.None? else all == FoldOnward(c, pks, shares, r.value, p + 1)
    decreases |shares| - p
  {
    if p + 1 < |shares| { OnwardIsFold(c, pks, shares, p + 1); }
  }

  /** Party p folded in; on failure the accumulator is freed. */
  method FoldStep(n: Heap, c: Native, resolve: Resolver, pk: Bytes, r: KeyRef, acc: nat, cache: Cache,
                  ghost base: map<nat, AVec>, ghost rest: map<nat, KeyMap>, ghost cur: KeyMap)
    returns (ok: bool, cache': Cache)
    requires n.Valid() && CacheOk(n.avecs, base, cache, c, resolve) && Holds(n.rots, rest, acc, Some(cur))
    modifies n
    ensures n.Valid() && CacheOk(n.avecs, base, cache', c, resolve) && n.pubs == old(n.pubs)
    ensures var next := Folded(c, cur, c.readPub(pk), Load(c, resolve, r)); ok == next.Some? && Holds(n.rots, rest, acc, next)
    ensures n.peak <= Max(old(n.peak), |rest| + 2)
  {
    ok, cache' := FoldParty(n, c, resolve, pk, r, acc, cache, base);
    if !ok {
      AddThenRemove(rest, acc, cur);
      n.FreeRot(acc);
    }
  }

  /** Parties 1 and up, folded into the lead's accumulator. */
  method FoldRest(n: Heap, c: Native, resolve: Resolver, pks: seq<Bytes>, refs: seq<KeyRef>, acc: nat, cache: Cache,
                  ghost base: map<nat, AVec>, ghost rest: map<nat, KeyMap>, ghost shares: seq<Option<KeyMap>>, ghost seed: KeyMap)
    returns (ok: bool, cache': Cache)
    requires n.Valid() && CacheOk(n.avecs, base, cache, c, resolve) && 0 < |refs| <= |pks| && Holds(n.rots, rest, acc, Some(seed))
    requires |shares| == |refs| && forall p :: 0 <= p < |refs| ==> shares[p] == Load(c, resolve, refs[p])
    modifies n
    ensures n.Valid() && CacheOk(n.avecs, base, cache', c, resolve) && n.pubs == old(n.pubs)
    ensures var r := FoldOnward(c, pks, shares, seed, 1); ok == r.Some? && Holds(n.rots, rest, acc, r)
    ensures n.peak <= Max(old(n.peak), |rest| + 2)
  {
    cache', ok := cache, true;
    ghost var cur := seed;
    for p := 1 to |refs|
      invariant n.Valid() && CacheOk(n.avecs, base, cache', c, resolve) && n.pubs == old(n.pubs) && ok
      invariant FoldOnward(c, pks, shares, seed, 1) == FoldOnward(c, pks, shares, cur, p) && Holds(n.rots, rest, acc, Some(cur))
      invariant n.peak <= Max(old(n.peak), |rest| + 2)
    {
      ghost var next := Folded(c, cur, c.readPub(pks[p]), shares[p]);
      OnwardStep(c, pks, shares, cur, p);
      ok, cache' := FoldStep(n, c, resolve, pks[p], refs[p], acc, cache', base, rest, cur);
      if !ok { return; }
      cur := next.value;
    }
  }

  /** One index folded over all parties: a single live accumulator, or nothing. */
  method FoldIndexAt(n: Heap, c: Native, resolve: Resolver, pks: seq<Bytes>, refs: seq<KeyRef>, cache: Cache, ghost base: map<nat, AVec>)
    returns (acc: Option<nat>, cache': Cache)
    requires n.Valid() && CacheOk(n.avecs, base, cache, c, resolve) && 0 < |refs| <= |pks|
    modifies n
    ensures n.Valid() && CacheOk(n.avecs, base, cache', c, resolve) && n.pubs == old(n.pubs)
    ensures var r := FoldIndex(c, pks, Loaded(c, resolve, refs), |refs| - 1);
      if acc.None? then r.None? && n.rots == old(n.rots) else r.Some? && Holds(n.rots, old(n.rots), acc.value, r)
    ensures n.peak <= Max(old(n.peak), |old(n.rots)| + 2)
  {
    ghost var shares, rest := Loaded(c, resolve, refs), n.rots;
    OnwardIsFold(c, pks, shares, 0);
    acc, cache' := SeedIndex(n, c, resolve, refs[0], cache, base);
    if acc.None? { return; }
    var ok;
    ok, cache' := FoldRest(n, c, resolve, pks, refs, acc.value, cache', base, rest, shares, shares[0].value);
    if !ok { acc := None; }
  }

  // ---- all indices -----------------------------------------------------------------------------

  /** What becomes of the merged map once indices k and up, folded to `accs`, have been merged in. */
  ghost function MergeOnward(c: Native, accs: seq<Option<KeyMap>>, final: Option<KeyMap>, k: nat): Option<KeyMap>
    requires k <= |accs|
    decreases |accs| - k
  {
    if k == |accs| then final else
      var next := MergedWith(c, final, accs[k]);
      if next.None? then None else MergeOnward(c, accs, next, k + 1)
  }

  function MergedWith(c: Native, final: Option<KeyMap>, acc: Option<KeyMap>): Option<KeyMap> {
    if acc.None? then None
    else if final.None? then acc
    else if c.merged(final.value, acc.value) then Some(final.value + acc.value) else None
  }

  lemma {:induction false} OnwardIsMerge(c: Native, accs: seq<Option<KeyMap>>, k: nat)
    requires k <= |accs| && accs != []
    ensures var done, all := MergeIndices(c, accs, k), MergeIndices(c, accs, |accs|);
      if done.None? then all.None? else all == MergeOnward(c, accs, if k == 0 then None else done, k)
    decreases |accs| - k
  {
    if k < |accs| { OnwardIsMerge(c, accs, k + 1); }
  }

  /** The table is `rest` and the merged map so far, if there is one. */
  ghost predicate Held(rots: map<nat, KeyMap>, rest: map<nat, KeyMap>, final: Option<nat>, m: Option<KeyMap>) {
    if final.None? then m.None? && rots == rest else m.Some? && Holds(rots, rest, final.value, m)
  }

  /** Frees the merged map, if there is one: the deferred cleanup. */
  method FreeFinal(n: Heap, final: Option<nat>, ghost rest: map<nat, KeyMap>, ghost m: Option<KeyMap>)
    requires n.Valid() && Held(n.rots, rest, final, m)
    modifies n
    ensures n.Valid() && n.rots == rest && n.pubs == old(n.pubs) && n.avecs == old(n.avecs) && n.peak == old(n.peak)
  {
    if final.Some? {
      AddThenRemove(rest, final.value, m.value);
      n.FreeRot(final.value);
    }
  }

  /** One folded index merged into the result; its handle becomes the result or is freed. */
  method MergeAcc(n: Heap, c: Native, final: Option<nat>, acc: nat, ghost rest: map<nat, KeyMap>, ghost m: Option<KeyMap>, ghost a: KeyMap)
    returns (ok: bool, final': Option<nat>)
    requires n.Valid() && (if final.None? then m.None? && Holds(n.rots, rest, acc, Some(a))
      else m.Some? && final.value !in rest && acc !in rest && acc != final.value && n.rots == rest[final.value := m.value][acc := a])
    modifies n
    ensures n.Valid() && n.pubs == old(n.pubs) && n.avecs == old(n.avecs) && n.peak == old(n.peak)
    ensures var next := MergedWith(c, m, Some(a)); ok == next.Some? && Held(n.rots, rest, final', if ok then next else m)
  {
    if final.None? { return true, Some(acc); }
    final' := final;
    ok := n.MergeInto(c, final.value, acc);
    ReplaceThenRemove(rest, final.value, m.value, n.rots[final.value], acc, a);
    n.FreeRot(acc);
  }

  lemma ReplaceThenRemove(rest: map<nat, KeyMap>, f: nat, m: KeyMap, v: KeyMap, h: nat, a: KeyMap)
    requires f !in rest && h !in rest && h != f
    ensures rest[f := m][h := a][f := v] - {h} == rest[f := v] && rest[f := m][h := a] - {h} == rest[f := m]
  {}

  /** The parties' references for one index. */
  function RefsAt(keyed: seq<map<int, KeyRef>>, index: int): seq<KeyRef>
    requires forall p :: 0 <= p < |keyed| ==> index in keyed[p]
  {
    seq(|keyed|, p requires 0 <= p < |keyed| => keyed[p][index])
  }

  ghost predicate Keyed(keyed: seq<map<int, KeyRef>>, indices: seq<int>) {
    forall p, k :: 0 <= p < |keyed| && 0 <= k < |indices| ==> indices[k] in keyed[p]
  }

  /** Every index, resolved without a cache and folded over the parties. */
  ghost function FoldUncached(c: Native, resolve: Resolver, pks: seq<Bytes>, keyed: seq<map<int, KeyRef>>, indices: seq<int>): seq<Option<KeyMap>>
    requires 0 < |keyed| <= |pks| && Keyed(keyed, indices)
  {
    seq(|indices|, k requires 0 <= k < |indices| => FoldRefs(c, resolve, pks, RefsAt(keyed, indices[k])))
  }

  /** One index's references, resolved without a cache and folded over the parties. */
  ghost function FoldRefs(c: Native, resolve: Resolver, pks: seq<Bytes>, refs: seq<KeyRef>): Option<KeyMap>
    requires 0 < |refs| <= |pks|
  {
    FoldIndex(c, pks, Loaded(c, resolve, refs), |refs| - 1)
  }

  lemma FoldUncachedAt(c: Native, resolve: Resolver, pks: seq<Bytes>, keyed: seq<map<int, KeyRef>>, indices: seq<int>, k: nat)
    requires 0 < |keyed| <= |pks| && Keyed(keyed, indices) && k < |indices|
    ensures FoldUncached(c, resolve, pks, keyed, indices)[k] == FoldRefs(c, resolve, pks, RefsAt(keyed, indices[k]))
  {}

  /** One index through the cache, folded and merged; failure leaves the result so far for the cleanup. */
  method CombineIndex(n: Heap, c: Native, resolve: Resolver, pks: seq<Bytes>, refs: seq<KeyRef>, final: Option<nat>, cache: Cache,
                      ghost base: map<nat, AVec>, ghost rest: map<nat, KeyMap>, ghost m: Option<KeyMap>)
    returns (ok: bool, final': Option<nat>, cache': Cache)
    requires n.Valid() && CacheOk(n.avecs, base, cache, c, resolve) && 0 < |refs| <= |pks| && Held(n.rots, rest, final, m)
    modifies n
    ensures n.Valid() && CacheOk(n.avecs, base, cache', c, resolve) && n.pubs == old(n.pubs)
    ensures var next := MergedWith(c, m, FoldRefs(c, resolve, pks, refs));
      ok == next.Some? && Held(n.rots, rest, final', if ok then next else m)
    ensures n.peak <= Max(old(n.peak), |rest| + 3)
  {
    var acc;
    acc, cache' := FoldIndexAt(n, c, resolve, pks, refs, cache, base);
    if acc.None? { return false, final, cache'; }
    ghost var a := FoldRefs(c, resolve, pks, refs).value;
    ok, final' := MergeAcc(n, c, final, acc.value, rest, m, a);
  }

  /** The loop over the indices; on failure everything merged so far is freed. */
  method CombineAll(n: Heap, c: Native, resolve: Resolver, pks: seq<Bytes>, keyed: seq<map<int, KeyRef>>, indices: seq<int>,
                    ghost base: map<nat, AVec>, ghost rest: map<nat, KeyMap>)
    returns (final: Option<nat>, cache: Cache, ghost m: Option<KeyMap>)
    requires n.Valid() && n.avecs == base && n.rots == rest && 0 < |keyed| <= |pks| && Keyed(keyed, indices) && indices != []
    modifies n
    ensures n.Valid() && CacheOk(n.avecs, base, cache, c, resolve) && n.pubs == old(n.pubs)
    ensures m == MergeIndices(c, FoldUncached(c, resolve, pks, keyed, indices), |indices|) && Held(n.rots, rest, final, m)
    ensures n.peak <= Max(old(n.peak), |rest| + 3)
  {
    ghost var accs := FoldUncached(c, resolve, pks, keyed, indices);
    OnwardIsMerge(c, accs, 0);
    final, cache, m := None, map[], None;
    for k := 0 to |indices|
      invariant n.Valid() && CacheOk(n.avecs, base, cache, c, resolve) && n.pubs == old(n.pubs)
      invariant Held(n.rots, rest, final, m) && MergeOnward(c, accs, None, 0) == MergeOnward(c, accs, m, k)
      invariant n.peak <= Max(old(n.peak), |rest| + 3)
    {
      var refs := RefsAt(keyed, indices[k]);
      FoldUncachedAt(c, resolve, pks, keyed, indices, k);
      ghost var next := MergedWith(c, m, accs[k]);
      var ok;
      ok, final, cache := CombineIndex(n, c, resolve, pks, refs, final, cache, base, rest, m);
      if !ok {
        FreeFinal(n, final, rest, m);
        return None, cache, None;
      }
      m := next;
    }
  }

  /**
   * Lazy per-index combining with the a-vector cache. It returns what folding every index with the
   * uncached resolver gives; on every path, success or error, the three tables are back to what they were;
   * and at no time were more than three rotation-key handles of its own alive, whatever the numbers of
   * parties and indices.
   */
  method CombinePerIndexLazy(n: Heap, c: Native, resolve: Resolver, pks: seq<Bytes>, byParty: seq<seq<KeyRef>>)
    returns (r: Option<Bytes>, ghost keyed: seq<map<int, KeyRef>>)
    requires n.Valid() && |byParty| <= |pks|
    modifies n
    ensures n.Valid() && n.rots == old(n.rots) && n.pubs == old(n.pubs) && n.avecs == old(n.avecs)
    ensures n.peak <= Max(old(n.peak), |old(n.rots)| + 3)
    ensures !PartiesOk(byParty) ==> r.None?
    ensures PartiesOk(byParty) ==>
      |keyed| == |byParty| && (forall p :: 0 <= p < |byParty| ==> KeyedBy(keyed[p], byParty[p])) && Keyed(keyed, Indices(byParty[0]))
    ensures PartiesOk(byParty) ==>
      var m := MergeIndices(c, FoldUncached(c, resolve, pks, keyed, Indices(byParty[0])), |byParty[0]|);
      r == if m.None? then None else c.writeRot(m.value)
  {
    keyed := [];
    var valid := ValidateShareRefs(byParty);
    if valid.None? { return None, []; }
    var (indices, tables) := valid.value;
    keyed := tables;
    AllKeyed(byParty, tables);
    ghost var base, rest := n.avecs, n.rots;
    var final, cache;
    ghost var m;
    final, cache, m := CombineAll(n, c, resolve, pks, tables, indices, base, rest);
    r := if final.None? then None else c.writeRot(n.rots[final.value]);
    FreeCache(n, cache, base, c, resolve);
    FreeFinal(n, final, rest, m);
  }

  lemma AllKeyed(byParty: seq<seq<KeyRef>>, keyed: seq<map<int, KeyRef>>)
    requires PartiesOk(byParty) && |keyed| == |byParty| && forall p :: 0 <= p < |byParty| ==> KeyedBy(keyed[p], byParty[p])
    ensures Keyed(keyed, Indices(byParty[0]))
  {
    forall p, k | 0 <= p < |keyed| && 0 <= k < |Indices(byParty[0])| ensures Indices(byParty[0])[k] in keyed[p] {
      assert HasIndex(byParty[0], byParty[0][k].index);
      assert SameNames(byParty[p], byParty[0]);
    }
  }

  /** The references load to the single-index cuts of the parties' whole maps. */
  ghost predicate LoadsCuts(c: Native, resolve: Resolver, keyed: seq<map<int, KeyRef>>, indices: seq<int>, whole: seq<KeyMap>)
    requires |keyed| == |whole| && Keyed(keyed, indices)
  {
    forall p, k :: 0 <= p < |keyed| && 0 <= k < |indices| ==>
      Load(c, resolve, keyed[p][indices[k]]) == Some(map[indices[k] := Column(whole, indices[k])[p]])
  }

  /** Every party's reference for an index, whole or split, leads to a serialised cut of its map. */
  ghost predicate Submits(c: Native, sp: Splitter, resolve: Resolver, keyed: seq<map<int, KeyRef>>, indices: seq<int>,
                          whole: seq<KeyMap>, cut: (nat, int) -> Bytes)
    requires |keyed| == |whole| && Keyed(keyed, indices)
  {
    forall p: nat, k :: p < |keyed| && 0 <= k < |indices| ==>
      && LeadsTo(sp, resolve, keyed[p][indices[k]], cut(p, indices[k]))
      && c.readRot(cut(p, indices[k])) == Some(map[indices[k] := Column(whole, indices[k])[p]])
  }

  lemma SubmittedCutsLoad(c: Native, sp: Splitter, resolve: Resolver, keyed: seq<map<int, KeyRef>>, indices: seq<int>,
                          whole: seq<KeyMap>, cut: (nat, int) -> Bytes)
    requires |keyed| == |whole| && Keyed(keyed, indices) && Splits(c, sp) && Submits(c, sp, resolve, keyed, indices, whole, cut)
    ensures LoadsCuts(c, resolve, keyed, indices, whole)
  {
    forall p, k | 0 <= p < |keyed| && 0 <= k < |indices|
      ensures Load(c, resolve, keyed[p][indices[k]]) == Some(map[indices[k] := Column(whole, indices[k])[p]])
    {
      EitherFormLoads(c, sp, resolve, keyed[p][indices[k]], cut(p, indices[k]));
    }
  }

  lemma LazyIsPerIndex(c: Native, resolve: Resolver, pks: seq<Bytes>, keyed: seq<map<int, KeyRef>>, indices: seq<int>, whole: seq<KeyMap>)
    requires 0 < |keyed| == |whole| <= |pks| && Keyed(keyed, indices) && LoadsCuts(c, resolve, keyed, indices, whole)
    ensures FoldUncached(c, resolve, pks, keyed, indices) == FoldCuts(c, pks, whole, indices)
  {
    forall k | 0 <= k < |indices| ensures FoldUncached(c, resolve, pks, keyed, indices)[k] == FoldCuts(c, pks, whole, indices)[k] {
      assert Loaded(c, resolve, RefsAt(keyed, indices[k])) == Cut(whole, indices[k]);
    }
  }

  /**
   * For references cut from whole shares, the lazy combine gives the all-at-once result, failures included,
   * exactly when the lead's public key can be read or something else is out of order.
   */
  lemma LazyIsAllAtOnce(c: Native, resolve: Resolver, pks: seq<Bytes>, keyed: seq<map<int, KeyRef>>, indices: seq<int>,
                        shares: seq<Bytes>, whole: seq<KeyMap>)
    requires 0 < |shares| <= |pks| && AllRead(ReadAll(c, shares)) && whole == Values(ReadAll(c, shares))
    requires |keyed| == |whole| && Keyed(keyed, indices) && LoadsCuts(c, resolve, keyed, indices, whole)
    requires SameIndices(whole) && indices != [] && SetOf(indices) == whole[0].Keys
    requires (forall m :: c.started(m)) && (forall a, b :: c.merged(a, b))
    ensures MergeIndices(c, FoldUncached(c, resolve, pks, keyed, indices), |indices|) == AllAtOnce(c, pks, shares)
        <==> c.readPub(pks[0]).Some? || !OthersInOrder(c, pks, shares)
  {
    LazyIsPerIndex(c, resolve, pks, keyed, indices, whole);
    PerIndexIsAllAtOnce(c, pks, shares, whole, indices);
  }

  /**
   * For submissions in which each key is given whole or in its two parts, as each party likes: the lazy combine gives
   * the all-at-once result of the whole shares under the same condition.
   */
  lemma SubmissionIsAllAtOnce(c: Native, sp: Splitter, resolve: Resolver, pks: seq<Bytes>, keyed: seq<map<int, KeyRef>>,
                              indices: seq<int>, shares: seq<Bytes>, whole: seq<KeyMap>, cut: (nat, int) -> Bytes)
    requires 0 < |shares| <= |pks| && AllRead(ReadAll(c, shares)) && whole == Values(ReadAll(c, shares))
    requires |keyed| == |whole| && Keyed(keyed, indices) && Splits(c, sp) && Submits(c, sp, resolve, keyed, indices, whole, cut)
    requires SameIndices(whole) && indices != [] && SetOf(indices) == whole[0].Keys
    requires (forall m :: c.started(m)) && (forall a, b :: c.merged(a, b))
    ensures MergeIndices(c, FoldUncached(c, resolve, pks, keyed, indices), |indices|) == AllAtOnce(c, pks, shares)
        <==> c.readPub(pks[0]).Some? || !OthersInOrder(c, pks, shares)
  {
    SubmittedCutsLoad(c, sp, resolve, keyed, indices, whole, cut);
    LazyIsAllAtOnce(c, resolve, pks, keyed, indices, shares, whole);
  }

  // ---- whole shares, one at a time ---------------------------------------------------------------

  method FoldShareBytes(n: Heap, c: Native, shareBytes: Bytes, acc: nat, pk: nat) returns (ok: bool)
    requires n.Valid() && acc in n.rots && pk in n.pubs
    modifies n
    ensures n.Valid() && n.pubs == old(n.pubs) && n.avecs == old(n.avecs)
    ensures var next := Folded(c, old(n.rots)[acc], Some(old(n.pubs)[pk]), c.readRot(shareBytes));
      ok == next.Some? && n.rots == if ok then old(n.rots)[acc := next.value] else old(n.rots)
    ensures n.peak <= Max(old(n.peak), |old(n.rots)| + 1)
  {
    var k := c.readRot(shareBytes);
    if k.None? { return false; }
    var share := n.NewRot(k.value);
    ok := n.FoldInto(c, acc, pk, share);
    SetThenRemove(old(n.rots), share, k.value, acc, n.rots[acc]);
    n.FreeRot(share);
  }

  /** One participant: its key and share are loaded, folded and freed before the next. */
  method FoldBytes(n: Heap, c: Native, pkBytes: Bytes, shareBytes: Bytes, acc: nat) returns (ok: bool)
    requires n.Valid() && acc in n.rots
    modifies n
    ensures n.Valid() && n.pubs == old(n.pubs) && n.avecs == old(n.avecs)
    ensures var next := Folded(c, old(n.rots)[acc], c.readPub(pkBytes), c.readRot(shareBytes));
      ok == next.Some? && n.rots == if ok then old(n.rots)[acc := next.value] else old(n.rots)
    ensures n.peak <= Max(old(n.peak), |old(n.rots)| + 1)
  {
    var pub := c.readPub(pkBytes);
    if pub.None? { return false; }
    var pk := n.NewPub(pub.value);
    AddThenRemove(old(n.pubs), pk, pub.value);
    ok := FoldShareBytes(n, c, shareBytes, acc, pk);
    n.FreePub(pk);
  }

  method SeedBytes(n: Heap, c: Native, shareBytes: Bytes) returns (acc: Option<nat>)
    requires n.Valid()
    modifies n
    ensures n.Valid() && n.pubs == old(n.pubs) && n.avecs == old(n.avecs) && n.peak <= Max(old(n.peak), |old(n.rots)| + 2)
    ensures acc.Some? <==> c.readRot(shareBytes).Some? && c.started(c.readRot(shareBytes).value)
    ensures if acc.Some? then Holds(n.rots, old(n.rots), acc.value, c.readRot(shareBytes)) else n.rots == old(n.rots)
  {
    var k := c.readRot(shareBytes);
    if k.None? { return None; }
    var seed := n.NewRot(k.value);
    acc := CombineStart(n, c, seed);
    if acc.Some? { SwapHandle(old(n.rots), seed, acc.value, k.value); } else { AddThenRemove(old(n.rots), seed, k.value); }
    n.FreeRot(seed);
  }

  method FoldStepBytes(n: Heap, c: Native, pk: Bytes, share: Bytes, acc: nat, ghost rest: map<nat, KeyMap>, ghost cur: KeyMap) returns (ok: bool)
    requires n.Valid() && Holds(n.rots, rest, acc, Some(cur))
    modifies n
    ensures n.Valid() && n.pubs == old(n.pubs) && n.avecs == old(n.avecs) && n.peak <= Max(old(n.peak), |rest| + 2)
    ensures var next := Folded(c, cur, c.readPub(pk), c.readRot(share)); ok == next.Some? && Holds(n.rots, rest, acc, next)
  {
    ok := FoldBytes(n, c, pk, share, acc);
    if !ok {
      AddThenRemove(rest, acc, cur);
      n.FreeRot(acc);
    }
  }

  /** The participants in turn; on failure the accumulator is freed. */
  method FoldRestBytes(n: Heap, c: Native, pks: seq<Bytes>, shares: seq<Bytes>, acc: nat, ghost rest: map<nat, KeyMap>,
                       ghost xs: seq<Option<KeyMap>>, ghost seed: KeyMap) returns (ok: bool)
    requires n.Valid() && 0 < |shares| <= |pks| && Holds(n.rots, rest, acc, Some(seed)) && xs == ReadAll(c, shares)
    modifies n
    ensures n.Valid() && n.pubs == old(n.pubs) && n.avecs == old(n.avecs) && n.peak <= Max(old(n.peak), |rest| + 2)
    ensures var r := FoldOnward(c, pks, xs, seed, 1); ok == r.Some? && Holds(n.rots, rest, acc, r)
  {
    ghost var cur := seed;
    for i := 1 to |shares|
      invariant n.Valid() && n.pubs == old(n.pubs) && n.avecs == old(n.avecs) && n.peak <= Max(old(n.peak), |rest| + 2)
      invariant Holds(n.rots, rest, acc, Some(cur)) && FoldOnward(c, pks, xs, seed, 1) == FoldOnward(c, pks, xs, cur, i)
    {
      ghost var next := Folded(c, cur, c.readPub(pks[i]), xs[i]);
      ok := FoldStepBytes(n, c, pks[i], shares[i], acc, rest, cur);
      if !ok { return; }
      cur := next.value;
    }
    ok := true;
  }

  lemma IncrementalOnward(c: Native, pks: seq<Bytes>, shares: seq<Bytes>, xs: seq<Option<KeyMap>>)
    requires 0 < |shares| <= |pks| && xs == ReadAll(c, shares)
    ensures xs[0] == c.readRot(shares[0])
    ensures Incremental(c, pks, shares) ==
      if xs[0].None? || !c.started(xs[0].value) then None else FoldOnward(c, pks, xs, xs[0].value, 1)
  {
    FirstOnward(c, pks, xs, 0);
  }

  lemma FirstOnward(c: Native, pks: seq<Bytes>, xs: seq<Option<KeyMap>>, p: nat)
    requires p == 0 < |xs| <= |pks|
    ensures FoldIndex(c, pks, xs, |xs| - 1) ==
      if xs[p].None? || !c.started(xs[p].value) then None else FoldOnward(c, pks, xs, xs[p].value, p + 1)
  {
    OnwardIsFold(c, pks, xs, p);
  }

  /** Whole shares folded one at a time: at most the accumulator and one share are resident, and nothing leaks. */
  method CombineIncremental(n: Heap, c: Native, pks: seq<Bytes>, shares: seq<Bytes>) returns (r: Option<Bytes>)
    requires n.Valid() && 0 < |shares| <= |pks|
    modifies n
    ensures n.Valid() && n.rots == old(n.rots) && n.pubs == old(n.pubs) && n.avecs == old(n.avecs)
    ensures n.peak <= Max(old(n.peak), |old(n.rots)| + 2)
    ensures r == if Incremental(c, pks, shares).None? then None else c.writeRot(Incremental(c, pks, shares).value)
  {
    ghost var xs, rest := ReadAll(c, shares), n.rots;
    IncrementalOnward(c, pks, shares, xs);
    var acc := SeedBytes(n, c, shares[0]);
    if acc.None? { return None; }
    var ok := FoldRestBytes(n, c, pks, shares, acc.value, rest, xs, xs[0].value);
    if !ok { return None; }
    r := c.writeRot(n.rots[acc.value]);
    AddThenRemove(rest, acc.value, n.rots[acc.value]);
    n.FreeRot(acc.value);
  }
}

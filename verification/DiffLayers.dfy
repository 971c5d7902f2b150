/** core/blockchain.go: the mutually indexed maps of untrusted diff layers. */
module DiffLayers {
  import BinaryHeap
  import opened Words

  type Hash = nat
  type Peer = nat

  const MAX_DIFF_QUEUE_DIST: nat := 2048
  const MAX_DIFF_LIMIT: nat := 2048
  const MAX_DIFF_FORK_DIST: nat := 11
  const MAX_DIFF_LIMIT_FOR_BROADCAST: nat := 128

  datatype DiffLayer = DiffLayer(diffHash: Hash, blockHash: Hash, number: nat)

  type Layers = map<Hash, map<Hash, DiffLayer>>
  type Holdings = map<Peer, set<Hash>>

  datatype Maps = Maps(layers: Layers, blockOf: map<Hash, Hash>, peersOf: map<Hash, set<Peer>>,
                       byNumber: map<nat, set<Hash>>, diffsOf: Holdings)

  // ---------------------------------------------------------------------
  // Mutual consistency

  predicate Has(layers: Layers, b: Hash, d: Hash) {
    b in layers && d in layers[b]
  }

  /** The layer of diff `d` in the bucket of block `b` says so, and that block is its block. */
  ghost predicate FiledUnder(m: Maps, b: Hash, d: Hash)
    requires Has(m.layers, b, d)
  {
    m.layers[b][d].diffHash == d && m.layers[b][d].blockHash == b && d in m.blockOf && m.blockOf[d] == b
  }

  /** Layers by block and the diff-to-block map are the same relation, without empty buckets. */
  ghost predicate LayersOk(m: Maps) {
    && (forall d :: d in m.blockOf ==> Has(m.layers, m.blockOf[d], d))
    && (forall b :: b in m.layers ==> m.layers[b] != map[])
    && (forall b, d :: Has(m.layers, b, d) ==> FiledUnder(m, b, d))
  }

  predicate Holds(diffsOf: Holdings, p: Peer, d: Hash) {
    p in diffsOf && d in diffsOf[p]
  }

  /** Every stored diff has exactly one peer; peers-to-diffs and diffs-to-peers are inverse. */
  ghost predicate PeersOk(m: Maps) {
    && (forall d :: d in m.blockOf <==> d in m.peersOf)
    && (forall d :: d in m.peersOf ==> exists p :: m.peersOf[d] == {p} && Holds(m.diffsOf, p, d))
    && (forall p :: p in m.diffsOf ==> m.diffsOf[p] != {})
    && (forall p: Peer, d: Hash :: Holds(m.diffsOf, p, d) ==> d in m.peersOf && m.peersOf[d] == {p})
  }

  /** Every stored layer is in the bucket of its number. */
  ghost predicate NumbersOk(m: Maps) {
    forall b, d :: Has(m.layers, b, d) ==> InBucket(m.byNumber, m.layers[b][d].number, b)
  }

  predicate InBucket(byNumber: map<nat, set<Hash>>, n: nat, b: Hash) {
    n in byNumber && b in byNumber[n]
  }

  ghost predicate LimitOk(diffsOf: Holdings) {
    forall p :: p in diffsOf ==> |diffsOf[p]| <= MAX_DIFF_LIMIT + 1
  }

  ghost predicate Consistent(m: Maps) {
    LayersOk(m) && PeersOk(m) && NumbersOk(m) && LimitOk(m.diffsOf)
  }

  // ---------------------------------------------------------------------
  // Taking diffs out

  function LayersWithout(layers: Layers, bad: set<Hash>): Layers {
    map b | b in layers && layers[b] - bad != map[] :: layers[b] - bad
  }

  function HeldWithout(diffsOf: Holdings, bad: set<Hash>): Holdings {
    map p | p in diffsOf && diffsOf[p] - bad != {} :: diffsOf[p] - bad
  }

  /** The maps after forgetting the diffs in `bad`; the number buckets stay. */
  function Forgetting(m: Maps, bad: set<Hash>): Maps {
    Maps(LayersWithout(m.layers, bad), m.blockOf - bad, m.peersOf - bad, m.byNumber, HeldWithout(m.diffsOf, bad))
  }

  /** Forgetting any diffs keeps the maps consistent. */
  lemma ForgettingKeeps(m: Maps, bad: set<Hash>)
    requires Consistent(m)
    ensures Consistent(Forgetting(m, bad))
  {
    hide Consistent;
    assert LayersOk(m) && PeersOk(m) && NumbersOk(m) && LimitOk(m.diffsOf) by { Parts(m); }
    ForgetLayers(m, bad);
    ForgetPeers(m, bad);
    ForgetNumbers(m, bad);
    ForgetLimit(m.diffsOf, bad);
    Whole(Forgetting(m, bad));
  }

  lemma Parts(m: Maps)
    requires Consistent(m)
    ensures LayersOk(m) && PeersOk(m) && NumbersOk(m) && LimitOk(m.diffsOf)
  {
    hide LayersOk, PeersOk, NumbersOk, LimitOk;
  }

  lemma Whole(m: Maps)
    requires LayersOk(m) && PeersOk(m) && NumbersOk(m) && LimitOk(m.diffsOf)
    ensures Consistent(m)
  {
    hide LayersOk, PeersOk, NumbersOk, LimitOk;
  }

  lemma HasWithout(layers: Layers, bad: set<Hash>, b: Hash, d: Hash)
    ensures Has(LayersWithout(layers, bad), b, d) <==> Has(layers, b, d) && d !in bad
    ensures Has(LayersWithout(layers, bad), b, d) ==> LayersWithout(layers, bad)[b][d] == layers[b][d]
  {
    if Has(layers, b, d) && d !in bad { assert d in layers[b] - bad; }
  }

  lemma HoldsWithout(diffsOf: Holdings, bad: set<Hash>, p: Peer, d: Hash)
    ensures Holds(HeldWithout(diffsOf, bad), p, d) <==> Holds(diffsOf, p, d) && d !in bad
  {
    if Holds(diffsOf, p, d) && d !in bad { assert d in diffsOf[p] - bad; }
  }

  lemma ForgetLayers(m: Maps, bad: set<Hash>)
    requires LayersOk(m)
    ensures LayersOk(Forgetting(m, bad))
  {
    hide Has;
    var f := Forgetting(m, bad);
    forall d | d in f.blockOf ensures Has(f.layers, f.blockOf[d], d) { HasWithout(m.layers, bad, m.blockOf[d], d); }
    forall b, d | Has(f.layers, b, d) ensures FiledUnder(f, b, d) {
      HasWithout(m.layers, bad, b, d);
      HasBoth(f.layers, b, d);
      assert FiledUnder(m, b, d);
    }
  }

  lemma HasBoth(layers: Layers, b: Hash, d: Hash)
    ensures Has(layers, b, d) <==> b in layers && d in layers[b]
  {
  }

  lemma ForgetPeers(m: Maps, bad: set<Hash>)
    requires PeersOk(m)
    ensures PeersOk(Forgetting(m, bad))
  {
    hide LayersWithout, Holds;
    var f := Forgetting(m, bad);
    forall p: Peer, d: Hash | Holds(f.diffsOf, p, d) ensures d in f.peersOf
      && f.peersOf[d] == {p} { HoldsWithout(m.diffsOf, bad, p, d); }
    forall d | d in f.peersOf ensures exists p :: f.peersOf[d] == {p} && Holds(f.diffsOf, p, d) {
      var p :| m.peersOf[d] == {p} && Holds(m.diffsOf, p, d);
      HoldsWithout(m.diffsOf, bad, p, d);
    }
  }

  lemma ForgetNumbers(m: Maps, bad: set<Hash>)
    requires NumbersOk(m)
    ensures NumbersOk(Forgetting(m, bad))
  {
    var f := Forgetting(m, bad);
    forall b, d | Has(f.layers, b, d)
      ensures InBucket(f.byNumber, f.layers[b][d].number, b) { HasWithout(m.layers, bad, b, d); }
  }

  lemma ForgetLimit(diffsOf: Holdings, bad: set<Hash>)
    requires LimitOk(diffsOf)
    ensures LimitOk(HeldWithout(diffsOf, bad))
  {
    forall p | p in HeldWithout(diffsOf, bad) ensures |diffsOf[p] - bad| <= MAX_DIFF_LIMIT + 1 {
      FewerLeft(diffsOf[p], bad);
    }
  }

  lemma {:induction false} FewerLeft(s: set<Hash>, bad: set<Hash>)
    ensures |s - bad| <= |s|
  {
    if s != {} {
      var x :| x in s;
      FewerLeft(s - {x}, bad);
      if x in bad { assert s - bad == s - {x} - bad; } else { assert s - bad == s - {x} - bad + {x}; }
    }
  }

  // ---------------------------------------------------------------------
  // Inserting

  function HeldBy(diffsOf: Holdings, p: Peer): set<Hash> {
    if p in diffsOf then diffsOf[p] else {}
  }

  /** Within the window around the head in which layers are queued. */
  predicate InWindow(number: nat, height: nat) {
    number <= height + MAX_DIFF_QUEUE_DIST && height <= number + MAX_DIFF_FORK_DIST
  }

  /** Another layer is taken from the peer. */
  predicate Takes(m: Maps, layer: DiffLayer, p: Peer, fulfilled: bool, height: nat) {
    && InWindow(layer.number, height) && (layer.diffHash in m.blockOf ==> m.blockOf[layer.diffHash] != layer.blockHash)
    && layer.diffHash !in HeldBy(m.diffsOf, p)
       && |HeldBy(m.diffsOf, p)| <= (if fulfilled then MAX_DIFF_LIMIT else MAX_DIFF_LIMIT_FOR_BROADCAST)
  }

  /** The diff is stored already, for another block. */
  predicate Clashes(m: Maps, layer: DiffLayer) {
    layer.diffHash in m.blockOf && m.blockOf[layer.diffHash] != layer.blockHash
  }

  /** The limits in numbers: at most 2048 blocks ahead and 11 behind, and at most 2048 layers held
      for the peer, 128 if nobody asked for this one. */
  lemma TakesWithin(m: Maps, layer: DiffLayer, p: Peer, fulfilled: bool, height: nat)
    ensures Takes(m, layer, p, fulfilled, height) <==>
      && height <= layer.number + 11 && layer.number <= height + 2048
      && !(layer.diffHash in m.blockOf && m.blockOf[layer.diffHash] == layer.blockHash)
      && !Holds(m.diffsOf, p, layer.diffHash)
      && |HeldBy(m.diffsOf, p)| <= 2048 && (!fulfilled ==> |HeldBy(m.diffsOf, p)| <= 128)
  {
  }

  function Inserting(m: Maps, layer: DiffLayer, p: Peer): Maps {
    var d, b := layer.diffHash, layer.blockHash;
    Maps(m.layers[b := (if b in m.layers then m.layers[b] else map[])[d := layer]],
         m.blockOf[d := b],
         m.peersOf[d := (if d in m.peersOf then m.peersOf[d] else {}) + {p}],
         m.byNumber[layer.number := (if layer.number in m.byNumber then m.byNumber[layer.number] else {}) + {b}],
         m.diffsOf[p := HeldBy(m.diffsOf, p) + {d}])
  }

  lemma InsertingKeeps(m: Maps, layer: DiffLayer, p: Peer)
    requires Consistent(m) && layer.diffHash !in m.blockOf && |HeldBy(m.diffsOf, p)| <= MAX_DIFF_LIMIT
    ensures Consistent(Inserting(m, layer, p))
  {
    hide Consistent;
    Parts(m);
    InsertLayers(m, layer, p);
    InsertPeers(m, layer, p);
    InsertNumbers(m, layer, p);
    InsertLimit(m.diffsOf, layer.diffHash, p);
    Whole(Inserting(m, layer, p));
  }

  /** Storing a diff under a second block breaks the consistency: it stays under the first. */
  lemma ClashBreaks(m: Maps, layer: DiffLayer, p: Peer)
    requires Consistent(m) && Clashes(m, layer)
    ensures !Consistent(Inserting(m, layer, p))
  {
    var d, b, r := layer.diffHash, m.blockOf[layer.diffHash], Inserting(m, layer, p);
    assert Has(m.layers, b, d);
    HasInserted(m, layer, p, b, d);
    assert !FiledUnder(r, b, d);
  }

  /** A diff taken from one peer for block 2 is taken from another for block 9. */
  lemma ClashExample()
    ensures var m := Inserting(Maps(map[], map[], map[], map[], map[]), DiffLayer(1, 2, 6), 3);
      Takes(m, DiffLayer(1, 9, 6), 4, false, 5) && Clashes(m, DiffLayer(1, 9, 6))
  {
  }

  lemma HasInserted(m: Maps, layer: DiffLayer, p: Peer, b: Hash, d: Hash)
    ensures var r := Inserting(m, layer, p).layers;
      && (Has(r, b, d) <==> Has(m.layers, b, d) || (b == layer.blockHash && d == layer.diffHash))
      && (Has(r, b, d) ==> r[b][d] == if b == layer.blockHash && d == layer.diffHash then layer else m.layers[b][d])
  {
  }

  lemma InsertLayers(m: Maps, layer: DiffLayer, p: Peer)
    requires LayersOk(m) && layer.diffHash !in m.blockOf
    ensures LayersOk(Inserting(m, layer, p))
  {
    hide Has;
    var r := Inserting(m, layer, p);
    forall d | d in r.blockOf ensures Has(r.layers, r.blockOf[d], d) { HasInserted(m, layer, p, r.blockOf[d], d); }
    forall b, d | Has(r.layers, b, d) ensures FiledUnder(r, b, d) {
      HasInserted(m, layer, p, b, d);
      HasBoth(r.layers, b, d);
      if Has(m.layers, b, d) { assert FiledUnder(m, b, d); }
    }
    assert layer.diffHash in r.layers[layer.blockHash];
  }

  lemma HoldsInserted(diffsOf: Holdings, h: Hash, q: Peer, p: Peer, d: Hash)
    ensures Holds(diffsOf[q := HeldBy(diffsOf, q) + {h}], p, d) <==> Holds(diffsOf, p, d) || (p == q && d == h)
  {
  }

  lemma InsertPeers(m: Maps, layer: DiffLayer, p: Peer)
    requires PeersOk(m) && layer.diffHash !in m.blockOf
    ensures PeersOk(Inserting(m, layer, p))
  {
    hide Holds;
    var r := Inserting(m, layer, p);
    forall q: Peer, d: Hash | Holds(r.diffsOf, q, d) ensures d in r.peersOf
      && r.peersOf[d] == {q} { HoldsInserted(m.diffsOf, layer.diffHash, p, q, d); }
    forall d | d in r.peersOf ensures exists q :: r.peersOf[d] == {q} && Holds(r.diffsOf, q, d) {
      if d == layer.diffHash {
        HoldsInserted(m.diffsOf, layer.diffHash, p, p, d);
      } else {
        var q :| m.peersOf[d] == {q} && Holds(m.diffsOf, q, d);
        HoldsInserted(m.diffsOf, layer.diffHash, p, q, d);
      }
    }
    assert layer.diffHash in r.diffsOf[p];
  }

  lemma InsertNumbers(m: Maps, layer: DiffLayer, p: Peer)
    requires NumbersOk(m)
    ensures NumbersOk(Inserting(m, layer, p))
  {
    var r := Inserting(m, layer, p);
    forall b, d | Has(r.layers, b, d)
      ensures InBucket(r.byNumber, r.layers[b][d].number, b) { HasInserted(m, layer, p, b, d); }
  }

  lemma InsertLimit(diffsOf: Holdings, d: Hash, p: Peer)
    requires LimitOk(diffsOf) && |HeldBy(diffsOf, p)| <= MAX_DIFF_LIMIT
    ensures LimitOk(diffsOf[p := HeldBy(diffsOf, p) + {d}])
  {
    var held := HeldBy(diffsOf, p);
    if d in held { assert held + {d} == held; }
  }

  // ---------------------------------------------------------------------
  // Pruning

  /** The number below which layers are stale, as 64-bit subtraction gives it. */
  function Threshold(height: nat): nat
    requires height < U64
  {
    Sub(height, MAX_DIFF_FORK_DIST)
  }

  /** From height 11 on the subtraction is exact; below, it wraps around to almost 2^64. */
  lemma ThresholdCases(height: nat)
    requires height < U64
    ensures Threshold(height) == if height >= MAX_DIFF_FORK_DIST then height - MAX_DIFF_FORK_DIST
      else U64 + height - MAX_DIFF_FORK_DIST
  {
  }

  /** The blocks filed under a number below `t`. */
  ghost predicate IsStale(byNumber: map<nat, set<Hash>>, t: nat, b: Hash) {
    exists n: nat :: n < t && InBucket(byNumber, n, b)
  }

  /** `stale` is exactly the set of stale blocks. */
  ghost predicate StaleBlocks(byNumber: map<nat, set<Hash>>, t: nat, stale: set<Hash>) {
    forall b: Hash :: b in stale <==> IsStale(byNumber, t, b)
  }

  function NumbersFrom(byNumber: map<nat, set<Hash>>, t: nat): map<nat, set<Hash>> {
    map n | n in byNumber && n >= t :: byNumber[n]
  }

  /** `bad` is exactly the set of diffs of the blocks in `stale`. */
  ghost predicate DiffsIn(layers: Layers, stale: set<Hash>, bad: set<Hash>) {
    forall d: Hash :: d in bad <==> exists b: Hash :: b in stale && Has(layers, b, d)
  }

  /** Forgetting whole blocks. */
  lemma WholeBlocks(m: Maps, stale: set<Hash>, bad: set<Hash>)
    requires LayersOk(m) && DiffsIn(m.layers, stale, bad)
    ensures LayersWithout(m.layers, bad) == m.layers - stale
  {
    var w := LayersWithout(m.layers, bad);
    forall b | b in m.layers ensures if b in stale then b !in w else b in w && w[b] == m.layers[b] {
      if b in stale {
        assert m.layers[b] - bad == map[] by {
          forall d | d in m.layers[b] ensures d in bad { assert Has(m.layers, b, d); }
        }
      } else {
        assert m.layers[b] - bad == m.layers[b] by {
          forall d | d in m.layers[b] ensures d !in bad {
            assert FiledUnder(m, b, d);
            assert forall c: Hash :: Has(m.layers, c, d) ==> FiledUnder(m, c, d);
          }
        }
      }
    }
  }

  function Pruned(m: Maps, bad: set<Hash>, t: nat): Maps {
    Forgetting(m, bad).(byNumber := NumbersFrom(m.byNumber, t))
  }

  lemma PrunedKeeps(m: Maps, stale: set<Hash>, bad: set<Hash>, t: nat)
    requires Consistent(m) && StaleBlocks(m.byNumber, t, stale) && DiffsIn(m.layers, stale, bad)
    ensures Consistent(Pruned(m, bad, t))
    ensures forall b, d :: Has(Pruned(m, bad, t).layers, b, d) <==> Has(m.layers, b, d) && !IsStale(m.byNumber, t, b)
    ensures forall b, d :: Has(Pruned(m, bad, t).layers, b, d) ==> KeptLayer(m, Pruned(m, bad, t), t, b, d)
  {
    hide Consistent, LayersOk, PeersOk, NumbersOk, LimitOk, Has, IsStale, StaleBlocks, DiffsIn, Forgetting;
    Parts(m);
    ForgettingKeeps(m, bad);
    Parts(Forgetting(m, bad));
    var r := Pruned(m, bad, t);
    forall b, d ensures (Has(r.layers, b, d) <==> Has(m.layers, b, d) && !IsStale(m.byNumber, t, b))
      && (Has(r.layers, b, d) ==> KeptLayer(m, r, t, b, d)) {
      Keeps(m, stale, bad, t, b, d);
    }
    NumbersKept(m, r, t);
    SameButNumbers(Forgetting(m, bad), r);
    Whole(r);
  }

  ghost predicate KeptLayer(m: Maps, r: Maps, t: nat, b: Hash, d: Hash) {
    && b in m.layers && d in m.layers[b] && b in r.layers && d in r.layers[b]
    && r.layers[b][d] == m.layers[b][d] && m.layers[b][d].number >= t && InBucket(r.byNumber, m.layers[b][d].number, b)
  }

  lemma NumbersKept(m: Maps, r: Maps, t: nat)
    requires forall b, d :: Has(r.layers, b, d) ==> KeptLayer(m, r, t, b, d)
    ensures NumbersOk(r)
  {
  }

  lemma Keeps(m: Maps, stale: set<Hash>, bad: set<Hash>, t: nat, b: Hash, d: Hash)
    requires LayersOk(m) && NumbersOk(m) && StaleBlocks(m.byNumber, t, stale) && DiffsIn(m.layers, stale, bad)
    ensures Has(Pruned(m, bad, t).layers, b, d) <==> Has(m.layers, b, d) && !IsStale(m.byNumber, t, b)
    ensures Has(Pruned(m, bad, t).layers, b, d) ==> KeptLayer(m, Pruned(m, bad, t), t, b, d)
  {
    hide LayersWithout, LayersOk, HeldWithout;
    WholeBlocks(m, stale, bad);
    if Has(m.layers, b, d) && !IsStale(m.byNumber, t, b) {
      var n := m.layers[b][d].number;
      assert InBucket(m.byNumber, n, b);
    }
  }

  lemma SameButNumbers(m: Maps, r: Maps)
    requires r == m.(byNumber := r.byNumber) && LayersOk(m) && PeersOk(m)
    ensures LayersOk(r) && PeersOk(r)
  {
    forall b, d | Has(r.layers, b, d) ensures FiledUnder(r, b, d) { assert FiledUnder(m, b, d); }
  }

  /** When a block hash stands for one number, exactly the layers below the threshold go. */
  lemma PrunedByNumber(m: Maps, t: nat, b: Hash, d: Hash)
    requires NumbersOk(m) && Has(m.layers, b, d)
    requires forall n: nat :: InBucket(m.byNumber, n, b) ==> n == m.layers[b][d].number
    ensures IsStale(m.byNumber, t, b) <==> m.layers[b][d].number < t
  {
    assert InBucket(m.byNumber, m.layers[b][d].number, b);
  }

  /** Close to the genesis everything counts as stale: at height 5 a layer for block 6 goes. */
  lemma EarlyPruneExample()
    ensures var m := Inserting(Maps(map[], map[], map[], map[], map[]), DiffLayer(1, 2, 6), 3);
      Takes(Maps(map[], map[], map[], map[], map[]), DiffLayer(1, 2, 6), 3, false, 5) && Has(m.layers, 2, 1)
        && IsStale(m.byNumber, Threshold(5), 2)
  {
    var m := Inserting(Maps(map[], map[], map[], map[], map[]), DiffLayer(1, 2, 6), 3);
    ThresholdCases(5);
    assert InBucket(m.byNumber, 6, 2);
  }

  // ---------------------------------------------------------------------
  // The five maps

  /** The diffs that came from the same peer as `d`. */
  ghost function FromSamePeer(m: Maps, d: Hash): set<Hash> {
    set x | x in m.peersOf && d in m.peersOf && m.peersOf[x] == m.peersOf[d]
  }

  lemma PeerOf(m: Maps, d: Hash) returns (p: Peer)
    requires PeersOk(m) && d in m.peersOf
    ensures m.peersOf[d] == {p} && p in m.diffsOf && m.diffsOf[p] == FromSamePeer(m, d)
    ensures HeldWithout(m.diffsOf, m.diffsOf[p]) == m.diffsOf - {p}
  {
    p :| m.peersOf[d] == {p} && Holds(m.diffsOf, p, d);
    forall x: Hash ensures x in m.diffsOf[p] <==> x in FromSamePeer(m, d) {
      if x in m.diffsOf[p] { assert Holds(m.diffsOf, p, x); }
      if x in FromSamePeer(m, d) {
        var q :| m.peersOf[x] == {q} && Holds(m.diffsOf, q, x);
        assert q in m.peersOf[d];
      }
    }
    forall q | q in m.diffsOf && q != p ensures m.diffsOf[q] - m.diffsOf[p] == m.diffsOf[q] {
      forall x | x in m.diffsOf[q] ensures !Holds(m.diffsOf, p, x) {
        assert Holds(m.diffsOf, q, x) && p !in m.peersOf[x];
      }
    }
  }

  /** Taking one more diff out of the bucket of its block. */
  lemma OneOut(m: Maps, done: set<Hash>, d: Hash)
    requires LayersOk(m) && d in m.blockOf && d !in done
    ensures var cur, b := LayersWithout(m.layers, done), m.blockOf[d];
      && b in cur && d in cur[b]
      && LayersWithout(m.layers, done + {d}) == if cur[b] - {d} == map[] then cur - {b} else cur[b := cur[b] - {d}]
  {
    var b := m.blockOf[d];
    assert Has(m.layers, b, d);
    assert d in m.layers[b] - done;
    assert m.layers[b] - (done + {d}) == m.layers[b] - done - {d};
    forall c | c in m.layers && c != b ensures m.layers[c] - (done + {d}) == m.layers[c] - done {
      assert Has(m.layers, c, d) ==> FiledUnder(m, c, d);
    }
  }

  /** The keys of a map, in ascending order. */
  method SortedNumbers(byNumber: map<nat, set<Hash>>) returns (r: seq<nat>)
    ensures (forall i, j :: 0 <= i < j < |r| ==> r[i] <= r[j]) && forall n: nat :: n in r <==> n in byNumber
  {
    hide BinaryHeap.WeakOrder;
    var todo, keys := byNumber.Keys, [];
    while todo != {}
      invariant todo <= byNumber.Keys && forall n: nat :: n in keys <==> n in byNumber && n !in todo
    {
      var n :| n in todo;
      todo, keys := todo - {n}, keys + [n];
    }
    BinaryHeap.NumberOrder();
    r := BinaryHeap.Sort(keys, BinaryHeap.NumberLess);
    forall n: nat ensures n in r <==> n in byNumber { assert n in multiset(r) <==> n in multiset(keys); }
  }

  /** Forgetting one diff in every peer's holdings, without leaving empty ones. */
  method DropDiff(diffsOf: Holdings, d: Hash) returns (r: Holdings)
    ensures r == HeldWithout(diffsOf, {d})
  {
    r := diffsOf;
    var todo := diffsOf.Keys;
    while todo != {}
      invariant todo <= diffsOf.Keys
      invariant r == map p | p in diffsOf && (p in todo || diffsOf[p] - {d} != {}) :: if p in todo then diffsOf[p]
        else diffsOf[p] - {d}
    {
      var p :| p in todo;
      r := r[p := r[p] - {d}];
      if r[p] == {} {
        r := r - {p};
      }
      todo := todo - {p};
    }
  }

  lemma OneLess(diffsOf: Holdings, done: set<Hash>, d: Hash)
    ensures HeldWithout(HeldWithout(diffsOf, done), {d}) == HeldWithout(diffsOf, done + {d})
  {
    forall p | p in diffsOf ensures diffsOf[p] - done - {d} == diffsOf[p] - (done + {d}) {}
  }

  class DiffStore {
    var layers: Layers
    var blockOf: map<Hash, Hash>
    var peersOf: map<Hash, set<Peer>>
    var byNumber: map<nat, set<Hash>>
    var diffsOf: Holdings

    ghost function All(): Maps
      reads this
    {
      Maps(layers, blockOf, peersOf, byNumber, diffsOf)
    }

    ghost predicate Valid()
      reads this
    {
      Consistent(All())
    }

    constructor ()
      ensures Valid()
    {
      layers, blockOf, peersOf, byNumber, diffsOf := map[], map[], map[], map[], map[];
    }

    /** HandleDiffLayer. The maps stay consistent unless a diff hash comes with a second block
        hash, which is taken like any other layer. */
    method HandleDiffLayer(layer: DiffLayer, pid: Peer, fulfilled: bool, height: nat)
      requires Valid()
      modifies this
      ensures Valid() <==> !(Takes(old(All()), layer, pid, fulfilled, height) && Clashes(old(All()), layer))
      ensures All() == if Takes(old(All()), layer, pid, fulfilled, height) then Inserting(old(All()), layer, pid)
        else old(All())
    {
      hide Consistent, PeersOk;
      if layer.number > height && layer.number - height > MAX_DIFF_QUEUE_DIST {
        return;
      }
      if layer.number < height && height - layer.number > MAX_DIFF_FORK_DIST {
        return;
      }
      var d, b := layer.diffHash, layer.blockHash;
      if d in blockOf && blockOf[d] == b {
        return;
      }
      var count := if pid in diffsOf then |diffsOf[pid]| else 0;
      if !fulfilled && count > MAX_DIFF_LIMIT_FOR_BROADCAST {
        return;
      }
      if count > MAX_DIFF_LIMIT {
        return;
      }
      if pid in diffsOf && d in diffsOf[pid] {
        return;
      }
      if d in blockOf {
        ClashBreaks(All(), layer, pid);
      } else {
        InsertingKeeps(All(), layer, pid);
      }
      Store(layer, pid);
    }

    /** The writes of HandleDiffLayer. */
    method Store(layer: DiffLayer, pid: Peer)
      modifies this
      ensures All() == Inserting(old(All()), layer, pid)
    {
      var d, b := layer.diffHash, layer.blockHash;
      if pid !in diffsOf {
        diffsOf := diffsOf[pid := {}];
      }
      TwiceSet(old(diffsOf), pid, {}, {d});
      diffsOf := diffsOf[pid := diffsOf[pid] + {d}];
      if layer.number !in byNumber {
        byNumber := byNumber[layer.number := {}];
      }
      TwiceSet(old(byNumber), layer.number, {}, {b});
      byNumber := byNumber[layer.number := byNumber[layer.number] + {b}];
      if d !in peersOf {
        peersOf := peersOf[d := {}];
      }
      TwiceSet(old(peersOf), d, {}, {pid});
      peersOf := peersOf[d := peersOf[d] + {pid}];
      if b !in layers {
        layers := layers[b := map[]];
      }
      TwiceSet(old(layers), b, map[], map[d := layer]);
      layers := layers[b := layers[b][d := layer]];
      blockOf := blockOf[d := b];
      assert {} + {d} == {d} && {} + {b} == {b} && {} + {pid} == {pid};
    }

    /** removeDiffLayers: everything that came from the peer of `diffHash` is forgotten, and
        nothing else. */
    method RemoveDiffLayers(diffHash: Hash)
      requires Valid()
      modifies this
      ensures Valid() && All() == Forgetting(old(All()), FromSamePeer(old(All()), diffHash))
    {
      hide Consistent, LayersOk, PeersOk, LayersWithout, HeldWithout, FromSamePeer;
      ghost var m := All();
      Parts(m);
      ForgettingKeeps(m, FromSamePeer(m, diffHash));
      var invalid := TakePeers(diffHash);
      NoneOut(m);
      ghost var done: set<Hash> := {};
      var todo := invalid;
      while todo != {}
        invariant todo + done == invalid && todo !! done
        invariant peersOf == m.peersOf - done && blockOf == m.blockOf - done && layers == LayersWithout(m.layers, done)
        invariant byNumber == m.byNumber && diffsOf == HeldWithout(m.diffsOf, invalid)
      {
        var d :| d in todo;
        Known(m, diffHash, d);
        ForgetOne(d, m, done);
        todo := todo - {d};
        done := done + {d};
      }
    }

    /** One turn of the second loop of removeDiffLayers. */
    method ForgetOne(d: Hash, ghost m: Maps, ghost done: set<Hash>)
      requires LayersOk(m) && d in m.blockOf && d !in done
      requires peersOf == m.peersOf - done && blockOf == m.blockOf - done && layers == LayersWithout(m.layers, done)
      modifies this`peersOf, this`blockOf, this`layers
      ensures peersOf == m.peersOf - (done + {d}) && blockOf == m.blockOf - (done + {d})
        && layers == LayersWithout(m.layers, done + {d})
    {
      hide LayersOk, LayersWithout;
      OneOut(m, done, d);
      peersOf := peersOf - {d};
      var b := blockOf[d];
      if b in layers {
        layers := layers[b := layers[b] - {d}];
        if layers[b] == map[] {
          layers := layers - {b};
        }
      }
      blockOf := blockOf - {d};
    }

    /** The first loop of removeDiffLayers: the peers of the diff go, and with them all they hold. */
    method TakePeers(diffHash: Hash) returns (invalid: set<Hash>)
      requires PeersOk(All())
      modifies this`diffsOf
      ensures invalid == FromSamePeer(old(All()), diffHash) && diffsOf == HeldWithout(old(diffsOf), invalid)
    {
      hide PeersOk, HeldWithout, FromSamePeer;
      ghost var m := All();
      invalid := {};
      if diffHash !in peersOf {
        NothingForgotten(m, diffHash);
        return;
      }
      ghost var p := PeerOf(m, diffHash);
      var pids := peersOf[diffHash];
      while pids != {}
        invariant if pids == {} then invalid == m.diffsOf[p] && diffsOf == m.diffsOf - {p}
                  else pids == {p} && invalid == {} && diffsOf == m.diffsOf
      {
        var pid :| pid in pids;
        invalid := invalid + HeldBy(diffsOf, pid);
        diffsOf := diffsOf - {pid};
        pids := pids - {pid};
      }
    }

    /** pruneDiffLayer: exactly the blocks filed under a number below the threshold lose their
        layers, so no layer older than that remains. */
    method PruneDiffLayer(height: nat)
      requires Valid() && height < U64
      modifies this
      ensures Valid() && byNumber == NumbersFrom(old(byNumber), Threshold(height))
      ensures forall b, d :: Has(layers, b, d) <==>
        Has(old(layers), b, d) && !IsStale(old(byNumber), Threshold(height), b)
      ensures forall b, d :: Has(layers, b, d) ==>
        layers[b][d] == old(layers)[b][d] && layers[b][d].number >= Threshold(height)
      ensures forall d :: d in peersOf ==> d in old(peersOf) && peersOf[d] == old(peersOf)[d]
    {
      hide Consistent, LayersOk, PeersOk, NumbersOk, LayersWithout, HeldWithout, Has, IsStale, StaleBlocks, DiffsIn,
           Threshold, NumbersFrom, Holds, KeptLayer;
      ghost var m := All();
      Parts(m);
      var stale := TakeNumbers(height);
      var bad := TakeBlocks(stale);
      NoEmptyHoldings(m);
      WholeBlocks(m, stale, bad);
      ReleaseDiffs(bad, m.diffsOf);
      PrunedKeeps(m, stale, bad, Threshold(height));
      KeptFacts(m, All(), Threshold(height));
    }

    /** The second loop of pruneDiffLayer: the stale blocks go with all their diffs. */
    method TakeBlocks(stale: set<Hash>) returns (bad: set<Hash>)
      modifies this`layers, this`blockOf, this`peersOf
      ensures DiffsIn(old(layers), stale, bad)
      ensures layers == old(layers) - stale && blockOf == old(blockOf) - bad && peersOf == old(peersOf) - bad
    {
      hide DiffsIn, Has;
      ghost var m := All();
      ghost var done: set<Hash> := {};
      bad := {};
      NoBlocks(m);
      var todo := stale;
      while todo != {}
        invariant todo + done == stale && todo !! done && DiffsIn(m.layers, done, bad)
        invariant layers == m.layers - done && blockOf == m.blockOf - bad && peersOf == m.peersOf - bad
      {
        var b :| b in todo;
        OneBlock(m.layers, done, bad, b);
        if b in layers {
          bad := bad + layers[b].Keys;
          blockOf := blockOf - layers[b].Keys;
          peersOf := peersOf - layers[b].Keys;
        }
        layers := layers - {b};
        todo, done := todo - {b}, done + {b};
      }
    }

    /** The first loop of pruneDiffLayer: number buckets in ascending order up to the threshold. */
    method TakeNumbers(height: nat) returns (stale: set<Hash>)
      requires height < U64
      modifies this`byNumber
      ensures byNumber == NumbersFrom(old(byNumber), Threshold(height))
        && StaleBlocks(old(byNumber), Threshold(height), stale)
    {
      hide Threshold, InBucket, Taken, NumbersFrom, StaleBlocks;
      ghost var by0 := byNumber;
      var t := Threshold(height);
      var numbers := SortedNumbers(byNumber);
      stale := {};
      var i := 0;
      NoneTaken(byNumber, numbers);
      while i < |numbers| && numbers[i] < t
        invariant 0 <= i <= |numbers| && Taken(by0, numbers[..i], byNumber, stale)
        invariant forall k :: 0 <= k < i ==> numbers[k] < t
      {
        TakeOne(by0, numbers, i, byNumber, stale);
        if numbers[i] in byNumber {
          stale := stale + byNumber[numbers[i]];
          byNumber := byNumber - {numbers[i]};
        }
        i := i + 1;
      }
      TakenAll(by0, numbers, i, t, byNumber, stale);
    }

    /** The last loop of pruneDiffLayer. */
    method ReleaseDiffs(bad: set<Hash>, ghost held: Holdings)
      requires diffsOf == held && forall p :: p in held ==> held[p] != {}
      modifies this`diffsOf
      ensures diffsOf == HeldWithout(held, bad)
    {
      hide HeldWithout;
      NoneDropped(held);
      ghost var done: set<Hash> := {};
      var todo := bad;
      while todo != {}
        invariant todo + done == bad && diffsOf == HeldWithout(held, done)
      {
        var d :| d in todo;
        OneLess(held, done, d);
        diffsOf := DropDiff(diffsOf, d);
        todo, done := todo - {d}, done + {d};
      }
    }
  }

  lemma TwiceSet<K, V>(m: map<K, V>, k: K, v: V, w: V)
    ensures m[k := v][k := w] == m[k := w]
  {
  }

  lemma Known(m: Maps, d: Hash, x: Hash)
    requires PeersOk(m) && x in FromSamePeer(m, d)
    ensures x in m.blockOf
  {
  }

  lemma NoneOut(m: Maps)
    requires LayersOk(m)
    ensures LayersWithout(m.layers, {}) == m.layers
  {
    forall b | b in m.layers ensures m.layers[b] - {} == m.layers[b] {}
  }

  lemma NothingForgotten(m: Maps, d: Hash)
    requires PeersOk(m) && d !in m.peersOf
    ensures FromSamePeer(m, d) == {} && HeldWithout(m.diffsOf, {}) == m.diffsOf
  {
    forall p | p in m.diffsOf ensures m.diffsOf[p] - {} == m.diffsOf[p] {}
  }

  lemma NoBlocks(m: Maps)
    ensures DiffsIn(m.layers, {}, {}) && m.layers - {} == m.layers && m.blockOf - {} == m.blockOf
      && m.peersOf - {} == m.peersOf
  {
  }

  lemma NoEmptyHoldings(m: Maps)
    requires PeersOk(m)
    ensures forall p :: p in m.diffsOf ==> m.diffsOf[p] != {}
  {
  }

  lemma OneBlock(layers: Layers, done: set<Hash>, bad: set<Hash>, b: Hash)
    requires DiffsIn(layers, done, bad)
    ensures DiffsIn(layers, done + {b}, if b in layers then bad + layers[b].Keys else bad)
  {
    var bad' := if b in layers then bad + layers[b].Keys else bad;
    forall d: Hash ensures d in bad' <==> exists c: Hash :: c in done + {b} && Has(layers, c, d) {
      if b in layers && d in layers[b] { assert Has(layers, b, d); }
    }
  }

  lemma KeptFacts(m: Maps, r: Maps, t: nat)
    requires forall b, d :: Has(r.layers, b, d) ==> KeptLayer(m, r, t, b, d)
    ensures forall b, d :: Has(r.layers, b, d) ==>
      b in m.layers && d in m.layers[b] && b in r.layers && d in r.layers[b] && r.layers[b][d] == m.layers[b][d]
        && r.layers[b][d].number >= t
  {
    hide Has;
  }

  /** The buckets of `numbers` have been taken out, into `stale`. */
  ghost predicate Taken(by0: map<nat, set<Hash>>, numbers: seq<nat>, byNumber: map<nat, set<Hash>>, stale: set<Hash>) {
    && (forall n: nat :: n in byNumber <==> n in by0 && n !in numbers)
    && (forall n: nat :: n in byNumber ==> byNumber[n] == by0[n])
    && (forall b: Hash :: b in stale <==> exists n: nat :: n in numbers && InBucket(by0, n, b))
  }

  lemma NoneTaken(by0: map<nat, set<Hash>>, numbers: seq<nat>)
    ensures Taken(by0, numbers[..0], by0, {})
  {
  }

  lemma TakeOne(by0: map<nat, set<Hash>>, numbers: seq<nat>, i: nat, byNumber: map<nat, set<Hash>>, stale: set<Hash>)
    requires i < |numbers| && Taken(by0, numbers[..i], byNumber, stale)
    ensures var n := numbers[i];
      Taken(by0, numbers[..i + 1], if n in byNumber then byNumber - {n} else byNumber, if n in byNumber
            then stale + byNumber[n] else stale)
  {
    var n := numbers[i];
    assert numbers[..i + 1] == numbers[..i] + [n];
    var stale' := if n in byNumber then stale + byNumber[n] else stale;
    forall b: Hash ensures b in stale' <==> exists k: nat :: k in numbers[..i + 1] && InBucket(by0, k, b) {
      if n in byNumber && b in byNumber[n] { assert n in numbers[..i + 1] && InBucket(by0, n, b); }
      if k: nat :| k in numbers[..i] && InBucket(by0, k, b) { assert k in numbers[..i + 1]; }
    }
  }

  /** In ascending order, stopping at the threshold misses nothing below it. */
  lemma TakenAll(by0: map<nat, set<Hash>>, numbers: seq<nat>, i: nat, t: nat, byNumber: map<nat, set<Hash>>,
                 stale: set<Hash>)
    requires i <= |numbers| && Taken(by0, numbers[..i], byNumber, stale)
    requires (forall j, k :: 0 <= j < k < |numbers| ==> numbers[j] <= numbers[k]) && forall n: nat :: n in numbers <==>
      n in by0
    requires (forall k :: 0 <= k < i ==> numbers[k] < t) && (i < |numbers| ==> numbers[i] >= t)
    ensures byNumber == NumbersFrom(by0, t) && StaleBlocks(by0, t, stale)
  {
    forall n: nat | n in by0 ensures n in numbers[..i] <==> n < t {
      var k :| 0 <= k < |numbers| && numbers[k] == n;
      if k < i { assert numbers[..i][k] == n; }
    }
    forall b: Hash ensures b in stale <==> IsStale(by0, t, b) {
      if n: nat :| n < t && InBucket(by0, n, b) { assert n in numbers[..i]; }
    }
  }

  lemma NoneDropped(held: Holdings)
    requires forall p :: p in held ==> held[p] != {}
    ensures HeldWithout(held, {}) == held
  {
    forall p | p in held ensures held[p] - {} == held[p] {}
  }
}

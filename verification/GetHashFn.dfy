/** core/evm.go: the block-hash closure and its cache of ancestor hashes. */
module GetHashFns {
  import opened Transactions
  import opened ChainTree
  import opened Words

  ghost predicate BelowLimit(hs: Headers) {
    forall h :: h in hs ==> hs[h].number < U64 - 1
  }

  /** The plain parent walk from the header `h` at height `number` down to height `n`. */
  function ParentWalk(hs: Headers, h: Hash, number: nat, n: nat): Hash
    requires n <= number
    decreases number
  {
    if n == number then h
    else match ReadHeader(hs, h, number)
      case None => NO_HASH
      case Some(x) => ParentWalk(hs, x.parent, number - 1, n)
  }

  /** The cached hash `i` is the parent named by the header of the one before. */
  ghost predicate ParentOfPrevious(hs: Headers, ref: Header, cache: seq<Hash>, i: nat)
    requires 0 < i < |cache| <= ref.number + 1
  {
    var x := ReadHeader(hs, cache[i - 1], ref.number - i);
    x.Some? && x.value.parent == cache[i]
  }

  ghost predicate Consecutive(hs: Headers, ref: Header, cache: seq<Hash>) {
    && |cache| <= ref.number + 1
    && (cache != [] ==> cache[0] == ref.parent)
    && forall i: nat :: 0 < i < |cache| ==> ParentOfPrevious(hs, ref, cache, i)
  }

  /** Walking from a cached hash gives what walking from the start gives. */
  lemma {:induction false} WalkFromCache(hs: Headers, ref: Header, cache: seq<Hash>, i: nat, n: nat)
    requires Consecutive(hs, ref, cache) && i < |cache| && n + i < ref.number
    ensures ParentWalk(hs, ref.parent, ref.number - 1, n) == ParentWalk(hs, cache[i], ref.number - 1 - i, n)
    decreases i
  {
    if i > 0 {
      WalkFromCache(hs, ref, cache, i - 1, n);
      assert ParentOfPrevious(hs, ref, cache, i);
    }
  }

  /** The walk taken one step beyond the genesis: what its header names as parent. */
  function BeyondGenesis(hs: Headers, h: Hash, number: nat): Hash
    decreases number
  {
    match ReadHeader(hs, h, number)
    case None => NO_HASH
    case Some(x) => if number == 0 then x.parent else BeyondGenesis(hs, x.parent, number - 1)
  }

  /** It stays at zero when the block of height 0 has no parent. */
  lemma {:induction false} NothingBeyond(hs: Headers, h: Hash, number: nat)
    requires forall x :: x in hs && hs[x].number == 0 ==> hs[x].parent == NO_HASH
    ensures BeyondGenesis(hs, h, number) == NO_HASH
    decreases number
  {
    var x := ReadHeader(hs, h, number);
    if x.Some? && number > 0 {
      NothingBeyond(hs, x.value.parent, number - 1);
    }
  }

  lemma {:induction false} BeyondFromCache(hs: Headers, ref: Header, cache: seq<Hash>, i: nat)
    requires Consecutive(hs, ref, cache) && i < |cache| && i < ref.number
    ensures BeyondGenesis(hs, ref.parent, ref.number - 1) == BeyondGenesis(hs, cache[i], ref.number - 1 - i)
    decreases i
  {
    if i > 0 {
      BeyondFromCache(hs, ref, cache, i - 1);
      assert ParentOfPrevious(hs, ref, cache, i);
    }
  }

  /** The answer for the largest 64-bit number, whose successor wraps around to zero. */
  function AskedForLargest(hs: Headers, ref: Header): Hash {
    if ref.number == 0 then ref.parent else BeyondGenesis(hs, ref.parent, ref.number - 1)
  }

  /** With a genesis that names a parent the answer is that parent. */
  lemma LargestExample()
    ensures AskedForLargest(map[1 := Header(1, 5, 0, 1)], Header(2, 1, 1, 1)) == 5
  {
  }

  lemma LargestFromCache(hs: Headers, ref: Header, cache: seq<Hash>)
    requires Consecutive(hs, ref, cache) && |cache| == ref.number + 1
    ensures cache[ref.number] == AskedForLargest(hs, ref)
  {
    if ref.number > 0 {
      BeyondFromCache(hs, ref, cache, ref.number - 1);
      assert ParentOfPrevious(hs, ref, cache, ref.number);
    }
  }

  lemma CacheGrows(hs: Headers, ref: Header, cache: seq<Hash>, x: Header)
    requires Consecutive(hs, ref, cache) && 0 < |cache| <= ref.number
    requires ReadHeader(hs, cache[|cache| - 1], ref.number - |cache|) == Some(x)
    ensures Consecutive(hs, ref, cache + [x.parent])
  {
    var c := cache + [x.parent];
    forall i: nat | 0 < i < |c| ensures ParentOfPrevious(hs, ref, c, i) {
      if i < |cache| { assert ParentOfPrevious(hs, ref, cache, i); }
    }
  }

  lemma CacheShape(hs: Headers, ref: Header, cache: seq<Hash>)
    requires Consecutive(hs, ref, cache)
    ensures |cache| <= ref.number + 1 && Consecutive(hs, ref, [ref.parent])
  {
  }

  class GetHashFn {
    const ref: Header
    const chain: Headers
    var cache: seq<Hash>

    ghost predicate Valid()
      reads this
    {
      Filed(chain) && BelowLimit(chain) && ref.number < U64 - 1 && Consecutive(chain, ref, cache)
    }

    constructor (r: Header, hs: Headers)
      requires Filed(hs) && BelowLimit(hs) && r.number < U64 - 1
      ensures Valid() && ref == r && chain == hs
    {
      ref, chain, cache := r, hs, [];
    }

    /** The closure itself: whatever was asked before, the answer is that of a fresh parent
        walk below the reference height and zero from there on, except that the largest number
        asks for the parent of the genesis. */
    method Call(n: nat) returns (r: Hash)
      requires Valid() && n < U64
      modifies this`cache
      ensures Valid() && old(cache) <= cache
      ensures r == if n < ref.number then ParentWalk(chain, ref.parent, ref.number - 1, n)
                   else if n == U64 - 1 then AskedForLargest(chain, ref) else NO_HASH
    {
      hide Consecutive, Sub;
      CacheShape(chain, ref, cache);
      if |cache| == 0 {
        cache := [ref.parent];
      }
      var idx := Sub(ref.number, n + 1);
      SubCases(ref.number, n + 1);
      if idx < |cache| {
        if n < ref.number { WalkFromCache(chain, ref, cache, idx, n); } else { LargestFromCache(chain, ref, cache); }
        return cache[idx];
      }
      var lastKnownHash := cache[|cache| - 1];
      var lastKnownNumber := Sub(ref.number, |cache|);
      SubCases(ref.number, |cache|);
      while true
        invariant Valid() && 0 < |cache| <= ref.number + 1 && old(cache) <= cache
        invariant lastKnownHash == cache[|cache| - 1]
        invariant lastKnownNumber == if |cache| <= ref.number then ref.number - |cache| else U64 - 1
        invariant n < ref.number ==> n < ref.number - |cache|
        invariant n == U64 - 1 ==> |cache| <= ref.number
        decreases ref.number + 1 - |cache|
      {
        var header := ReadHeader(chain, lastKnownHash, lastKnownNumber);
        if n < ref.number { WalkFromCache(chain, ref, cache, |cache| - 1, n); }
        if n == U64 - 1 { BeyondFromCache(chain, ref, cache, |cache| - 1); }
        if header.None? {
          break;
        }
        CacheGrows(chain, ref, cache, header.value);
        SubCases(header.value.number, 1);
        cache := cache + [header.value.parent];
        lastKnownHash := header.value.parent;
        lastKnownNumber := Sub(header.value.number, 1);
        if n == lastKnownNumber {
          return lastKnownHash;
        }
      }
      r := NO_HASH;
    }
  }
}

/** The first half of reset in core/tx_pool.go: which transactions a change of the head takes out
    of the chain, to be added to the pool again. */
module PoolHeads {
  import opened Transactions
  import opened ChainTree
  import opened BlockChains

  type Blocks = map<Hash, seq<Tx>>

  const MAX_DEPTH: nat := 64

  /** The transactions of the blocks from `h` down to height c + 1, in that order of blocks. */
  ghost function TxsOf(hs: Headers, genesis: Hash, blocks: Blocks, h: Hash, c: nat): seq<Tx>
    requires Tree(hs, genesis) && h in hs
    decreases hs[h].number
  {
    if hs[h].number <= c then []
    else (if h in blocks then blocks[h] else []) + TxsOf(hs, genesis, blocks, hs[h].parent, c)
  }

  /** TxDifference: what is in `a` and not in `b`, in the order of `a`. */
  method TxDifference(a: seq<Tx>, b: seq<Tx>) returns (keep: seq<Tx>)
    ensures keep == Difference(a, b)
  {
    keep := [];
    for i := 0 to |a|
      invariant keep == Difference(a[..i], b)
    {
      assert a[..i + 1][..i] == a[..i];
      if a[i] !in b {
        keep := keep + [a[i]];
      }
    }
    assert a[..|a|] == a;
  }

  function Difference(a: seq<Tx>, b: seq<Tx>): seq<Tx> {
    if a == [] then []
    else Difference(a[..|a| - 1], b) + if a[|a| - 1] in b then [] else [a[|a| - 1]]
  }

  lemma {:induction false} DifferenceContents(a: seq<Tx>, b: seq<Tx>, t: Tx)
    ensures t in Difference(a, b) <==> t in a && t !in b
  {
    if a != [] {
      DifferenceContents(a[..|a| - 1], b, t);
      assert a == a[..|a| - 1] + [a[|a| - 1]];
    }
  }

  /** A transaction is in a branch if one of its blocks contains it. */
  lemma {:induction false} TxsOfContents(hs: Headers, genesis: Hash, blocks: Blocks, h: Hash, c: nat, t: Tx)
    requires Tree(hs, genesis) && h in hs
    ensures t in TxsOf(hs, genesis, blocks, h, c) <==>
      exists x :: x in Branch(hs, genesis, h, c) && x in blocks && t in blocks[x]
    decreases hs[h].number
  {
    if hs[h].number > c {
      TxsOfContents(hs, genesis, blocks, hs[h].parent, c, t);
      assert h in Branch(hs, genesis, h, c);
    }
  }

  /** The walks from `a` and `b` have reached `x` and `y`, still above or at their fork. */
  ghost predicate Walked(hs: Headers, genesis: Hash, blocks: Blocks, a: Hash, b: Hash, x: Hash, y: Hash,
                         discarded: seq<Tx>, included: seq<Tx>) {
    && Tree(hs, genesis) && a in hs && b in hs && x in hs && y in hs && x in blocks && y in blocks
    && var c := Fork(hs, genesis, a, b);
    && Fork(hs, genesis, x, y) == c
    && discarded + TxsOf(hs, genesis, blocks, x, c) == TxsOf(hs, genesis, blocks, a, c)
    && included + TxsOf(hs, genesis, blocks, y, c) == TxsOf(hs, genesis, blocks, b, c)
    && (PresentDown(hs, genesis, blocks, a, c) <==> PresentDown(hs, genesis, blocks, x, c))
    && (PresentDown(hs, genesis, blocks, b, c) <==> PresentDown(hs, genesis, blocks, y, c))
  }

  lemma WalkStart(hs: Headers, genesis: Hash, blocks: Blocks, a: Hash, b: Hash)
    requires Tree(hs, genesis) && a in hs && b in hs && a in blocks && b in blocks
    ensures Walked(hs, genesis, blocks, a, b, a, b, [], [])
  {
    hide Tree;
  }

  /** One block down above the fork. */
  lemma OneDown(hs: Headers, genesis: Hash, blocks: Blocks, h: Hash, c: nat, all: seq<Tx>, got: seq<Tx>)
    requires Tree(hs, genesis) && h in hs && h in blocks && hs[h].number > c && hs[h].parent in hs
    requires got + TxsOf(hs, genesis, blocks, h, c) == all
    ensures got + blocks[h] + TxsOf(hs, genesis, blocks, hs[h].parent, c) == all
    ensures PresentDown(hs, genesis, blocks, h, c) <==> PresentDown(hs, genesis, blocks, hs[h].parent, c)
  {
    hide Tree;
  }

  lemma OldDown(hs: Headers, genesis: Hash, blocks: Blocks, a: Hash, b: Hash, x: Hash, y: Hash, discarded: seq<Tx>,
                included: seq<Tx>)
    requires Walked(hs, genesis, blocks, a, b, x, y, discarded, included) && hs[x].number > hs[y].number
    ensures var p := hs[x].parent;
      p in hs && hs[p].number == hs[x].number - 1 &&
      if p in blocks then Walked(hs, genesis, blocks, a, b, p, y, discarded + blocks[x], included)
      else !PresentDown(hs, genesis, blocks, a, Fork(hs, genesis, a, b))
  {
    hide Tree, PresentDown, TxsOf;
    var c := Fork(hs, genesis, a, b);
    ParentStep(hs, genesis, x);
    AboveFork(hs, genesis, x, y);
    OneDown(hs, genesis, blocks, x, c, TxsOf(hs, genesis, blocks, a, c), discarded);
    if hs[x].parent !in blocks { MissingParent(hs, genesis, blocks, x, c); }
  }

  lemma NewDown(hs: Headers, genesis: Hash, blocks: Blocks, a: Hash, b: Hash, x: Hash, y: Hash, discarded: seq<Tx>,
                included: seq<Tx>)
    requires Walked(hs, genesis, blocks, a, b, x, y, discarded, included) && hs[y].number > hs[x].number
    ensures var q := hs[y].parent;
      q in hs && hs[q].number == hs[y].number - 1 &&
      if q in blocks then Walked(hs, genesis, blocks, a, b, x, q, discarded, included + blocks[y])
      else !PresentDown(hs, genesis, blocks, b, Fork(hs, genesis, a, b))
  {
    hide Tree, PresentDown, TxsOf;
    var c := Fork(hs, genesis, a, b);
    ParentStep(hs, genesis, y);
    AboveFork(hs, genesis, x, y);
    OneDown(hs, genesis, blocks, y, c, TxsOf(hs, genesis, blocks, b, c), included);
    if hs[y].parent !in blocks { MissingParent(hs, genesis, blocks, y, c); }
  }

  lemma BothDown(hs: Headers, genesis: Hash, blocks: Blocks, a: Hash, b: Hash, x: Hash, y: Hash, discarded: seq<Tx>,
                 included: seq<Tx>)
    requires Walked(hs, genesis, blocks, a, b, x, y, discarded, included) && hs[y].number == hs[x].number && x != y
    ensures var p, q := hs[x].parent, hs[y].parent;
      p in hs && q in hs && hs[p].number == hs[q].number == hs[x].number - 1 &&
      if p !in blocks then !PresentDown(hs, genesis, blocks, a, Fork(hs, genesis, a, b))
      else if q !in blocks then !PresentDown(hs, genesis, blocks, b, Fork(hs, genesis, a, b))
      else Walked(hs, genesis, blocks, a, b, p, q, discarded + blocks[x], included + blocks[y])
  {
    hide Tree, PresentDown, TxsOf;
    var c := Fork(hs, genesis, a, b);
    ParentStep(hs, genesis, x);
    ParentStep(hs, genesis, y);
    AboveFork(hs, genesis, x, y);
    OneDown(hs, genesis, blocks, x, c, TxsOf(hs, genesis, blocks, a, c), discarded);
    OneDown(hs, genesis, blocks, y, c, TxsOf(hs, genesis, blocks, b, c), included);
    if hs[x].parent !in blocks { MissingParent(hs, genesis, blocks, x, c); }
    if hs[y].parent !in blocks { MissingParent(hs, genesis, blocks, y, c); }
  }

  lemma Met(hs: Headers, genesis: Hash, blocks: Blocks, a: Hash, b: Hash, x: Hash, discarded: seq<Tx>,
            included: seq<Tx>)
    requires Walked(hs, genesis, blocks, a, b, x, x, discarded, included)
    ensures var c := Fork(hs, genesis, a, b);
      && discarded == TxsOf(hs, genesis, blocks, a, c) && included == TxsOf(hs, genesis, blocks, b, c)
      && PresentDown(hs, genesis, blocks, a, c) && PresentDown(hs, genesis, blocks, b, c)
  {
    hide Tree;
  }

  /** Both branches down to the fork, or nothing if a block is missing on either side. */
  method Collect(hs: Headers, blocks: Blocks, a: Hash, b: Hash, ghost genesis: Hash)
    returns (ok: bool, discarded: seq<Tx>, included: seq<Tx>)
    requires Tree(hs, genesis) && a in hs && b in hs && a in blocks && b in blocks
    ensures var c := Fork(hs, genesis, a, b);
      && (ok <==> PresentDown(hs, genesis, blocks, a, c) && PresentDown(hs, genesis, blocks, b, c))
      && (ok ==> discarded == TxsOf(hs, genesis, blocks, a, c) && included == TxsOf(hs, genesis, blocks, b, c))
  {
    hide Tree, Walked, Fork, TxsOf, PresentDown;
    discarded, included := [], [];
    var x, y := a, b;
    WalkStart(hs, genesis, blocks, a, b);
    while hs[x].number > hs[y].number
      invariant x in hs && x in blocks && Walked(hs, genesis, blocks, a, b, x, y, discarded, included)
      decreases hs[x].number
    {
      OldDown(hs, genesis, blocks, a, b, x, y, discarded, included);
      discarded := discarded + blocks[x];
      x := hs[x].parent;
      if x !in blocks {
        return false, discarded, included;
      }
    }
    while hs[y].number > hs[x].number
      invariant y in hs && y in blocks && hs[x].number <= hs[y].number
      invariant Walked(hs, genesis, blocks, a, b, x, y, discarded, included)
      decreases hs[y].number
    {
      NewDown(hs, genesis, blocks, a, b, x, y, discarded, included);
      included := included + blocks[y];
      y := hs[y].parent;
      if y !in blocks {
        return false, discarded, included;
      }
    }
    while x != y
      invariant x in hs && x in blocks && y in hs && y in blocks && hs[y].number == hs[x].number
      invariant Walked(hs, genesis, blocks, a, b, x, y, discarded, included)
      decreases hs[x].number
    {
      BothDown(hs, genesis, blocks, a, b, x, y, discarded, included);
      discarded, included := discarded + blocks[x], included + blocks[y];
      x, y := hs[x].parent, hs[y].parent;
      if x !in blocks || y !in blocks {
        return false, discarded, included;
      }
    }
    Met(hs, genesis, blocks, a, b, x, discarded, included);
    ok := true;
  }

  /** A block of `a` above its fork with `b` contains `t`. */
  ghost predicate OnBranch(hs: Headers, genesis: Hash, blocks: Blocks, a: Hash, b: Hash, t: Tx)
    requires Tree(hs, genesis) && a in hs && b in hs
  {
    exists i: nat :: i <= hs[a].number
      && (i <= hs[b].number ==> AncestorAt(hs, genesis, a, i) != AncestorAt(hs, genesis, b, i))
      && AncestorAt(hs, genesis, a, i) in blocks && t in blocks[AncestorAt(hs, genesis, a, i)]
  }

  lemma InBranch(hs: Headers, genesis: Hash, h: Hash, c: nat, i: nat)
    requires Tree(hs, genesis) && h in hs && c < i <= hs[h].number
    ensures AncestorAt(hs, genesis, h, i) in Branch(hs, genesis, h, c)
  {
    hide Tree, AncestorAt, Branch;
    BranchAt(hs, genesis, h, c, hs[h].number - i);
  }

  lemma FromBranch(hs: Headers, genesis: Hash, h: Hash, c: nat, x: Hash) returns (i: nat)
    requires Tree(hs, genesis) && h in hs && c <= hs[h].number && x in Branch(hs, genesis, h, c)
    ensures c < i <= hs[h].number && AncestorAt(hs, genesis, h, i) == x
  {
    hide Tree, AncestorAt, Branch;
    if hs[h].number == c { NoBranch(hs, genesis, h, c); }
    BranchAt(hs, genesis, h, c, 0);
    var k: nat :| k < |Branch(hs, genesis, h, c)| && Branch(hs, genesis, h, c)[k] == x;
    BranchAt(hs, genesis, h, c, k);
    i := hs[h].number - k;
  }

  lemma NoBranch(hs: Headers, genesis: Hash, h: Hash, c: nat)
    requires Tree(hs, genesis) && h in hs && hs[h].number <= c
    ensures Branch(hs, genesis, h, c) == []
  {
  }

  lemma OnBranchIs(hs: Headers, genesis: Hash, blocks: Blocks, a: Hash, b: Hash, c: nat, t: Tx)
    requires Tree(hs, genesis) && a in hs && b in hs && c <= hs[a].number && c <= hs[b].number
    requires forall i: nat :: i <= hs[a].number && i <= hs[b].number ==>
      (AncestorAt(hs, genesis, a, i) == AncestorAt(hs, genesis, b, i) <==> i <= c)
    ensures OnBranch(hs, genesis, blocks, a, b, t) <==> t in TxsOf(hs, genesis, blocks, a, c)
  {
    hide Tree, AncestorAt, Branch, TxsOf;
    TxsOfContents(hs, genesis, blocks, a, c, t);
    if OnBranch(hs, genesis, blocks, a, b, t) {
      var i: nat :| i <= hs[a].number
        && (i <= hs[b].number ==> AncestorAt(hs, genesis, a, i) != AncestorAt(hs, genesis, b, i))
        && AncestorAt(hs, genesis, a, i) in blocks && t in blocks[AncestorAt(hs, genesis, a, i)];
      assert c < i;
      var x := AncestorAt(hs, genesis, a, i);
      InBranch(hs, genesis, a, c, i);
      assert x in Branch(hs, genesis, a, c) && x in blocks && t in blocks[x];
    }
    if t in TxsOf(hs, genesis, blocks, a, c) {
      var x :| x in Branch(hs, genesis, a, c) && x in blocks && t in blocks[x];
      var i := FromBranch(hs, genesis, a, c, x);
      assert i <= hs[b].number ==> AncestorAt(hs, genesis, a, i) != AncestorAt(hs, genesis, b, i);
      assert AncestorAt(hs, genesis, a, i) in blocks && t in blocks[AncestorAt(hs, genesis, a, i)];
      assert OnBranch(hs, genesis, blocks, a, b, t);
    }
  }

  lemma ReinjectedAre(hs: Headers, genesis: Hash, blocks: Blocks, a: Hash, b: Hash, t: Tx)
    requires Tree(hs, genesis) && a in hs && b in hs
    ensures var c := Fork(hs, genesis, a, b);
      t in Difference(TxsOf(hs, genesis, blocks, a, c), TxsOf(hs, genesis, blocks, b, c)) <==>
      OnBranch(hs, genesis, blocks, a, b, t) && !OnBranch(hs, genesis, blocks, b, a, t)
  {
    hide Tree, AncestorAt, Fork, TxsOf, OnBranch, Difference;
    var c := Fork(hs, genesis, a, b);
    ForkSeparates(hs, genesis, a, b, 0);
    forall i: nat | i <= hs[a].number && i <= hs[b].number
      ensures AncestorAt(hs, genesis, a, i) == AncestorAt(hs, genesis, b, i) <==> i <= c
    {
      ForkSeparates(hs, genesis, a, b, i);
    }
    OnBranchIs(hs, genesis, blocks, a, b, c, t);
    OnBranchIs(hs, genesis, blocks, b, a, c, t);
    DifferenceContents(TxsOf(hs, genesis, blocks, a, c), TxsOf(hs, genesis, blocks, b, c), t);
  }

  function Depth(a: nat, b: nat): nat { if a < b then b - a else a - b }

  /** The heads are a reorganisation that is not too deep to look at. */
  predicate Shallow(oldHead: Option<Header>, newHead: Header) {
    && oldHead.Some? && oldHead.value.hash != newHead.parent
    && Depth(oldHead.value.number, newHead.number) <= MAX_DEPTH
  }

  /** The new head is not on top of the old one, at most 64 blocks above or below it, and the old
      one is still there. */
  ghost predicate Examined(blocks: Blocks, oldHead: Option<Header>, newHead: Header) {
    && Apart(oldHead, newHead) && oldHead.value.hash in blocks
  }

  ghost predicate Apart(oldHead: Option<Header>, newHead: Header) {
    && oldHead.Some? && newHead.parent != oldHead.value.hash
    && newHead.number <= oldHead.value.number + 64 && oldHead.value.number <= newHead.number + 64
  }

  lemma ShallowIsApart(oldHead: Option<Header>, newHead: Header)
    ensures Shallow(oldHead, newHead) <==> Apart(oldHead, newHead)
  {
  }

  /** The transactions to re-inject when the head moves from `oldHead` to `newHead`, or nothing if
      the reset is given up. They are those of the old branch that the new one does not contain.
      A reset is given up if the old head is missing and the new one is not lower, or if a
      block of either branch is missing. */
  method Reinject(hs: Headers, blocks: Blocks, oldHead: Option<Header>, newHead: Header, ghost genesis: Hash)
    returns (r: Option<seq<Tx>>)
    requires Tree(hs, genesis)
    requires Examined(blocks, oldHead, newHead) ==>
      && newHead.hash in blocks && newHead.hash in hs && hs[newHead.hash] == newHead
      && oldHead.value.hash in hs && hs[oldHead.value.hash] == oldHead.value
    ensures Examined(blocks, oldHead, newHead) ==>
      (var a, b := oldHead.value.hash, newHead.hash; var c := Fork(hs, genesis, a, b);
       && (r.Some? <==> PresentDown(hs, genesis, blocks, a, c) && PresentDown(hs, genesis, blocks, b, c))
       && (r.Some? ==>
           r.value == Difference(TxsOf(hs, genesis, blocks, a, c), TxsOf(hs, genesis, blocks, b, c))))
    ensures !Examined(blocks, oldHead, newHead) ==>
      r == if Apart(oldHead, newHead) && newHead.number >= oldHead.value.number then None else Some([])
    ensures r.Some? && Examined(blocks, oldHead, newHead) ==>
      forall t :: t in r.value <==>
        OnBranch(hs, genesis, blocks, oldHead.value.hash, newHead.hash, t)
          && !OnBranch(hs, genesis, blocks, newHead.hash, oldHead.value.hash, t)
  {
    hide Tree, Fork, TxsOf, PresentDown, Difference, OnBranch, Apart;
    ShallowIsApart(oldHead, newHead);
    if !Shallow(oldHead, newHead) {
      return Some([]);
    }
    if oldHead.value.hash !in blocks {
      return if newHead.number >= oldHead.value.number then None else Some([]);
    }
    var ok, discarded, included := Collect(hs, blocks, oldHead.value.hash, newHead.hash, genesis);
    if !ok {
      return None;
    }
    var keep := TxDifference(discarded, included);
    forall t ensures t in keep <==>
      OnBranch(hs, genesis, blocks, oldHead.value.hash, newHead.hash, t)
        && !OnBranch(hs, genesis, blocks, newHead.hash, oldHead.value.hash, t)
    {
      ReinjectedAre(hs, genesis, blocks, oldHead.value.hash, newHead.hash, t);
    }
    r := Some(keep);
  }
}

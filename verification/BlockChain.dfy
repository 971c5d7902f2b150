/** core/blockchain.go: moving the head block, reorganisations and the transaction index. */
module BlockChains {
  import opened Transactions
  import opened ChainTree
  import opened HeaderChains

  type TxId = nat
  type Bodies = map<Hash, seq<TxId>>
  type TxIndex = map<TxId, nat>

  function Body(bodies: Bodies, h: Hash): seq<TxId> {
    if h in bodies then bodies[h] else []
  }

  // ---------------------------------------------------------------------
  // The fork of two blocks

  /** The height of the last common ancestor. */
  ghost function Fork(hs: Headers, genesis: Hash, a: Hash, b: Hash): nat
    requires Tree(hs, genesis) && a in hs && b in hs
    decreases hs[a].number + hs[b].number
  {
    if a == b then hs[a].number
    else if hs[a].number > hs[b].number then Fork(hs, genesis, hs[a].parent, b)
    else if hs[a].number < hs[b].number then Fork(hs, genesis, a, hs[b].parent)
    else Fork(hs, genesis, hs[a].parent, hs[b].parent)
  }

  /** Up to the fork the two ancestor paths agree, above it they differ. */
  lemma {:induction false} ForkSeparates(hs: Headers, genesis: Hash, a: Hash, b: Hash, i: nat)
    requires Tree(hs, genesis) && a in hs && b in hs && i <= hs[a].number && i <= hs[b].number
    ensures Fork(hs, genesis, a, b) <= hs[a].number && Fork(hs, genesis, a, b) <= hs[b].number
    ensures AncestorAt(hs, genesis, a, i) == AncestorAt(hs, genesis, b, i) <==> i <= Fork(hs, genesis, a, b)
    decreases hs[a].number + hs[b].number
  {
    if a == b {
    } else if hs[a].number > hs[b].number {
      ForkSeparates(hs, genesis, hs[a].parent, b, i);
    } else if hs[a].number < hs[b].number {
      ForkSeparates(hs, genesis, a, hs[b].parent, i);
    } else {
      ForkSeparates(hs, genesis, hs[a].parent, hs[b].parent, if i < hs[a].number then i else 0);
    }
  }

  /** The hashes from `h` down to the one above height `c`. */
  ghost function Branch(hs: Headers, genesis: Hash, h: Hash, c: nat): seq<Hash>
    requires Tree(hs, genesis) && h in hs
    decreases hs[h].number
  {
    if hs[h].number <= c then [] else [h] + Branch(hs, genesis, hs[h].parent, c)
  }

  lemma {:induction false} BranchAt(hs: Headers, genesis: Hash, h: Hash, c: nat, i: nat)
    requires Tree(hs, genesis) && h in hs && c <= hs[h].number && i < hs[h].number - c
    ensures |Branch(hs, genesis, h, c)| == hs[h].number - c
    ensures Branch(hs, genesis, h, c)[i] == AncestorAt(hs, genesis, h, hs[h].number - i)
    decreases hs[h].number
  {
    hide Tree;
    ParentStep(hs, genesis, h);
    if hs[h].number - 1 > c { BranchAt(hs, genesis, hs[h].parent, c, if i > 0 then i - 1 else 0); }
  }

  /** The transactions of the blocks from `h` down to height c + 1. */
  ghost function TxsDown(hs: Headers, genesis: Hash, bodies: Bodies, h: Hash, c: nat): set<TxId>
    requires Tree(hs, genesis) && h in hs
    decreases hs[h].number
  {
    if hs[h].number <= c then {} else (set t | t in Body(bodies, h)) + TxsDown(hs, genesis, bodies, hs[h].parent, c)
  }

  /** The blocks from `h` down to height `c` all have bodies. */
  ghost predicate PresentDown<T>(hs: Headers, genesis: Hash, bodies: map<Hash, seq<T>>, h: Hash, c: nat)
    requires Tree(hs, genesis) && h in hs
    decreases hs[h].number
  {
    h in bodies && (hs[h].number > c ==> PresentDown(hs, genesis, bodies, hs[h].parent, c))
  }

  // ---------------------------------------------------------------------
  // The transaction index of a path

  /** WriteTxLookupEntriesByBlock */
  function Indexed(index: TxIndex, txs: seq<TxId>, number: nat): TxIndex {
    index + map t | t in txs :: number
  }

  /** Every transaction on the path of `h`, with the height of its block. */
  ghost function PathIndex(hs: Headers, genesis: Hash, bodies: Bodies, h: Hash): TxIndex
    requires Tree(hs, genesis) && h in hs
    decreases hs[h].number
  {
    if h == genesis then Indexed(map[], Body(bodies, h), 0)
    else Indexed(PathIndex(hs, genesis, bodies, hs[h].parent), Body(bodies, h), hs[h].number)
  }

  /** The index names exactly the transactions of the path, each with a block that has it. */
  lemma {:induction false} PathIndexContents(hs: Headers, genesis: Hash, bodies: Bodies, h: Hash, t: TxId)
    requires Tree(hs, genesis) && h in hs
    ensures t in PathIndex(hs, genesis, bodies, h) <==>
      exists i: nat :: i <= hs[h].number && t in Body(bodies, AncestorAt(hs, genesis, h, i))
    ensures t in PathIndex(hs, genesis, bodies, h) ==>
      var i := PathIndex(hs, genesis, bodies, h)[t];
        i <= hs[h].number && t in Body(bodies, AncestorAt(hs, genesis, h, i))
    decreases hs[h].number
  {
    hide Tree, Body;
    ParentStep(hs, genesis, h);
    AncestorAtSelf(hs, genesis, h);
    var body, index := Body(bodies, h), PathIndex(hs, genesis, bodies, h);
    if h == genesis {
      assert t in index <==> t in Body(bodies, AncestorAt(hs, genesis, h, 0));
    } else {
      var p := hs[h].parent;
      var below := PathIndex(hs, genesis, bodies, p);
      PathIndexContents(hs, genesis, bodies, p, t);
      assert t in index <==> t in body || t in below;
      if t in body {
        assert t in Body(bodies, AncestorAt(hs, genesis, h, hs[h].number));
      } else if t in below {
        assert index[t] == below[t];
        ParentPath(hs, genesis, h, below[t]);
      } else if i: nat :| i <= hs[h].number && t in Body(bodies, AncestorAt(hs, genesis, h, i)) {
        if i < hs[h].number { ParentPath(hs, genesis, h, i); }
        assert false;
      }
    }
  }

  /** No transaction is in two blocks of the path of `h`. */
  ghost predicate NoRepeat(hs: Headers, genesis: Hash, bodies: Bodies, h: Hash)
    requires Tree(hs, genesis) && h in hs
    decreases hs[h].number
  {
    h == genesis || (
      && NoRepeat(hs, genesis, bodies, hs[h].parent)
      && forall t :: t in Body(bodies, h) ==> t !in PathIndex(hs, genesis, bodies, hs[h].parent))
  }

  /** `index` after writing the blocks of the branch of `h` above height `c`, lowest first. */
  ghost function Over(hs: Headers, genesis: Hash, bodies: Bodies, index: TxIndex, h: Hash, c: nat): TxIndex
    requires Tree(hs, genesis) && h in hs
    decreases hs[h].number
  {
    if hs[h].number <= c then index
    else Indexed(Over(hs, genesis, bodies, index, hs[h].parent, c), Body(bodies, h), hs[h].number)
  }

  /** Writing a branch on two indexes gives the branch's entries in both and leaves the rest. */
  lemma {:induction false} OverAt(hs: Headers, genesis: Hash, bodies: Bodies, x: TxIndex, y: TxIndex, h: Hash, c: nat,
                                  t: TxId)
    requires Tree(hs, genesis) && h in hs
    ensures var ox, oy := Over(hs, genesis, bodies, x, h, c), Over(hs, genesis, bodies, y, h, c);
      if t in TxsDown(hs, genesis, bodies, h, c) then t in ox && t in oy && ox[t] == oy[t]
      else (t in ox <==> t in x) && (t in x ==> ox[t] == x[t]) && (t in oy <==> t in y) && (t in y ==> oy[t] == y[t])
    decreases hs[h].number
  {
    if hs[h].number > c { OverAt(hs, genesis, bodies, x, y, hs[h].parent, c, t); }
  }

  lemma {:induction false} PathIsOver(hs: Headers, genesis: Hash, bodies: Bodies, h: Hash, c: nat)
    requires Tree(hs, genesis) && h in hs && c <= hs[h].number
    ensures AncestorAt(hs, genesis, h, c) in hs
    ensures PathIndex(hs, genesis, bodies, h) ==
      Over(hs, genesis, bodies, PathIndex(hs, genesis, bodies, AncestorAt(hs, genesis, h, c)), h, c)
    decreases hs[h].number
  {
    AncestorIn(hs, genesis, h, c);
    if c < hs[h].number { PathIsOver(hs, genesis, bodies, hs[h].parent, c); }
  }

  /** Without repeats, what lies above height `c` does not lie below. */
  lemma {:induction false} NotBelow(hs: Headers, genesis: Hash, bodies: Bodies, h: Hash, c: nat, t: TxId)
    requires Tree(hs, genesis) && h in hs && c <= hs[h].number && NoRepeat(hs, genesis, bodies, h)
    requires t in TxsDown(hs, genesis, bodies, h, c)
    ensures AncestorAt(hs, genesis, h, c) in hs && t !in PathIndex(hs, genesis, bodies, AncestorAt(hs, genesis, h, c))
    decreases hs[h].number
  {
    AncestorIn(hs, genesis, h, c);
    var p := hs[h].parent;
    if t in Body(bodies, h) {
      PathIsOver(hs, genesis, bodies, p, c);
      var base := PathIndex(hs, genesis, bodies, AncestorAt(hs, genesis, p, c));
      OverAt(hs, genesis, bodies, base, base, p, c, t);
    } else {
      NotBelow(hs, genesis, bodies, p, c, t);
    }
  }

  /** The index kept by a reorganisation: the old path's, overwritten by the new branch, less
      the old branch's transactions that the new branch does not have, is the new path's. */
  lemma ReorgIndex(hs: Headers, genesis: Hash, bodies: Bodies, a: Hash, h: Hash, c: nat)
    requires Tree(hs, genesis) && a in hs && h in hs && c <= hs[a].number && c <= hs[h].number
    requires AncestorAt(hs, genesis, a, c) == AncestorAt(hs, genesis, h, c) && NoRepeat(hs, genesis, bodies, a)
    ensures Over(hs, genesis, bodies, PathIndex(hs, genesis, bodies, a), h,
                 c) - (TxsDown(hs, genesis, bodies, a, c) - TxsDown(hs, genesis, bodies, h, c))
      == PathIndex(hs, genesis, bodies, h)
  {
    hide Tree, AncestorAt, PathIndex, Over, TxsDown, NoRepeat;
    AncestorIn(hs, genesis, a, c);
    var base := PathIndex(hs, genesis, bodies, AncestorAt(hs, genesis, a, c));
    var index := PathIndex(hs, genesis, bodies, a);
    PathIsOver(hs, genesis, bodies, a, c);
    PathIsOver(hs, genesis, bodies, h, c);
    var dead := TxsDown(hs, genesis, bodies, a, c) - TxsDown(hs, genesis, bodies, h, c);
    var got, want := Over(hs, genesis, bodies, index, h, c) - dead, PathIndex(hs, genesis, bodies, h);
    forall t ensures (t in got <==> t in want) && (t in want ==> got[t] == want[t]) {
      OverAt(hs, genesis, bodies, index, base, h, c, t);
      OverAt(hs, genesis, bodies, base, base, a, c, t);
      if t in TxsDown(hs, genesis, bodies, a, c) { NotBelow(hs, genesis, bodies, a, c, t); }
    }
    assert got == want;
  }

  // ---------------------------------------------------------------------
  // Walking back to the fork

  /** The walks from `a` and `b` have reached `x` and `y`, still above or at their fork. */
  ghost predicate Reducing(hs: Headers, genesis: Hash, bodies: Bodies, a: Hash, b: Hash, x: Hash, y: Hash,
                           newChain: seq<Hash>, deleted: set<TxId>) {
    && Tree(hs, genesis) && a in hs && b in hs && x in hs && y in hs && x in bodies && y in bodies
    && var c := Fork(hs, genesis, a, b);
    && Fork(hs, genesis, x, y) == c
    && newChain + Branch(hs, genesis, y, c) == Branch(hs, genesis, b, c)
    && deleted + TxsDown(hs, genesis, bodies, x, c) == TxsDown(hs, genesis, bodies, a, c)
    && (PresentDown(hs, genesis, bodies, a, c) <==> PresentDown(hs, genesis, bodies, x, c))
    && (PresentDown(hs, genesis, bodies, b, c) <==> PresentDown(hs, genesis, bodies, y, c))
  }

  lemma AboveFork(hs: Headers, genesis: Hash, x: Hash, y: Hash)
    requires Tree(hs, genesis) && x in hs && y in hs && x != y
    ensures hs[x].number >= hs[y].number ==>
      hs[x].parent in hs && Fork(hs, genesis, x, y) < hs[x].number && hs[x].number > 0
    ensures hs[y].number >= hs[x].number ==>
      hs[y].parent in hs && Fork(hs, genesis, x, y) < hs[y].number && hs[y].number > 0
  {
    hide Tree, AncestorAt;
    ParentStep(hs, genesis, x);
    ParentStep(hs, genesis, y);
    ForkSeparates(hs, genesis, x, y, 0);
    if hs[x].number == hs[y].number {
      ForkSeparates(hs, genesis, x, y, hs[x].number);
      AncestorAtSelf(hs, genesis, x);
      AncestorAtSelf(hs, genesis, y);
    }
  }

  lemma MissingParent<T>(hs: Headers, genesis: Hash, bodies: map<Hash, seq<T>>, h: Hash, c: nat)
    requires Tree(hs, genesis) && h in hs && hs[h].number > c && hs[h].parent !in bodies
    ensures !PresentDown(hs, genesis, bodies, h, c)
  {
  }

  lemma OldStep(hs: Headers, genesis: Hash, bodies: Bodies, a: Hash, b: Hash, x: Hash, y: Hash, newChain: seq<Hash>,
                deleted: set<TxId>)
    requires Reducing(hs, genesis, bodies, a, b, x, y, newChain, deleted) && hs[x].number > hs[y].number
    ensures var p := hs[x].parent;
      p in hs && hs[p].number == hs[x].number - 1 &&
      if p in bodies then Reducing(hs, genesis, bodies, a, b, p, y, newChain, deleted + set t | t in bodies[x])
      else !PresentDown(hs, genesis, bodies, a, Fork(hs, genesis, a, b))
  {
    hide Tree;
    ParentStep(hs, genesis, x);
    AboveFork(hs, genesis, x, y);
    if hs[x].parent !in bodies { MissingParent(hs, genesis, bodies, x, Fork(hs, genesis, a, b)); }
  }

  lemma NewStep(hs: Headers, genesis: Hash, bodies: Bodies, a: Hash, b: Hash, x: Hash, y: Hash, newChain: seq<Hash>,
                deleted: set<TxId>)
    requires Reducing(hs, genesis, bodies, a, b, x, y, newChain, deleted) && hs[y].number > hs[x].number
    ensures var q := hs[y].parent;
      q in hs && hs[q].number == hs[y].number - 1 &&
      if q in bodies then Reducing(hs, genesis, bodies, a, b, x, q, newChain + [y], deleted)
      else !PresentDown(hs, genesis, bodies, b, Fork(hs, genesis, a, b))
  {
    hide Tree;
    ParentStep(hs, genesis, y);
    AboveFork(hs, genesis, x, y);
    if hs[y].parent !in bodies { MissingParent(hs, genesis, bodies, y, Fork(hs, genesis, a, b)); }
  }

  lemma BothStep(hs: Headers, genesis: Hash, bodies: Bodies, a: Hash, b: Hash, x: Hash, y: Hash, newChain: seq<Hash>,
                 deleted: set<TxId>)
    requires Reducing(hs, genesis, bodies, a, b, x, y, newChain, deleted) && hs[y].number == hs[x].number && x != y
    ensures var p, q := hs[x].parent, hs[y].parent;
      p in hs && q in hs && hs[p].number == hs[q].number == hs[x].number - 1 &&
      if p !in bodies then !PresentDown(hs, genesis, bodies, a, Fork(hs, genesis, a, b))
      else if q !in bodies then !PresentDown(hs, genesis, bodies, b, Fork(hs, genesis, a, b))
      else Reducing(hs, genesis, bodies, a, b, p, q, newChain + [y], deleted + set t | t in bodies[x])
  {
    hide Tree;
    ParentStep(hs, genesis, x);
    ParentStep(hs, genesis, y);
    AboveFork(hs, genesis, x, y);
    if hs[x].parent !in bodies { MissingParent(hs, genesis, bodies, x, Fork(hs, genesis, a, b)); }
    if hs[y].parent !in bodies { MissingParent(hs, genesis, bodies, y, Fork(hs, genesis, a, b)); }
  }

  lemma ForkReached(hs: Headers, genesis: Hash, bodies: Bodies, a: Hash, b: Hash, x: Hash, newChain: seq<Hash>,
                    deleted: set<TxId>)
    requires Reducing(hs, genesis, bodies, a, b, x, x, newChain, deleted)
    ensures var c := Fork(hs, genesis, a, b);
      && newChain == Branch(hs, genesis, b, c) && deleted == TxsDown(hs, genesis, bodies, a, c)
      && PresentDown(hs, genesis, bodies, a, c) && PresentDown(hs, genesis, bodies, b, c)
  {
    hide Tree;
  }

  /** The first half of reorg: the new branch and the transactions of the old one. It fails
      exactly when a block at or above the fork is missing on either side. */
  method FindFork(hs: Headers, bodies: Bodies, a: Hash, b: Hash, ghost genesis: Hash)
      returns (ok: bool, newChain: seq<Hash>, deleted: set<TxId>)
    requires Tree(hs, genesis) && a in hs && b in hs && a in bodies && b in bodies
    ensures var c := Fork(hs, genesis, a, b);
      && (ok <==> PresentDown(hs, genesis, bodies, a, c) && PresentDown(hs, genesis, bodies, b, c))
      && (ok ==> newChain == Branch(hs, genesis, b, c) && deleted == TxsDown(hs, genesis, bodies, a, c))
  {
    hide Tree, Reducing, Fork, Branch, TxsDown, PresentDown;
    newChain, deleted := [], {};
    var x, y := a, b;
    ReducingStart(hs, genesis, bodies, a, b);
    if hs[x].number > hs[y].number {
      while hs[x].number != hs[y].number
        invariant x in hs && x in bodies && hs[x].number >= hs[y].number
        invariant Reducing(hs, genesis, bodies, a, b, x, y, newChain, deleted)
        decreases hs[x].number
      {
        OldStep(hs, genesis, bodies, a, b, x, y, newChain, deleted);
        deleted := deleted + set t | t in bodies[x];
        x := hs[x].parent;
        if x !in bodies {
          return false, newChain, deleted;
        }
      }
    } else {
      while hs[y].number != hs[x].number
        invariant y in hs && y in bodies && hs[y].number >= hs[x].number
        invariant Reducing(hs, genesis, bodies, a, b, x, y, newChain, deleted)
        decreases hs[y].number
      {
        NewStep(hs, genesis, bodies, a, b, x, y, newChain, deleted);
        newChain := newChain + [y];
        y := hs[y].parent;
        if y !in bodies {
          return false, newChain, deleted;
        }
      }
    }
    while x != y
      invariant x in hs && x in bodies && y in hs && y in bodies && hs[y].number == hs[x].number
      invariant Reducing(hs, genesis, bodies, a, b, x, y, newChain, deleted)
      decreases hs[x].number
    {
      BothStep(hs, genesis, bodies, a, b, x, y, newChain, deleted);
      deleted, newChain := deleted + (set t | t in bodies[x]), newChain + [y];
      x, y := hs[x].parent, hs[y].parent;
      if x !in bodies || y !in bodies {
        return false, newChain, deleted;
      }
    }
    ForkReached(hs, genesis, bodies, a, b, x, newChain, deleted);
    ok := true;
  }

  lemma ReducingStart(hs: Headers, genesis: Hash, bodies: Bodies, a: Hash, b: Hash)
    requires Tree(hs, genesis) && a in hs && b in hs && a in bodies && b in bodies
    ensures Reducing(hs, genesis, bodies, a, b, a, b, [], {})
  {
    hide Tree;
  }

  // ---------------------------------------------------------------------
  // Rewriting the markers

  /** The markers follow the path of `b` up to height `j` and that of `a` above. */
  ghost predicate Rewritten(hs: Headers, genesis: Hash, canon: Markers, a: Hash, b: Hash, j: nat)
    requires Tree(hs, genesis) && a in hs && b in hs && j <= hs[b].number
  {
    forall i: nat ::
      if i <= j then i in canon && canon[i] == AncestorAt(hs, genesis, b, i)
      else if i <= hs[a].number then i in canon && canon[i] == AncestorAt(hs, genesis, a, i)
      else i !in canon
  }

  /** The blocks of the new branch up to height `j` have been made head one after the other. */
  ghost predicate Writing(hs: Headers, genesis: Hash, bodies: Bodies, a: Hash, b: Hash, canon: Markers, index: TxIndex,
                          added: set<TxId>, head: Hash, j: nat) {
    && Tree(hs, genesis) && a in hs && b in hs
    && var c := Fork(hs, genesis, a, b);
    && c <= j <= hs[b].number && AncestorAt(hs, genesis, b, j) in hs && Rewritten(hs, genesis, canon, a, b, j)
    && index == Over(hs, genesis, bodies, PathIndex(hs, genesis, bodies, a), AncestorAt(hs, genesis, b, j), c)
    && added == TxsDown(hs, genesis, bodies, AncestorAt(hs, genesis, b, j), c)
    && head == if j == c then a else AncestorAt(hs, genesis, b, j)
  }

  lemma WritingStart(hs: Headers, genesis: Hash, bodies: Bodies, a: Hash, b: Hash, canon: Markers)
    requires Tree(hs, genesis) && a in hs && b in hs && MarksPath(hs, genesis, canon, a)
    ensures Writing(hs, genesis, bodies, a, b, canon, PathIndex(hs, genesis, bodies, a), {}, a, Fork(hs, genesis, a, b))
  {
    hide Tree, AncestorAt, PathIndex;
    var c := Fork(hs, genesis, a, b);
    ForkSeparates(hs, genesis, a, b, 0);
    AncestorIn(hs, genesis, b, c);
    forall i: nat | i <= c
      ensures AncestorAt(hs, genesis, a, i) == AncestorAt(hs, genesis, b, i) { ForkSeparates(hs, genesis, a, b, i); }
  }

  lemma WritingStep(hs: Headers, genesis: Hash, bodies: Bodies, a: Hash, b: Hash, canon: Markers, index: TxIndex,
                    added: set<TxId>, head: Hash, j: nat, h: Hash)
    requires Writing(hs, genesis, bodies, a, b, canon, index, added, head, j) && j < hs[b].number
      && h == AncestorAt(hs, genesis, b, j + 1)
    ensures h in hs && hs[h].number == j + 1 && ReadMark(canon, j + 1) != h
    ensures Writing(hs, genesis, bodies, a, b, canon[j + 1 := h], Indexed(index, Body(bodies, h), j + 1),
                    added + (set t | t in Body(bodies, h)), h, j + 1)
  {
    hide Tree, AncestorAt, PathIndex, Fork;
    AncestorIn(hs, genesis, b, j + 1);
    AncestorParent(hs, genesis, b, j + 1);
    if j + 1 <= hs[a].number { ForkSeparates(hs, genesis, a, b, j + 1); }
    NotZero(hs, genesis, h);
  }

  lemma NotZero(hs: Headers, genesis: Hash, h: Hash)
    requires Tree(hs, genesis) && h in hs
    ensures h != NO_HASH
  {
  }

  lemma RewrittenDense(hs: Headers, genesis: Hash, canon: Markers, a: Hash, b: Hash, j: nat)
    requires Tree(hs, genesis) && a in hs && b in hs && j <= hs[b].number && Rewritten(hs, genesis, canon, a, b, j)
    ensures forall i: nat :: i in canon <==> i <= (if j <= hs[a].number then hs[a].number else j)
    ensures forall i :: i in canon ==> canon[i] != NO_HASH
  {
    hide Tree, AncestorAt;
    forall i: nat | i in canon ensures canon[i] != NO_HASH {
      if i <= j { AncestorIn(hs, genesis, b, i); } else { AncestorIn(hs, genesis, a, i); }
      NotZero(hs, genesis, canon[i]);
    }
  }

  /** Markers of one path with everything above height `j` removed. */
  lemma CutToPath(hs: Headers, genesis: Hash, canon: Markers, a: Hash, b: Hash, j: nat, r: Markers)
    requires Tree(hs, genesis) && a in hs && b in hs && j <= hs[b].number && Rewritten(hs, genesis, canon, a, b, j)
    requires NoneAbove(r, j) && forall i: nat :: i <= j ==> ReadMark(r, i) == ReadMark(canon, i)
    ensures AncestorAt(hs, genesis, b, j) in hs && MarksPath(hs, genesis, r, AncestorAt(hs, genesis, b, j))
  {
    hide Tree, AncestorAt;
    var h := AncestorAt(hs, genesis, b, j);
    AncestorIn(hs, genesis, b, j);
    forall i: nat | i <= j ensures i in r && r[i] == AncestorAt(hs, genesis, h, i) {
      AncestorTrans(hs, genesis, b, j, i);
      AncestorIn(hs, genesis, b, i);
      NotZero(hs, genesis, canon[i]);
      assert ReadMark(r, i) == ReadMark(canon, i);
    }
  }

  lemma NothingCut(canon: Markers, n: nat, r: Markers)
    requires (forall i: nat :: i in canon <==> i <= n) && forall i :: i in canon ==> canon[i] != NO_HASH
    requires NoneAbove(r, n) && forall i: nat :: i <= n ==> ReadMark(r, i) == ReadMark(canon, i)
    ensures r == canon
  {
    forall i: nat ensures i in r <==> i in canon { if i <= n { assert ReadMark(r, i) == ReadMark(canon, i); } }
    forall i: nat | i in r ensures r[i] == canon[i] { assert ReadMark(r, i) == ReadMark(canon, i); }
  }

  /** Marking a block on top of its parent's path. */
  lemma MarkOnTop(hs: Headers, genesis: Hash, canon: Markers, b: Hash)
    requires Tree(hs, genesis) && b in hs && b != genesis && hs[b].parent in hs
      && MarksPath(hs, genesis, canon, hs[b].parent)
    ensures MarksPath(hs, genesis, canon[hs[b].number := b], b) && ReadMark(canon, hs[b].number) != b
  {
    hide Tree, AncestorAt;
    ParentStep(hs, genesis, b);
    AncestorAtSelf(hs, genesis, b);
    NotZero(hs, genesis, b);
    forall i: nat | i < hs[b].number
      ensures AncestorAt(hs, genesis, b, i) ==
        AncestorAt(hs, genesis, hs[b].parent, i) { ParentPath(hs, genesis, b, i); }
  }

  /** Marking a block at most one above the fork, on the markers of the old path: right
      exactly when no old marker is left above it. */
  lemma MarkShort(hs: Headers, genesis: Hash, canon: Markers, a: Hash, b: Hash)
    requires Tree(hs, genesis) && a in hs && b in hs && MarksPath(hs, genesis, canon, a)
      && hs[b].number <= Fork(hs, genesis, a, b) + 1
    ensures MarksPath(hs, genesis, canon[hs[b].number := b], b) <==> hs[b].number >= hs[a].number
  {
    hide Tree, AncestorAt, Fork;
    var c := Fork(hs, genesis, a, b);
    ForkSeparates(hs, genesis, a, b, 0);
    AncestorAtSelf(hs, genesis, b);
    forall i: nat | i <= c
      ensures AncestorAt(hs, genesis, a, i) == AncestorAt(hs, genesis, b, i) { ForkSeparates(hs, genesis, a, b, i); }
    if hs[b].number < hs[a].number { assert hs[a].number in canon[hs[b].number := b]; }
  }

  /** Whether the new branch has two blocks or more shows in the marker below its tip. */
  lemma BranchLength(hs: Headers, genesis: Hash, canon: Markers, a: Hash, b: Hash)
    requires Tree(hs, genesis) && a in hs && b in hs && MarksPath(hs, genesis, canon, a) && hs[b].number < hs[a].number
    ensures hs[b].number >= Fork(hs, genesis, a, b) + 2 <==>
      hs[b].number > 0 && ReadMark(canon, hs[b].number - 1) != hs[b].parent
  {
    hide Tree, AncestorAt, Fork;
    ForkSeparates(hs, genesis, a, b, 0);
    if hs[b].number > 0 {
      ForkSeparates(hs, genesis, a, b, hs[b].number - 1);
      AncestorParent(hs, genesis, b, hs[b].number);
      AncestorAtSelf(hs, genesis, b);
    }
  }

  /** A block is marked canonical exactly when it is at or below the fork. */
  lemma MarkedIsOld(hs: Headers, genesis: Hash, canon: Markers, a: Hash, b: Hash)
    requires Tree(hs, genesis) && a in hs && b in hs && MarksPath(hs, genesis, canon, a)
    ensures ReadMark(canon, hs[b].number) == b <==> hs[b].number <= Fork(hs, genesis, a, b)
  {
    hide Tree, AncestorAt, Fork;
    ForkSeparates(hs, genesis, a, b, 0);
    AncestorAtSelf(hs, genesis, b);
    NotZero(hs, genesis, b);
    if hs[b].number <= hs[a].number { ForkSeparates(hs, genesis, a, b, hs[b].number); }
  }

  // ---------------------------------------------------------------------
  // The block chain object

  /** What the fork choice looks at besides difficulty and height. */
  datatype Tie = Tie(earlier: bool, currentIsLocal: bool, currentPreserve: bool, blockPreserve: bool, coin: bool)

  predicate PrefersNew(externTd: nat, localTd: nat, number: nat, headNumber: nat, tie: Tie) {
    externTd > localTd || (externTd == localTd &&
      (number < headNumber || tie.earlier || tie.currentIsLocal ||
       (number == headNumber && !tie.currentPreserve && (tie.blockPreserve || tie.coin))))
  }

  /** Who is the head after a block as heavy as the head, case by case: a lower or earlier block
      wins and so does any against a head of our own; otherwise a block that is higher loses,
      at equal height a preserved head stays, a preserved block replaces one that is not, and
      the coin decides between two that are not. */
  ghost predicate SettlesTie(number: nat, headNumber: nat, tie: Tie, wins: bool) {
    && (number < headNumber || tie.earlier || tie.currentIsLocal ==> wins)
    && (!tie.earlier && !tie.currentIsLocal ==>
        && (number > headNumber ==> !wins)
        && (number == headNumber && tie.currentPreserve ==> !wins)
        && (number == headNumber && !tie.currentPreserve && tie.blockPreserve ==> wins)
        && (number == headNumber && !tie.currentPreserve && !tie.blockPreserve ==> wins == tie.coin))
  }

  lemma PreferenceIs(externTd: nat, localTd: nat, number: nat, headNumber: nat, tie: Tie)
    ensures var wins := PrefersNew(externTd, localTd, number, headNumber, tie);
      && (externTd > localTd ==> wins) && (externTd < localTd ==> !wins)
      && (externTd == localTd ==> SettlesTie(number, headNumber, tie, wins))
  {
  }

  datatype BlockError = Written | NoAncestor | InvalidChain

  /** The markers and the transaction index are those of the path of `head`, all of whose
      blocks are present and share no transaction. */
  ghost predicate Canonical(hs: Headers, genesis: Hash, bodies: Bodies, canon: Markers, index: TxIndex, head: Hash) {
    && Tree(hs, genesis) && hs[genesis].parent == NO_HASH && head in hs && PresentDown(hs, genesis, bodies, head, 0)
       && NoRepeat(hs, genesis, bodies, head)
    && MarksPath(hs, genesis, canon, head) && index == PathIndex(hs, genesis, bodies, head)
  }

  /** The new block was written over a longer old chain from its very parent on. */
  predicate LowSingle(hs: Headers, canon: Markers, a: Hash, b: Hash)
    requires a in hs && b in hs
  {
    hs[b].number < hs[a].number && (hs[b].number == 0 || ReadMark(canon, hs[b].number - 1) == hs[b].parent)
  }

  class BlockChain {
    const genesis: Hash
    var headers: Headers
    var bodies: Bodies
    var tds: map<Hash, nat>
    var canon: Markers
    var txIndex: TxIndex
    var currentBlock: Hash
    var currentHeader: Hash
    var currentFastBlock: Hash

    ghost predicate Valid()
      reads this
    {
      && Canonical(headers, genesis, bodies, canon, txIndex, currentBlock)
      && PositiveDifficulty(headers, genesis) && TdsOk(headers, genesis, tds)
         && Heaviest(headers, genesis, currentBlock)
    }

    constructor (g: Header, txs: seq<TxId>)
      requires g.hash != NO_HASH && g.parent == NO_HASH && g.number == 0
      ensures Valid() && currentBlock == genesis == g.hash
    {
      genesis, headers, tds, canon := g.hash, map[g.hash := g], map[g.hash := g.difficulty], map[0 := g.hash];
      bodies, txIndex := map[g.hash := txs], Indexed(map[], txs, 0);
      currentBlock, currentHeader, currentFastBlock := g.hash, g.hash, g.hash;
    }

    /** writeHeadBlock */
    method WriteHeadBlock(h: Hash)
      requires h in headers
      modifies this`canon, this`txIndex, this`currentBlock, this`currentHeader, this`currentFastBlock
      ensures canon == old(canon)[headers[h].number := h]
        && txIndex == Indexed(old(txIndex), Body(bodies, h), headers[h].number)
      ensures currentBlock == h
      ensures if ReadMark(old(canon), headers[h].number) != h then currentHeader == currentFastBlock == h
              else currentHeader == old(currentHeader) && currentFastBlock == old(currentFastBlock)
    {
      var updateHeads := ReadMark(canon, headers[h].number) != h;
      canon := canon[headers[h].number := h];
      txIndex := Indexed(txIndex, Body(bodies, h), headers[h].number);
      if updateHeads {
        currentHeader, currentFastBlock := h, h;
      }
      currentBlock := h;
    }

    /** reorg, from the current block to `b`: everything but the last write. A branch of two
        blocks or more ends up with its second last block as the head, markers included; a
        shorter one leaves head and markers alone. */
    method Reorg(b: Hash) returns (ok: bool)
      requires Canonical(headers, genesis, bodies, canon, txIndex, currentBlock) && currentBlock in bodies
        && b in headers && b in bodies
      modifies this`canon, this`txIndex, this`currentBlock, this`currentHeader, this`currentFastBlock
      ensures ok <==> PresentDown(headers, genesis, bodies, b, Fork(headers, genesis, old(currentBlock), b))
      ensures !ok ==> canon == old(canon) && txIndex == old(txIndex) && currentBlock == old(currentBlock)
      ensures !ok ==> currentHeader == old(currentHeader) && currentFastBlock == old(currentFastBlock)
      ensures ok ==> (
        var c := Fork(headers, genesis, old(currentBlock), b);
        && (headers[b].number > c ==> headers[b].parent in headers)
        && txIndex == PathIndex(headers, genesis, bodies, if headers[b].number > c then headers[b].parent else b)
        && (if headers[b].number >= c + 2
            then currentBlock == currentHeader == currentFastBlock == headers[b].parent
              && MarksPath(headers, genesis, canon, currentBlock)
            else currentBlock == old(currentBlock) && canon == old(canon)
                 && currentHeader == old(currentHeader) && currentFastBlock == old(currentFastBlock)))
    {
      hide Tree, Fork, Branch, TxsDown, PresentDown, PathIndex, NoRepeat, MarksPath, AncestorAt, Over, Writing,
           Indexed, Body;
      ghost var a := currentBlock;
      ghost var c := Fork(headers, genesis, a, b);
      PresentAbove(headers, genesis, bodies, a, b);
      var found, newChain, deleted := FindFork(headers, bodies, currentBlock, b, genesis);
      if !found {
        return false;
      }
      WritingStart(headers, genesis, bodies, a, b, canon);
      BranchIs(headers, genesis, a, b, newChain);
      var added := {};
      var i := |newChain| - 1;
      while i >= 1
        invariant -1 <= i < |newChain| && (newChain != [] ==> i >= 0)
        invariant Writing(headers, genesis, bodies, a, b, canon, txIndex, added, currentBlock,
                          headers[b].number - i - 1)
        invariant if headers[b].number - i - 1 == c then currentBlock == a && canon == old(canon)
          && currentHeader == old(currentHeader) && currentFastBlock == old(currentFastBlock)
                  else currentHeader == currentFastBlock == currentBlock
      {
        WritingStep(headers, genesis, bodies, a, b, canon, txIndex, added, currentBlock, headers[b].number - i - 1,
                    newChain[i]);
        WriteHeadBlock(newChain[i]);
        added := added + set t | t in Body(bodies, newChain[i]);
        i := i - 1;
      }
      ghost var j := headers[b].number - i - 1;
      WritingDone(headers, genesis, bodies, a, b, canon, txIndex, added, currentBlock, j);
      txIndex := txIndex - (deleted - added);
      ghost var written := canon;
      canon := DeleteAbove(canon, headers[currentBlock].number, if j <= headers[a].number then headers[a].number
                           else j);
      if j > c { CutToPath(headers, genesis, written, a, b, j, canon); }
        else { NothingCut(written, headers[a].number, canon); }
      ok := true;
    }

    /** The common end of writeKnownBlock and writeBlockWithState: reorganise unless `b` is on
        top of the head, then write `b` as the head. The transaction index always becomes that
        of the new path. The markers do too unless the branch of `b` is that one block and
        lower than the old head: then the old markers above it stay. */
    method WriteKnownBlock(b: Hash) returns (ok: bool)
      requires Canonical(headers, genesis, bodies, canon, txIndex, currentBlock)
      requires b in headers && b in bodies && NoRepeat(headers, genesis, bodies, b)
      modifies this`canon, this`txIndex, this`currentBlock, this`currentHeader, this`currentFastBlock
      ensures ok <==> PresentDown(headers, genesis, bodies, b, Fork(headers, genesis, old(currentBlock), b))
      ensures !ok ==> canon == old(canon) && txIndex == old(txIndex) && currentBlock == old(currentBlock)
      ensures !ok ==> currentHeader == old(currentHeader) && currentFastBlock == old(currentFastBlock)
      ensures ok ==> currentBlock == b && txIndex == PathIndex(headers, genesis, bodies, b)
      ensures ok ==>
        (Canonical(headers, genesis, bodies, canon, txIndex, b) <==>
         !LowSingle(headers, old(canon), old(currentBlock), b))
      ensures ok ==>
        if ReadMark(old(canon), headers[b].number) == b then currentHeader == old(currentHeader)
          && currentFastBlock == old(currentFastBlock)
                     else currentHeader == currentFastBlock == b
    {
      hide Tree, Fork, TxsDown, PresentDown, PathIndex, NoRepeat, MarksPath, AncestorAt, Over, Indexed, Body;
      ghost var a, canon0 := currentBlock, canon;
      ExtendsHead(headers, genesis, bodies, a, b);
      if headers[b].parent != currentBlock {
        ok := Reorg(b);
        if !ok {
          return;
        }
      }
      ghost var before, index := canon, txIndex;
      WriteHeadBlock(b);
      ok := true;
      TopIndex(headers, genesis, bodies, b, Fork(headers, genesis, a, b), index);
      HeadWritten(headers, genesis, bodies, a, b, canon0, txIndex, before);
    }

    /** writeBlockWithState without the state: store the block, choose between it and the head,
        move the head. The head is a heaviest block again whenever the write succeeds, and all
        of Valid holds except after the reorganisation that leaves markers behind. */
    method WriteBlockWithState(x: Header, txs: seq<TxId>, tie: Tie) returns (status: WriteStatus, err: BlockError)
      requires Valid() && Fits(headers, genesis, bodies, x, txs)
      modifies this
      ensures err == NoAncestor <==> x.parent !in old(headers)
      ensures err == NoAncestor ==>
        Valid() && headers == old(headers) && bodies == old(bodies) && currentBlock == old(currentBlock)
      ensures err != NoAncestor ==>
        headers == old(headers)[x.hash := x] && bodies == old(bodies)[x.hash := txs] && Tree(headers, genesis)
          && TdsOk(headers, genesis, tds)
      ensures err != NoAncestor ==> (
        var prefers := PrefersNew(PathTd(headers, genesis, x.hash), old(tds)[old(currentBlock)], x.number,
                                  headers[old(currentBlock)].number, tie);
        && (err == InvalidChain <==>
            prefers
              && !PresentDown(headers, genesis, bodies, x.hash, Fork(headers, genesis, old(currentBlock), x.hash)))
        && currentBlock == (if prefers && err == Written then x.hash else old(currentBlock))
        && status == (if err == InvalidChain then NonStat else if prefers then CanonStat else SideStat)
        && (err == InvalidChain ==> Canonical(headers, genesis, bodies, canon, txIndex, currentBlock))
        && (err == Written ==>
            && Heaviest(headers, genesis, currentBlock) && txIndex == PathIndex(headers, genesis, bodies, currentBlock)
            && (Valid() <==> !(prefers && LowSingle(headers, old(canon), old(currentBlock), x.hash)))))
      ensures err == Written ==> (
        var externTd, localTd := PathTd(headers, genesis, x.hash), old(tds)[old(currentBlock)];
        && (externTd > localTd ==> status == CanonStat) && (externTd < localTd ==> status == SideStat)
        && (externTd == localTd ==>
            SettlesTie(x.number, headers[old(currentBlock)].number, tie, status == CanonStat)))
    {
      hide Tree, Fork, PresentDown, PathIndex, NoRepeat, MarksPath, TdsOk, Heaviest, PositiveDifficulty, PathTd,
           PrefersNew, LowSingle, Canonical, Fits, OthersBelow, SettlesTie;
      CanonicalHead(headers, genesis, bodies, canon, txIndex, currentBlock, x, txs);
      if x.parent !in tds {
        SameKeys(headers, genesis, tds);
        return NonStat, NoAncestor;
      }
      SameKeys(headers, genesis, tds);
      var localTd, externTd := tds[currentBlock], x.difficulty + tds[x.parent];
      StoreKeeps(headers, genesis, bodies, canon, txIndex, currentBlock, x, txs);
      StorePath(headers, genesis, bodies, x, txs);
      StoreTds(headers, genesis, bodies, tds, currentBlock, x, txs);
      headers, bodies, tds := headers[x.hash := x], bodies[x.hash := txs], tds[x.hash := externTd];
      ChosenIsHeaviest(headers, genesis, currentBlock, x.hash, tie);
      PreferenceIs(externTd, localTd, x.number, headers[currentBlock].number, tie);
      CanonicalIndex(headers, genesis, bodies, canon, txIndex, currentBlock);
      err := Written;
      if PrefersNew(externTd, localTd, x.number, headers[currentBlock].number, tie) {
        var ok := WriteKnownBlock(x.hash);
        if !ok {
          return NonStat, InvalidChain;
        }
        status := CanonStat;
      } else {
        status := SideStat;
      }
    }
  }

  /** A block that header verification lets through, with a body that repeats nothing of its path. */
  ghost predicate Fits(hs: Headers, genesis: Hash, bodies: Bodies, x: Header, txs: seq<TxId>) {
    && x.hash != NO_HASH && x.difficulty > 0 && Tree(hs, genesis)
    && (x.hash in hs ==> hs[x.hash] == x) && (x.hash in bodies ==> bodies[x.hash] == txs)
    && (x.parent in hs ==>
        && x.number == hs[x.parent].number + 1 && NoRepeat(hs, genesis, bodies, x.parent)
        && forall t :: t in txs ==> t !in PathIndex(hs, genesis, bodies, x.parent))
  }

  /** Storing the block leaves the head's path, markers and index as they are. */
  lemma StoreKeeps(hs: Headers, genesis: Hash, bodies: Bodies, canon: Markers, index: TxIndex, head: Hash, x: Header,
                   txs: seq<TxId>)
    requires Canonical(hs, genesis, bodies, canon, index, head) && Fits(hs, genesis, bodies, x, txs) && x.parent in hs
    ensures Canonical(hs[x.hash := x], genesis, bodies[x.hash := txs], canon, index, head)
  {
    hide Tree, AncestorAt, MarksPath, PresentDown, PathIndex, NoRepeat;
    var hs', bodies' := hs[x.hash := x], bodies[x.hash := txs];
    TreePlus(hs, genesis, x);
    MarksMonotone(hs, hs', genesis, canon, head);
    forall i: nat | i <= hs[head].number ensures SameBody(bodies, bodies', AncestorAt(hs, genesis, head, i)) {
      PresentAt(hs, genesis, bodies, head, i);
      PresentSelf(hs, genesis, bodies, AncestorAt(hs, genesis, head, i));
    }
    PathSame(hs, hs', genesis, bodies, bodies', head);
    GenesisStays(hs, genesis, x);
  }

  /** Nothing repeats on the path of the stored block. */
  lemma StorePath(hs: Headers, genesis: Hash, bodies: Bodies, x: Header, txs: seq<TxId>)
    requires Fits(hs, genesis, bodies, x, txs) && x.parent in hs
    ensures Tree(hs[x.hash := x], genesis) && NoRepeat(hs[x.hash := x], genesis, bodies[x.hash := txs], x.hash)
  {
    hide Tree, AncestorAt, PathIndex;
    var hs', bodies' := hs[x.hash := x], bodies[x.hash := txs];
    TreePlus(hs, genesis, x);
    forall i: nat | i <= hs[x.parent].number ensures SameBody(bodies, bodies', AncestorAt(hs, genesis, x.parent, i)) {
      AncestorIn(hs, genesis, x.parent, i);
    }
    PathSame(hs, hs', genesis, bodies, bodies', x.parent);
  }

  lemma StoreTds(hs: Headers, genesis: Hash, bodies: Bodies, tds: map<Hash, nat>, head: Hash, x: Header, txs: seq<TxId>)
    requires Fits(hs, genesis, bodies, x, txs) && x.parent in hs && head in hs
    requires PositiveDifficulty(hs, genesis) && TdsOk(hs, genesis, tds) && Heaviest(hs, genesis, head)
    ensures var hs' := hs[x.hash := x];
      && Tree(hs', genesis) && PositiveDifficulty(hs', genesis)
         && TdsOk(hs', genesis, tds[x.hash := x.difficulty + tds[x.parent]])
      && PathTd(hs', genesis, x.hash) == x.difficulty + tds[x.parent] && PathTd(hs', genesis, head) == tds[head]
      && OthersBelow(hs', genesis, x.hash, tds[head])
  {
    hide Tree, PathTd, PathIndex, NoRepeat;
    var hs' := hs[x.hash := x];
    TreePlus(hs, genesis, x);
    TdPlus(hs, genesis, x, tds);
    Monotone(hs, hs', genesis, head, 0);
    forall h | h in hs' && h != x.hash
      ensures PathTd(hs', genesis, h) <= tds[head] { Monotone(hs, hs', genesis, h, 0); }
  }

  ghost predicate OthersBelow(hs: Headers, genesis: Hash, x: Hash, td: nat)
    requires Tree(hs, genesis)
  {
    forall h :: h in hs && h != x ==> PathTd(hs, genesis, h) <= td
  }

  lemma ChosenIsHeaviest(hs: Headers, genesis: Hash, head: Hash, x: Hash, tie: Tie)
    requires Tree(hs, genesis) && head in hs && x in hs && OthersBelow(hs, genesis, x, PathTd(hs, genesis, head))
    ensures Heaviest(hs, genesis,
                     if PrefersNew(PathTd(hs, genesis, x), PathTd(hs, genesis, head), hs[x].number, hs[head].number,
                                   tie) then x else head)
  {
    hide Tree, PathTd;
  }

  ghost predicate SameBody(b: Bodies, b': Bodies, h: Hash) {
    Body(b, h) == Body(b', h) && (h in b <==> h in b')
  }

  /** The index of a path depends on the bodies along it only. */
  lemma {:induction false} PathSame(hs: Headers, hs': Headers, genesis: Hash, b: Bodies, b': Bodies, h: Hash)
    requires Tree(hs, genesis) && Tree(hs', genesis) && Extends(hs, hs') && h in hs
    requires forall i: nat :: i <= hs[h].number ==> SameBody(b, b', AncestorAt(hs, genesis, h, i))
    ensures PathIndex(hs', genesis, b', h) == PathIndex(hs, genesis, b, h)
    ensures NoRepeat(hs', genesis, b', h) <==> NoRepeat(hs, genesis, b, h)
    ensures PresentDown(hs', genesis, b', h, 0) <==> PresentDown(hs, genesis, b, h, 0)
    decreases hs[h].number
  {
    hide Tree, Body, Indexed;
    ParentStep(hs, genesis, h);
    AncestorAtSelf(hs, genesis, h);
    assert SameBody(b, b', h);
    if h != genesis {
      forall i: nat | i < hs[h].number ensures SameBody(b, b', AncestorAt(hs, genesis, hs[h].parent, i)) {
        ParentPath(hs, genesis, h, i);
        assert SameBody(b, b', AncestorAt(hs, genesis, h, i));
      }
      PathSame(hs, hs', genesis, b, b', hs[h].parent);
    }
  }

  lemma PresentSelf(hs: Headers, genesis: Hash, bodies: Bodies, h: Hash)
    requires Tree(hs, genesis) && h in hs && PresentDown(hs, genesis, bodies, h, 0)
    ensures h in bodies
  {
  }

  lemma GenesisStays(hs: Headers, genesis: Hash, x: Header)
    requires Tree(hs, genesis) && (x.hash in hs ==> hs[x.hash] == x)
    ensures hs[x.hash := x][genesis] == hs[genesis]
  {
  }


  lemma ExtendsHead(hs: Headers, genesis: Hash, bodies: Bodies, a: Hash, b: Hash)
    requires Tree(hs, genesis) && hs[genesis].parent == NO_HASH && a in hs && b in hs && b in bodies
      && PresentDown(hs, genesis, bodies, a, 0)
    ensures a in bodies && Fork(hs, genesis, a, b) <= hs[b].number
    ensures hs[b].parent == a ==>
      Fork(hs, genesis, a, b) == hs[a].number == hs[b].number - 1 && PresentDown(hs, genesis, bodies, b, hs[a].number)
  {
    hide Tree;
    NotZero(hs, genesis, a);
    ParentStep(hs, genesis, b);
    ForkSeparates(hs, genesis, a, b, 0);
  }

  lemma TopIndex(hs: Headers, genesis: Hash, bodies: Bodies, b: Hash, c: nat, index: TxIndex)
    requires Tree(hs, genesis) && b in hs && (hs[b].number > c ==> hs[b].parent in hs)
    requires index == PathIndex(hs, genesis, bodies, if hs[b].number > c then hs[b].parent else b)
    ensures Indexed(index, Body(bodies, b), hs[b].number) == PathIndex(hs, genesis, bodies, b)
  {
    hide Tree;
    ParentStep(hs, genesis, b);
  }

  /** The state after the last write. */
  lemma HeadWritten(hs: Headers, genesis: Hash, bodies: Bodies, a: Hash, b: Hash, canon: Markers, index: TxIndex,
                    before: Markers)
    requires Tree(hs, genesis) && hs[genesis].parent == NO_HASH && a in hs && b in hs
      && MarksPath(hs, genesis, canon, a)
    requires PresentDown(hs, genesis, bodies, a, 0) && NoRepeat(hs, genesis, bodies, b)
    requires PresentDown(hs, genesis, bodies, b, Fork(hs, genesis, a, b)) && index == PathIndex(hs, genesis, bodies, b)
    requires if hs[b].number >= Fork(hs, genesis, a, b) + 2 then hs[b].parent in hs
      && MarksPath(hs, genesis, before, hs[b].parent) else before == canon
    ensures Canonical(hs, genesis, bodies, before[hs[b].number := b], index, b) <==> !LowSingle(hs, canon, a, b)
    ensures ReadMark(before, hs[b].number) == b <==> ReadMark(canon, hs[b].number) == b
    ensures ReadMark(canon, hs[b].number) == b ==> hs[b].number <= Fork(hs, genesis, a, b)
  {
    hide Tree, Fork, PathIndex, NoRepeat, MarksPath, PresentDown;
    PresentAll(hs, genesis, bodies, a, b);
    MarkedIsOld(hs, genesis, canon, a, b);
    ParentStep(hs, genesis, b);
    if hs[b].number < hs[a].number { BranchLength(hs, genesis, canon, a, b); }
    if hs[b].number >= Fork(hs, genesis, a, b) + 2 {
      MarkOnTop(hs, genesis, before, b);
    } else {
      MarkShort(hs, genesis, canon, a, b);
    }
  }

  lemma PresentAll(hs: Headers, genesis: Hash, bodies: Bodies, a: Hash, b: Hash)
    requires Tree(hs, genesis) && a in hs && b in hs && PresentDown(hs, genesis, bodies, a, 0)
    requires PresentDown(hs, genesis, bodies, b, Fork(hs, genesis, a, b))
    ensures PresentDown(hs, genesis, bodies, b, 0)
  {
    hide Tree, PresentDown, AncestorAt, Fork;
    var c := Fork(hs, genesis, a, b);
    ForkSeparates(hs, genesis, a, b, 0);
    ForkSeparates(hs, genesis, a, b, c);
    AncestorIn(hs, genesis, a, c);
    PresentAt(hs, genesis, bodies, a, c);
    PresentJoin(hs, genesis, bodies, b, c);
  }

  lemma {:induction false} PresentAt(hs: Headers, genesis: Hash, bodies: Bodies, h: Hash, c: nat)
    requires Tree(hs, genesis) && h in hs && c <= hs[h].number && PresentDown(hs, genesis, bodies, h, 0)
    ensures AncestorAt(hs, genesis, h, c) in hs && PresentDown(hs, genesis, bodies, AncestorAt(hs, genesis, h, c), 0)
    decreases hs[h].number
  {
    if c < hs[h].number { PresentAt(hs, genesis, bodies, hs[h].parent, c); }
  }

  lemma {:induction false} PresentJoin(hs: Headers, genesis: Hash, bodies: Bodies, h: Hash, c: nat)
    requires Tree(hs, genesis) && h in hs && c <= hs[h].number && PresentDown(hs, genesis, bodies, h, c)
    requires AncestorAt(hs, genesis, h, c) in hs && PresentDown(hs, genesis, bodies, AncestorAt(hs, genesis, h, c), 0)
    ensures PresentDown(hs, genesis, bodies, h, 0)
    decreases hs[h].number
  {
    if c < hs[h].number { PresentJoin(hs, genesis, bodies, hs[h].parent, c); }
  }

  lemma CanonicalHead(hs: Headers, genesis: Hash, bodies: Bodies, canon: Markers, index: TxIndex, head: Hash, x: Header,
                      txs: seq<TxId>)
    requires Canonical(hs, genesis, bodies, canon, index, head) && Fits(hs, genesis, bodies, x, txs)
    ensures Tree(hs, genesis) && head in hs && (head == x.hash ==> hs[head] == x)
  {
    hide Tree, PathIndex, NoRepeat, PresentDown, MarksPath;
  }

  lemma CanonicalIndex(hs: Headers, genesis: Hash, bodies: Bodies, canon: Markers, index: TxIndex, head: Hash)
    requires Canonical(hs, genesis, bodies, canon, index, head)
    ensures Tree(hs, genesis) && head in hs && index == PathIndex(hs, genesis, bodies, head)
  {
    hide Tree, PathIndex, NoRepeat, PresentDown, MarksPath;
  }

  lemma PresentAbove(hs: Headers, genesis: Hash, bodies: Bodies, a: Hash, b: Hash)
    requires Tree(hs, genesis) && a in hs && b in hs && PresentDown(hs, genesis, bodies, a, 0)
    ensures PresentDown(hs, genesis, bodies, a, Fork(hs, genesis, a, b))
  {
    PresentLess(hs, genesis, bodies, a, Fork(hs, genesis, a, b));
  }

  lemma {:induction false} PresentLess(hs: Headers, genesis: Hash, bodies: Bodies, h: Hash, c: nat)
    requires Tree(hs, genesis) && h in hs && PresentDown(hs, genesis, bodies, h, 0)
    ensures PresentDown(hs, genesis, bodies, h, c)
    decreases hs[h].number
  {
    if hs[h].number > c { PresentLess(hs, genesis, bodies, hs[h].parent, c); }
  }

  lemma BranchIs(hs: Headers, genesis: Hash, a: Hash, b: Hash, chain: seq<Hash>)
    requires Tree(hs, genesis) && a in hs && b in hs && chain == Branch(hs, genesis, b, Fork(hs, genesis, a, b))
    ensures Fork(hs, genesis, a, b) <= hs[b].number && |chain| == hs[b].number - Fork(hs, genesis, a, b)
    ensures forall i :: 0 <= i < |chain| ==> chain[i] == AncestorAt(hs, genesis, b, hs[b].number - i)
  {
    hide Tree, AncestorAt;
    var c := Fork(hs, genesis, a, b);
    ForkSeparates(hs, genesis, a, b, 0);
    if hs[b].number > c { BranchAt(hs, genesis, b, c, 0); }
    forall i | 0 <= i < |chain|
      ensures chain[i] == AncestorAt(hs, genesis, b, hs[b].number - i) { BranchAt(hs, genesis, b, c, i); }
  }

  lemma WritingDone(hs: Headers, genesis: Hash, bodies: Bodies, a: Hash, b: Hash, canon: Markers, index: TxIndex,
                    added: set<TxId>, head: Hash, j: nat)
    requires Writing(hs, genesis, bodies, a, b, canon, index, added, head, j) && NoRepeat(hs, genesis, bodies, a)
    requires var c := Fork(hs, genesis, a, b); j == if hs[b].number > c then hs[b].number - 1 else hs[b].number
    ensures var c := Fork(hs, genesis, a, b);
      && (hs[b].number > c ==> hs[b].parent in hs && hs[b].parent == AncestorAt(hs, genesis, b, j))
      && (hs[b].number <= c ==> b == AncestorAt(hs, genesis, b, j))
      && index - (TxsDown(hs, genesis, bodies, a, c) - added) ==
         PathIndex(hs, genesis, bodies, AncestorAt(hs, genesis, b, j))
    ensures Fork(hs, genesis, a, b) <= hs[a].number && head == if j == Fork(hs, genesis, a, b) then a
      else AncestorAt(hs, genesis, b, j)
    ensures head in hs && hs[head].number == if j > Fork(hs, genesis, a, b) then j else hs[a].number
    ensures Rewritten(hs, genesis, canon, a, b, j)
    ensures forall i: nat :: i in canon <==> i <= (if j <= hs[a].number then hs[a].number else j)
    ensures forall i :: i in canon ==> canon[i] != NO_HASH
  {
    hide Tree, AncestorAt, PathIndex, Over, TxsDown, Fork, NoRepeat, Rewritten;
    var c := Fork(hs, genesis, a, b);
    ForkSeparates(hs, genesis, a, b, c) by { ForkSeparates(hs, genesis, a, b, 0); }
    AncestorTrans(hs, genesis, b, j, c);
    AncestorAtSelf(hs, genesis, b);
    if hs[b].number > c { AncestorParent(hs, genesis, b, hs[b].number); }
    AncestorIn(hs, genesis, b, j);
    ReorgIndex(hs, genesis, bodies, a, AncestorAt(hs, genesis, b, j), c);
    RewrittenDense(hs, genesis, canon, a, b, j);
  }

  /** Two blocks of difficulty 1 on the genesis, and a sibling of the first with difficulty 2. */
  function ExampleHeaders(): Headers {
    map[1 := Header(1, NO_HASH, 0, 1), 2 := Header(2, 1, 1, 1), 3 := Header(3, 2, 2, 1), 4 := Header(4, 1, 1, 2)]
  }

  function ExampleMarkers(): Markers {
    map[0 := 1, 1 := 2, 2 := 3]
  }

  lemma ExampleTree()
    ensures Tree(ExampleHeaders(), 1) && PositiveDifficulty(ExampleHeaders(), 1)
  {
  }

  lemma ExampleTds()
    ensures Tree(ExampleHeaders(), 1) && PathTd(ExampleHeaders(), 1, 3) == PathTd(ExampleHeaders(), 1, 4) == 3
  {
    hide Tree;
    ExampleTree();
    var hs := ExampleHeaders();
    assert PathTd(hs, 1, 1) == 1 && PathTd(hs, 1, 2) == 2;
  }

  lemma ExampleMarks()
    ensures Tree(ExampleHeaders(), 1) && MarksPath(ExampleHeaders(), 1, ExampleMarkers(), 3)
  {
    hide Tree;
    ExampleTree();
    var hs := ExampleHeaders();
    assert AncestorAt(hs, 1, 2, 0) == 1 && AncestorAt(hs, 1, 2, 1) == 2;
    assert AncestorAt(hs, 1, 3, 0) == 1 && AncestorAt(hs, 1, 3, 1) == 2 && AncestorAt(hs, 1, 3, 2) == 3;
  }

  /** A reachable instance of the markers left behind: the lower block of equal total
      difficulty is preferred, and the marker of the old head survives it. */
  lemma LowSingleExample(tie: Tie)
    ensures var hs, canon := ExampleHeaders(), ExampleMarkers();
      && Tree(hs, 1) && PositiveDifficulty(hs, 1) && MarksPath(hs, 1, canon, 3)
      && PrefersNew(PathTd(hs, 1, 4), PathTd(hs, 1, 3), hs[4].number, hs[3].number, tie) && LowSingle(hs, canon, 3, 4)
      && !MarksPath(hs, 1, canon[hs[4].number := 4], 4)
  {
    hide Tree, PathTd, AncestorAt;
    ExampleTree();
    ExampleTds();
    ExampleMarks();
    var canon := ExampleMarkers()[1 := 4];
    assert 2 in canon;
  }
}

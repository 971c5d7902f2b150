/** Trees of headers linked by parent hash, their ancestor paths and total difficulties. */
module ChainTree {
  import opened Transactions

  type Hash = nat

  /** The zero hash stands for a missing entry. */
  const NO_HASH: Hash := 0

  datatype Header = Header(hash: Hash, parent: Hash, number: nat, difficulty: nat)

  type Headers = map<Hash, Header>

  /** Headers filed under their hashes. */
  ghost predicate Filed(hs: Headers) {
    forall h :: h in hs ==> h != NO_HASH && hs[h].hash == h
  }

  /** Looking a header up by hash and number. */
  function ReadHeader(hs: Headers, h: Hash, number: nat): Option<Header> {
    if h in hs && hs[h].number == number then Some(hs[h]) else None
  }

  /** Headers filed under their hashes, closed under parents down to one genesis. */
  ghost predicate Tree(hs: Headers, genesis: Hash) {
    && genesis in hs && hs[genesis].number == 0
    && Filed(hs)
    && (forall h :: h in hs && h != genesis ==> hs[h].number > 0)
    && (forall h {:trigger hs[h].parent} :: h in hs && h != genesis ==>
        hs[h].parent in hs && hs[hs[h].parent].number == hs[h].number - 1)
  }

  lemma ParentStep(hs: Headers, genesis: Hash, h: Hash)
    requires Tree(hs, genesis) && h in hs
    ensures h == genesis <==> hs[h].number == 0
    ensures h != genesis ==> hs[h].parent in hs && hs[hs[h].parent].number == hs[h].number - 1
  {
  }

  /** The ancestor of `h` at height `i`. */
  ghost function AncestorAt(hs: Headers, genesis: Hash, h: Hash, i: nat): Hash
    requires Tree(hs, genesis) && h in hs && i <= hs[h].number
    decreases hs[h].number
  {
    if i == hs[h].number then h else AncestorAt(hs, genesis, hs[h].parent, i)
  }

  lemma AncestorAtSelf(hs: Headers, genesis: Hash, h: Hash)
    requires Tree(hs, genesis) && h in hs
    ensures AncestorAt(hs, genesis, h, hs[h].number) == h
  {
  }

  lemma ParentPath(hs: Headers, genesis: Hash, h: Hash, i: nat)
    requires Tree(hs, genesis) && h in hs && i < hs[h].number
    ensures hs[h].parent in hs && i <= hs[hs[h].parent].number
      && AncestorAt(hs, genesis, h, i) == AncestorAt(hs, genesis, hs[h].parent, i)
  {
  }

  /** The sum of difficulties from the genesis to `h`. */
  ghost function PathTd(hs: Headers, genesis: Hash, h: Hash): nat
    requires Tree(hs, genesis) && h in hs
    decreases hs[h].number
  {
    if h == genesis then hs[h].difficulty else hs[h].difficulty + PathTd(hs, genesis, hs[h].parent)
  }

  lemma {:induction false} AncestorIn(hs: Headers, genesis: Hash, h: Hash, i: nat)
    requires Tree(hs, genesis) && h in hs && i <= hs[h].number
    ensures AncestorAt(hs, genesis, h, i) in hs && hs[AncestorAt(hs, genesis, h, i)].number == i
    decreases hs[h].number
  {
    if i != hs[h].number { AncestorIn(hs, genesis, hs[h].parent, i); }
  }

  /** An ancestor's ancestors are ancestors. */
  lemma {:induction false} AncestorTrans(hs: Headers, genesis: Hash, h: Hash, i: nat, j: nat)
    requires Tree(hs, genesis) && h in hs && j <= i <= hs[h].number
    ensures AncestorAt(hs, genesis, h, i) in hs && hs[AncestorAt(hs, genesis, h, i)].number == i
    ensures AncestorAt(hs, genesis, AncestorAt(hs, genesis, h, i), j) == AncestorAt(hs, genesis, h, j)
    decreases hs[h].number
  {
    if i != hs[h].number { AncestorTrans(hs, genesis, hs[h].parent, i, j); }
  }

  /** Height 0 is the genesis. */
  lemma {:induction false} AncestorAtZero(hs: Headers, genesis: Hash, h: Hash)
    requires Tree(hs, genesis) && h in hs
    ensures AncestorAt(hs, genesis, h, 0) == genesis
    decreases hs[h].number
  {
    if hs[h].number != 0 { AncestorAtZero(hs, genesis, hs[h].parent); }
  }

  /** One step down the ancestor path is the parent. */
  lemma AncestorParent(hs: Headers, genesis: Hash, h: Hash, i: nat)
    requires Tree(hs, genesis) && h in hs && 0 < i <= hs[h].number
    ensures AncestorAt(hs, genesis, h, i) in hs
    ensures hs[AncestorAt(hs, genesis, h, i)].parent == AncestorAt(hs, genesis, h, i - 1)
  {
    AncestorTrans(hs, genesis, h, i, i - 1);
    AncestorIn(hs, genesis, h, i);
    AncestorIn(hs, genesis, hs[AncestorAt(hs, genesis, h, i)].parent, i - 1);
  }

  /** Adding headers changes no old ancestor path and no old total difficulty. */
  lemma {:induction false} Monotone(hs: Headers, hs': Headers, genesis: Hash, h: Hash, i: nat)
    requires Tree(hs, genesis) && Tree(hs', genesis) && Extends(hs, hs') && h in hs && i <= hs[h].number
    ensures AncestorAt(hs', genesis, h, i) == AncestorAt(hs, genesis, h, i)
    ensures PathTd(hs', genesis, h) == PathTd(hs, genesis, h)
    decreases hs[h].number
  {
    if h != genesis {
      Monotone(hs, hs', genesis, hs[h].parent, if i < hs[h].number then i else 0);
    }
  }

  ghost predicate Extends(hs: Headers, hs': Headers) {
    forall h :: h in hs ==> h in hs' && hs'[h] == hs[h]
  }

  /** A total difficulty grows along every path of positive difficulties. */
  lemma {:induction false} TdGrows(hs: Headers, genesis: Hash, h: Hash, i: nat)
    requires Tree(hs, genesis) && h in hs && i < hs[h].number
    requires forall x :: x in hs && x != genesis ==> hs[x].difficulty > 0
    ensures AncestorAt(hs, genesis, h, i) in hs
      && PathTd(hs, genesis, AncestorAt(hs, genesis, h, i)) < PathTd(hs, genesis, h)
    decreases hs[h].number
  {
    AncestorIn(hs, genesis, h, i);
    if i < hs[h].number - 1 { TdGrows(hs, genesis, hs[h].parent, i); }
  }

  // ---------------------------------------------------------------------
  // Canonical markers

  type Markers = map<nat, Hash>

  /** ReadCanonicalHash */
  function ReadMark(canon: Markers, i: nat): Hash {
    if i in canon then canon[i] else NO_HASH
  }

  /** The markers are exactly the ancestor path of `head`. */
  ghost predicate MarksPath(hs: Headers, genesis: Hash, canon: Markers, head: Hash)
    requires Tree(hs, genesis) && head in hs
  {
    forall i: nat :: if i <= hs[head].number then i in canon && canon[i] == AncestorAt(hs, genesis, head, i)
      else i !in canon
  }

  /** Markers that agree with one path at one height agree with it below. */
  lemma MarksBelow(hs: Headers, genesis: Hash, canon: Markers, head: Hash, h: Hash, i: nat, j: nat)
    requires Tree(hs, genesis) && head in hs && h in hs && MarksPath(hs, genesis, canon, head)
    requires j <= i <= hs[h].number && ReadMark(canon, i) == AncestorAt(hs, genesis, h, i)
    ensures j in canon && canon[j] == AncestorAt(hs, genesis, h, j)
  {
    AncestorIn(hs, genesis, h, i);
    AncestorTrans(hs, genesis, h, i, j);
    assert i <= hs[head].number;
    AncestorTrans(hs, genesis, head, i, j);
  }

  // ---------------------------------------------------------------------
  // Batches of headers

  /** Linked headers on top of `hs`: consecutive, not contradicting known headers, with
      positive difficulty. */
  ghost predicate Linked(hs: Headers, batch: seq<Header>) {
    && (forall i :: 0 <= i < |batch| ==>
        batch[i].hash != NO_HASH && batch[i].difficulty > 0 && batch[i].number == batch[0].number + i)
    && (forall i :: 0 < i < |batch| ==> batch[i].parent == batch[i - 1].hash)
    && (forall i, j :: 0 <= i < j < |batch| ==> batch[i].hash != batch[j].hash)
    && (forall i :: 0 <= i < |batch| && batch[i].hash in hs ==> hs[batch[i].hash] == batch[i])
    && (batch != [] ==>
        batch[0].number > 0 && (batch[0].parent in hs ==> hs[batch[0].parent].number == batch[0].number - 1))
  }

  function WithHeaders(hs: Headers, batch: seq<Header>): Headers {
    if batch == [] then hs
    else WithHeaders(hs, batch[..|batch| - 1])[batch[|batch| - 1].hash := batch[|batch| - 1]]
  }

  lemma {:induction false} WithHeadersContents(hs: Headers, batch: seq<Header>)
    requires forall i, j :: 0 <= i < j < |batch| ==> batch[i].hash != batch[j].hash
    requires forall i :: 0 <= i < |batch| && batch[i].hash in hs ==> hs[batch[i].hash] == batch[i]
    ensures Extends(hs, WithHeaders(hs, batch))
    ensures forall i :: 0 <= i < |batch| ==>
      batch[i].hash in WithHeaders(hs, batch) && WithHeaders(hs, batch)[batch[i].hash] == batch[i]
    ensures forall h :: h in WithHeaders(hs, batch) ==> h in hs || exists i :: 0 <= i < |batch| && h == batch[i].hash
  {
    if batch != [] {
      var k := |batch| - 1;
      WithHeadersContents(hs, batch[..k]);
      forall h | h in WithHeaders(hs, batch) ensures h in hs || exists i :: 0 <= i < |batch| && h == batch[i].hash {
        if h !in hs && h != batch[k].hash {
          var i :| 0 <= i < |batch[..k]| && h == batch[..k][i].hash;
          assert batch[i].hash == h;
        }
      }
    }
  }

  /** Adding one header whose parent is known keeps the tree. */
  lemma TreePlus(hs: Headers, genesis: Hash, x: Header)
    requires Tree(hs, genesis) && x.parent in hs && x.number == hs[x.parent].number + 1 && x.hash != NO_HASH
    requires x.hash in hs ==> hs[x.hash] == x
    ensures Tree(hs[x.hash := x], genesis) && Extends(hs, hs[x.hash := x])
  {
  }

  lemma NotInBatch(hs: Headers, b: seq<Header>, x: Header)
    requires forall i :: 0 <= i < |b| ==> b[i].hash != x.hash
    requires forall i, j :: 0 <= i < j < |b| ==> b[i].hash != b[j].hash
    requires forall i :: 0 <= i < |b| && b[i].hash in hs ==> hs[b[i].hash] == b[i]
    requires x.hash in hs ==> hs[x.hash] == x
    ensures x.hash in WithHeaders(hs, b) ==> x.hash in hs && WithHeaders(hs, b)[x.hash] == x
  {
    WithHeadersContents(hs, b);
  }

  /** In a tree, the known headers of a linked batch come first. */
  lemma {:induction false} KnownFirst(hs: Headers, genesis: Hash, batch: seq<Header>, i: nat, j: nat)
    requires Tree(hs, genesis) && Linked(hs, batch) && i <= j < |batch| && batch[j].hash in hs
    ensures batch[i].hash in hs
    decreases j - i
  {
    if i < j {
      assert hs[batch[j].hash] == batch[j] && batch[j].number > 0;
      KnownFirst(hs, genesis, batch, i, j - 1);
    }
  }

  /** The batch lies on the ancestor path of its last header. */
  lemma {:induction false} BatchOnPath(hs: Headers, genesis: Hash, batch: seq<Header>, k: nat, i: nat)
    requires Tree(hs, genesis) && i <= k < |batch|
    requires forall j :: 0 <= j < |batch| ==>
      batch[j].hash in hs && hs[batch[j].hash] == batch[j] && batch[j].number == batch[0].number + j
    requires forall j :: 0 < j < |batch| ==> batch[j].parent == batch[j - 1].hash
    ensures AncestorAt(hs, genesis, batch[k].hash, batch[0].number + i) == batch[i].hash
    decreases k
  {
    if i < k {
      assert batch[k].parent == batch[k - 1].hash;
      BatchOnPath(hs, genesis, batch, k - 1, i);
    }
  }
}

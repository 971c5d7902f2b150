/** core/headerchain.go: importing header batches, total difficulties and canonical markers. */
module HeaderChains {
  import opened Transactions
  import opened ChainTree

  /** Stored total difficulties are the sums along the ancestor paths. */
  ghost predicate TdsOk(hs: Headers, genesis: Hash, tds: map<Hash, nat>)
    requires Tree(hs, genesis)
  {
    tds.Keys == hs.Keys && forall h :: h in hs ==> tds[h] == PathTd(hs, genesis, h)
  }

  /** No known header has a higher total difficulty than `head`. */
  ghost predicate Heaviest(hs: Headers, genesis: Hash, head: Hash)
    requires Tree(hs, genesis) && head in hs
  {
    forall h :: h in hs ==> PathTd(hs, genesis, h) <= PathTd(hs, genesis, head)
  }

  ghost predicate PositiveDifficulty(hs: Headers, genesis: Hash) {
    forall h :: h in hs && h != genesis ==> hs[h].difficulty > 0
  }

  /** The fork choice of writeHeaders; `coin` is the random draw for equal heights. */
  predicate ChoosesNew(newTd: nat, localTd: nat, lastNumber: nat, headNumber: nat, coin: bool) {
    newTd > localTd || (newTd == localTd && (lastNumber < headNumber || (lastNumber == headNumber && coin)))
  }

  /** The head after the choice, case by case: the heavier one wins, among equally heavy ones the
      lower one, and the coin decides at equal height. */
  ghost predicate Adopted(newTd: nat, localTd: nat, last: Header, head: Header, coin: bool, chosen: Hash) {
    && (newTd > localTd ==> chosen == last.hash) && (newTd < localTd ==> chosen == head.hash)
    && (newTd == localTd && last.number < head.number ==> chosen == last.hash)
    && (newTd == localTd && last.number > head.number ==> chosen == head.hash)
    && (newTd == localTd && last.number == head.number ==> chosen == if coin then last.hash else head.hash)
  }

  lemma ChoiceIs(newTd: nat, localTd: nat, last: Header, head: Header, coin: bool)
    ensures Adopted(newTd, localTd, last, head, coin,
                    if ChoosesNew(newTd, localTd, last.number, head.number, coin) then last.hash else head.hash)
  {
  }

  datatype WriteError = NoError | UnknownAncestor | Aborted

  datatype WriteStatus = NonStat | CanonStat | SideStat

  // ---------------------------------------------------------------------
  // Storing a batch

  /** The first `i` headers of the batch are in the write batch; `td` is the total difficulty
      of the last of them. */
  ghost predicate Stored(hs: Headers, genesis: Hash, batch: seq<Header>, i: nat, hs': Headers, tds': map<Hash, nat>,
                         td: nat) {
    && i <= |batch| && hs' == WithHeaders(hs, batch[..i]) && Tree(hs', genesis) && Extends(hs, hs')
       && TdsOk(hs', genesis, tds')
    && batch != [] && LastStored(batch, i) in hs' && td == tds'[LastStored(batch, i)]
    && hs'[LastStored(batch, i)].number == batch[0].number + i - 1
  }

  ghost function LastStored(batch: seq<Header>, i: nat): Hash
    requires batch != [] && i <= |batch|
  {
    if i == 0 then batch[0].parent else batch[i - 1].hash
  }

  /** The unknown ones among the first `i` headers are exactly those from `first` on. */
  ghost predicate Listed(hs: Headers, batch: seq<Header>, i: nat, first: int, inserted: seq<Header>) {
    && i <= |batch| && -1 <= first < i
    && inserted == (if first == -1 then [] else batch[first..i])
    && (forall j :: 0 <= j < i ==> (batch[j].hash in hs <==> first == -1 || j < first))
  }

  lemma StoreStart(hs: Headers, genesis: Hash, batch: seq<Header>, tds: map<Hash, nat>)
    requires Tree(hs, genesis) && TdsOk(hs, genesis, tds) && Linked(hs, batch) && batch != [] && batch[0].parent in hs
    ensures Stored(hs, genesis, batch, 0, hs, tds, tds[batch[0].parent]) && Listed(hs, batch, 0, -1, [])
  {
  }

  lemma ListStep(hs: Headers, genesis: Hash, batch: seq<Header>, i: nat, first: int, inserted: seq<Header>)
    requires Tree(hs, genesis) && Linked(hs, batch) && i < |batch| && Listed(hs, batch, i, first, inserted)
    ensures batch[i].hash in hs ==> Listed(hs, batch, i + 1, first, inserted)
    ensures batch[i].hash !in hs ==> Listed(hs, batch, i + 1, if first >= 0 then first else i, inserted + [batch[i]])
  {
    hide Tree, Linked;
    if batch[i].hash in hs && first >= 0 { KnownFirst(hs, genesis, batch, first, i); }
  }

  lemma StoreStep(hs: Headers, genesis: Hash, batch: seq<Header>, i: nat, hs': Headers, tds': map<Hash, nat>, td: nat)
    requires Linked(hs, batch) && i < |batch| && Stored(hs, genesis, batch, i, hs', tds', td)
    ensures var x := batch[i]; var td' := td + x.difficulty;
      && (x.hash in hs ==> Stored(hs, genesis, batch, i + 1, hs', tds', td'))
      && Stored(hs, genesis, batch, i + 1, hs'[x.hash := x], tds'[x.hash := td'], td')
  {
    hide TdsOk, Tree;
    var x := batch[i];
    assert batch[..i + 1][..i] == batch[..i];
    StoreFits(hs, batch, i);
    TreePlus(hs', genesis, x);
    TdPlus(hs', genesis, x, tds');
  }

  lemma StoreFits(hs: Headers, batch: seq<Header>, i: nat)
    requires Linked(hs, batch) && i < |batch|
    ensures batch[i].hash in WithHeaders(hs, batch[..i]) ==>
      batch[i].hash in hs && WithHeaders(hs, batch[..i])[batch[i].hash] == batch[i]
    ensures batch[i].hash != NO_HASH && batch[i].number == batch[0].number + i
      && (i > 0 ==> batch[i].parent == batch[i - 1].hash)
  {
    NotInBatch(hs, batch[..i], batch[i]);
  }

  lemma TdPlus(hs: Headers, genesis: Hash, x: Header, tds: map<Hash, nat>)
    requires Tree(hs, genesis) && TdsOk(hs, genesis, tds) && x.parent in hs && x.number == hs[x.parent].number + 1
      && x.hash != NO_HASH
    requires x.hash in hs ==> hs[x.hash] == x
    ensures Tree(hs[x.hash := x], genesis)
    ensures PathTd(hs[x.hash := x], genesis, x.hash) == tds[x.parent] + x.difficulty
    ensures TdsOk(hs[x.hash := x], genesis, tds[x.hash := tds[x.parent] + x.difficulty])
    ensures x.hash in hs ==> hs[x.hash := x] == hs && tds[x.hash := tds[x.parent] + x.difficulty] == tds
  {
    TreePlus(hs, genesis, x);
    var hs' := hs[x.hash := x];
    forall h | h in hs ensures PathTd(hs', genesis, h) == tds[h] { Monotone(hs, hs', genesis, h, 0); }
    if x.hash in hs { assert hs' == hs; }
  }

  // ---------------------------------------------------------------------
  // Moving the canonical markers

  /** The markers from `lo` up to but excluding `hi` are those of the path of `last`. */
  ghost predicate MarkedOn(hs: Headers, genesis: Hash, canon: Markers, last: Hash, lo: nat, hi: nat)
    requires Tree(hs, genesis) && last in hs
  {
    forall i: nat :: lo <= i < hi && i <= hs[last].number ==> i in canon && canon[i] == AncestorAt(hs, genesis, last, i)
  }

  ghost predicate NoneAbove(canon: Markers, n: nat) {
    forall i: nat :: i > n ==> i !in canon
  }

  /** Outside [lo, hi) two sets of markers agree up to height `top`. */
  ghost predicate AgreeOutside(canon: Markers, canon': Markers, lo: nat, hi: nat, top: nat) {
    forall i: nat :: i <= top && !(lo <= i < hi) ==> ReadMark(canon, i) == ReadMark(canon', i)
  }

  /** Deletes the markers above height `n`, one after the other. */
  method DeleteAbove(canon: Markers, n: nat, ghost top: nat) returns (r: Markers)
    requires forall i: nat :: i in canon <==> i <= top
    requires forall i :: i in canon ==> canon[i] != NO_HASH
    ensures NoneAbove(r, n) && forall i: nat :: i <= n ==> ReadMark(r, i) == ReadMark(canon, i)
    ensures forall i :: i in r ==> i in canon
  {
    r := canon;
    var i := n + 1;
    while ReadMark(canon, i) != NO_HASH
      invariant i > n && (i <= top + 1 || i == n + 1)
      invariant forall j: nat :: j in r <==> j in canon && !(n < j < i)
      invariant forall j: nat :: j in r ==> r[j] == canon[j]
      decreases top + 1 - i
    {
      r := r - {i};
      i := i + 1;
    }
    assert i !in canon;
  }

  /** Walks from `h` towards the genesis, marking headers in `r` until it meets the old
      canonical chain `canon`. */
  method WalkBack(canon: Markers, start: Markers, hs: Headers, h: Hash, ghost genesis: Hash, ghost head: Hash,
                  ghost top: nat) returns (r: Markers)
    requires Tree(hs, genesis) && h in hs && head in hs && MarksPath(hs, genesis, canon, head)
    requires hs[h].number <= top && NoneAbove(start, top) && forall i: nat :: i <= top ==>
      ReadMark(start, i) == ReadMark(canon, i)
    ensures MarkedOn(hs, genesis, r, h, 0, hs[h].number + 1) && NoneAbove(r, top)
    ensures AgreeOutside(canon, r, 0, hs[h].number + 1, top)
  {
    hide Tree, MarksPath, AgreeOutside, NoneAbove, MarkedOn;
    r := start;
    var hash, number: nat := h, hs[h].number;
    WalkStart(canon, r, hs, genesis, head, h, top);
    while ReadMark(canon, number) != hash
      invariant number <= hs[h].number && Walking(canon, r, hs, genesis, head, h, top, hash, number)
      decreases number
    {
      WalkStep(canon, r, hs, genesis, head, h, top, hash, number);
      r := r[number := hash];
      hash := hs[hash].parent;
      number := number - 1;
    }
    WalkDone(canon, r, hs, genesis, head, h, top, hash, number);
  }

  /** The heights above `number` up to that of `h` have been marked. */
  ghost predicate Walking(canon: Markers, r: Markers, hs: Headers, genesis: Hash, head: Hash, h: Hash, top: nat,
                          hash: Hash, number: nat) {
    && Tree(hs, genesis) && h in hs && head in hs && MarksPath(hs, genesis, canon, head)
    && number <= hs[h].number <= top && hash == AncestorAt(hs, genesis, h, number) && hash in hs
    && MarkedOn(hs, genesis, r, h, number + 1, hs[h].number + 1) && NoneAbove(r, top)
    && AgreeOutside(canon, r, number + 1, hs[h].number + 1, top)
  }

  lemma WalkStart(canon: Markers, start: Markers, hs: Headers, genesis: Hash, head: Hash, h: Hash, top: nat)
    requires Tree(hs, genesis) && h in hs && head in hs && MarksPath(hs, genesis, canon, head)
    requires hs[h].number <= top && NoneAbove(start, top) && forall i: nat :: i <= top ==>
      ReadMark(start, i) == ReadMark(canon, i)
    ensures Walking(canon, start, hs, genesis, head, h, top, h, hs[h].number)
  {
  }

  lemma WalkStep(canon: Markers, r: Markers, hs: Headers, genesis: Hash, head: Hash, h: Hash, top: nat, hash: Hash,
                 number: nat)
    requires Walking(canon, r, hs, genesis, head, h, top, hash, number) && ReadMark(canon, number) != hash
    ensures number > 0 && hash in hs
      && Walking(canon, r[number := hash], hs, genesis, head, h, top, hs[hash].parent, number - 1)
  {
    hide Tree, MarksPath, AgreeOutside, NoneAbove, MarkedOn;
    NotYetGenesis(canon, hs, genesis, head, h, hash, number);
    AncestorIn(hs, genesis, h, number);
    AncestorParent(hs, genesis, h, number);
    AncestorIn(hs, genesis, h, number - 1);
    MarkOne(canon, r, hs, genesis, h, top, number);
  }

  lemma NotYetGenesis(canon: Markers, hs: Headers, genesis: Hash, head: Hash, h: Hash, hash: Hash, number: nat)
    requires Tree(hs, genesis) && h in hs && head in hs && MarksPath(hs, genesis, canon, head)
    requires number <= hs[h].number && hash == AncestorAt(hs, genesis, h, number) && ReadMark(canon, number) != hash
    ensures number > 0
  {
    hide Tree, AncestorAt;
    AncestorAtZero(hs, genesis, h);
    AncestorAtZero(hs, genesis, head);
    assert 0 in canon && canon[0] == genesis;
  }

  lemma MarkOne(canon: Markers, r: Markers, hs: Headers, genesis: Hash, h: Hash, top: nat, number: nat)
    requires Tree(hs, genesis) && h in hs && 0 < number <= hs[h].number <= top
    requires MarkedOn(hs, genesis, r, h, number + 1, hs[h].number + 1) && NoneAbove(r, top)
    requires AgreeOutside(canon, r, number + 1, hs[h].number + 1, top)
    ensures var r' := r[number := AncestorAt(hs, genesis, h, number)];
      MarkedOn(hs, genesis, r', h, number, hs[h].number + 1) && NoneAbove(r', top)
        && AgreeOutside(canon, r', number, hs[h].number + 1, top)
  {
    hide Tree, AncestorAt;
  }

  lemma WalkDone(canon: Markers, r: Markers, hs: Headers, genesis: Hash, head: Hash, h: Hash, top: nat, hash: Hash,
                 number: nat)
    requires Walking(canon, r, hs, genesis, head, h, top, hash, number) && ReadMark(canon, number) == hash
    ensures MarkedOn(hs, genesis, r, h, 0, hs[h].number + 1) && AgreeOutside(canon, r, 0, hs[h].number + 1, top)
      && NoneAbove(r, top)
  {
    forall i: nat | i <= number ensures i in r && r[i] == AncestorAt(hs, genesis, h, i) {
      MarksBelow(hs, genesis, canon, head, h, number, i);
      AncestorIn(hs, genesis, h, i);
      assert ReadMark(canon, i) == ReadMark(r, i);
    }
  }

  /** Marks consecutive headers of the batch. */
  method MarkAll(start: Markers, xs: seq<Header>) returns (r: Markers)
    requires forall i :: 0 <= i < |xs| ==> xs[i].number == xs[0].number + i
    ensures forall i :: 0 <= i < |xs| ==> xs[i].number in r && r[xs[i].number] == xs[i].hash
    ensures forall n: nat :: (xs == [] || n < xs[0].number || n >= xs[0].number + |xs|) ==>
      (n in r <==> n in start) && ReadMark(r, n) == ReadMark(start, n)
  {
    r := start;
    for k := 0 to |xs|
      invariant forall i :: 0 <= i < k ==> xs[i].number in r && r[xs[i].number] == xs[i].hash
      invariant forall n: nat :: (xs == [] || n < xs[0].number || n >= xs[0].number + k) ==>
        (n in r <==> n in start) && ReadMark(r, n) == ReadMark(start, n)
    {
      r := r[xs[k].number := xs[k].hash];
    }
  }

  /** The batch is in the database, linked. */
  ghost predicate InDb(hs: Headers, batch: seq<Header>) {
    && batch != [] && batch[0].number > 0
    && (forall j :: 0 <= j < |batch| ==>
        batch[j].hash in hs && hs[batch[j].hash] == batch[j] && batch[j].number == batch[0].number + j)
    && (forall j :: 0 < j < |batch| ==> batch[j].parent == batch[j - 1].hash)
    && batch[0].parent in hs && hs[batch[0].parent].number == batch[0].number - 1
  }

  function Last(batch: seq<Header>): Header
    requires batch != []
  {
    batch[|batch| - 1]
  }

  /** Below the batch, the path of its last header is that of its first parent. */
  lemma BelowBatch(hs: Headers, genesis: Hash, batch: seq<Header>, i: nat)
    requires Tree(hs, genesis) && InDb(hs, batch) && i < batch[0].number
    ensures AncestorAt(hs, genesis, Last(batch).hash, i) == AncestorAt(hs, genesis, batch[0].parent, i)
  {
    hide Tree;
    BatchOnPath(hs, genesis, batch, |batch| - 1, 0);
    AncestorTrans(hs, genesis, Last(batch).hash, batch[0].number, i);
    ParentPath(hs, genesis, batch[0].hash, i);
  }

  /** The markers below the batch are those of its parent's path and those above it are
      gone; the heights of the batch are still to be written. */
  ghost predicate BelowMarked(hs: Headers, genesis: Hash, canon: Markers, batch: seq<Header>)
    requires Tree(hs, genesis) && InDb(hs, batch)
  {
    MarkedOn(hs, genesis, canon, Last(batch).hash, 0, batch[0].number) && NoneAbove(canon, Last(batch).number)
  }

  lemma BelowFromParent(hs: Headers, genesis: Hash, canon: Markers, batch: seq<Header>)
    requires Tree(hs, genesis) && InDb(hs, batch)
    requires MarkedOn(hs, genesis, canon, batch[0].parent, 0, batch[0].number) && NoneAbove(canon, Last(batch).number)
    ensures BelowMarked(hs, genesis, canon, batch)
  {
    hide Tree;
    forall i: nat | i < batch[0].number ensures i in canon && canon[i] == AncestorAt(hs, genesis, Last(batch).hash, i) {
      BelowBatch(hs, genesis, batch, i);
    }
  }

  /** Marking every header of the batch completes the path. */
  lemma BatchCompletes(hs: Headers, genesis: Hash, canon: Markers, batch: seq<Header>, r: Markers)
    requires Tree(hs, genesis) && InDb(hs, batch) && BelowMarked(hs, genesis, canon, batch)
    requires forall i :: 0 <= i < |batch| ==> batch[i].number in r && r[batch[i].number] == batch[i].hash
    requires forall n: nat :: n < batch[0].number || n > Last(batch).number ==>
      (n in r <==> n in canon) && ReadMark(r, n) == ReadMark(canon, n)
    ensures MarksPath(hs, genesis, r, Last(batch).hash)
  {
    hide Tree, AncestorAt;
    var last := Last(batch).hash;
    forall i: nat | i <= hs[last].number ensures i in r && r[i] == AncestorAt(hs, genesis, last, i) {
      if i < batch[0].number {
        assert i in canon && canon[i] == AncestorAt(hs, genesis, last, i);
      } else {
        BatchOnPath(hs, genesis, batch, |batch| - 1, i - batch[0].number);
      }
    }
  }

  /** The first part of the marker update when the batch does not extend the current head. */
  method Rebase(canon: Markers, hs: Headers, batch: seq<Header>, ghost genesis: Hash, ghost head: Hash)
      returns (r: Markers)
    requires Tree(hs, genesis) && InDb(hs, batch) && head in hs && MarksPath(hs, genesis, canon, head)
    ensures BelowMarked(hs, genesis, r, batch)
    ensures forall i: nat :: batch[0].number <= i <= Last(batch).number ==> ReadMark(r, i) == ReadMark(canon, i)
  {
    hide Tree, MarksPath, AncestorAt, MarkedOn, BelowMarked;
    MarksFromZero(hs, genesis, canon, head);
    var cut := DeleteAbove(canon, Last(batch).number, hs[head].number);
    r := WalkBack(canon, cut, hs, batch[0].parent, genesis, head, Last(batch).number);
    BelowFromParent(hs, genesis, r, batch);
  }

  lemma MarksFromZero(hs: Headers, genesis: Hash, canon: Markers, head: Hash)
    requires Tree(hs, genesis) && head in hs && MarksPath(hs, genesis, canon, head)
    ensures forall i: nat :: i in canon <==> i <= hs[head].number
    ensures forall i :: i in canon ==> canon[i] != NO_HASH
  {
    forall i: nat | i in canon ensures canon[i] != NO_HASH { AncestorIn(hs, genesis, head, i); }
  }

  /** On top of the current head nothing has to be rebased. */
  lemma AlreadyBased(hs: Headers, genesis: Hash, canon: Markers, batch: seq<Header>)
    requires Tree(hs, genesis) && InDb(hs, batch) && MarksPath(hs, genesis, canon, batch[0].parent)
    ensures BelowMarked(hs, genesis, canon, batch)
  {
    hide Tree;
    BelowFromParent(hs, genesis, canon, batch);
  }

  /** With no header newly inserted the batch itself goes unmarked; the markers then are right
      only if they were already. */
  lemma NothingInserted(hs: Headers, genesis: Hash, canon: Markers, head: Hash, batch: seq<Header>, r: Markers)
    requires Tree(hs, genesis) && InDb(hs, batch) && head in hs && MarksPath(hs, genesis, canon, head)
    requires BelowMarked(hs, genesis, r, batch)
    requires forall i: nat :: batch[0].number <= i <= Last(batch).number ==> ReadMark(r, i) == ReadMark(canon, i)
    requires ReadMark(canon, Last(batch).number) == Last(batch).hash ==> Last(batch).hash == head
    ensures MarksPath(hs, genesis, r, Last(batch).hash) <==> Last(batch).hash == head
  {
    hide Tree, AncestorAt;
    var last := Last(batch).hash;
    if MarksPath(hs, genesis, r, last) {
      AncestorAtSelf(hs, genesis, last);
      assert r[hs[last].number] == last;
    }
    if last == head {
      MarksFromZero(hs, genesis, canon, head);
      forall i: nat | i <= hs[last].number ensures i in r && r[i] == AncestorAt(hs, genesis, last, i) {
        if i >= batch[0].number {
          AncestorIn(hs, genesis, head, i);
          assert ReadMark(r, i) == ReadMark(canon, i);
        }
      }
    }
  }

  /** The whole marker update of writeHeaders. */
  method MoveMarkers(canon: Markers, hs: Headers, batch: seq<Header>, first: int, inserted: seq<Header>,
                     alreadyCanon: bool, ghost genesis: Hash, ghost head: Hash) returns (r: Markers)
    requires Tree(hs, genesis) && InDb(hs, batch) && head in hs && MarksPath(hs, genesis, canon, head)
    requires -1 <= first < |batch| && inserted == if first == -1 then [] else batch[first..]
    requires alreadyCanon ==> batch[0].parent == head && first == 0
    requires ReadMark(canon, Last(batch).number) == Last(batch).hash ==> Last(batch).hash == head
    ensures first >= 0 ==> MarksPath(hs, genesis, r, Last(batch).hash)
    ensures first == -1 ==> (MarksPath(hs, genesis, r, Last(batch).hash) <==> Last(batch).hash == head)
  {
    hide Tree, MarksPath, AncestorAt, BelowMarked;
    var based := canon;
    if alreadyCanon {
      AlreadyBased(hs, genesis, canon, batch);
    } else {
      based := Rebase(canon, hs, batch, genesis, head);
    }
    r := based;
    if !alreadyCanon && first >= 0 {
      r := MarkAll(r, batch[..first]);
    }
    r := MarkAll(r, inserted);
    if first >= 0 {
      BatchCompletes(hs, genesis, based, batch, r);
    } else {
      assert forall n: nat :: ReadMark(r, n) == ReadMark(based, n) && (n in r <==> n in based);
      assert r == based;
      NothingInserted(hs, genesis, canon, head, batch, r);
    }
  }

  // ---------------------------------------------------------------------
  // The header chain object

  /** A known header that is marked canonical and no lighter than the head is the head. */
  lemma MarkedAndHeavy(hs: Headers, genesis: Hash, canon: Markers, head: Hash, h: Hash)
    requires Tree(hs, genesis) && PositiveDifficulty(hs, genesis) && head in hs && h in hs
      && MarksPath(hs, genesis, canon, head)
    requires ReadMark(canon, hs[h].number) == h && PathTd(hs, genesis, h) >= PathTd(hs, genesis, head)
    ensures h == head
  {
    var n := hs[h].number;
    assert n in canon by { assert h != NO_HASH; }
    if n < hs[head].number {
      TdGrows(hs, genesis, head, n);
    }
  }

  class HeaderChain {
    const genesis: Hash
    var headers: Headers
    var tds: map<Hash, nat>
    var canon: Markers
    var current: Hash
    var headerCache: Headers
    var tdCache: map<Hash, nat>

    /** The database is a tree with the right total difficulties, the current header is a
        heaviest one, and the markers are exactly its ancestor path. */
    ghost predicate Valid()
      reads this
    {
      && Tree(headers, genesis) && PositiveDifficulty(headers, genesis) && TdsOk(headers, genesis, tds)
      && current in headers && Heaviest(headers, genesis, current)
      && MarksPath(headers, genesis, canon, current)
    }

    /** The caches hold nothing that the database does not. */
    ghost predicate Coherent()
      reads this
    {
      && (forall h :: h in headerCache ==> h in headers && headerCache[h] == headers[h])
      && (forall h :: h in tdCache ==> h in tds && tdCache[h] == tds[h])
    }

    constructor (g: Header)
      requires g.hash != NO_HASH && g.number == 0
      ensures Valid() && Coherent() && headers == map[g.hash := g] && current == genesis == g.hash
    {
      genesis, headers, tds, canon, current := g.hash, map[g.hash := g], map[g.hash := g.difficulty], map[0 := g.hash],
        g.hash;
      headerCache, tdCache := map[], map[];
    }

    /** What a completed import leads to: `hs0`, `head0` and `localTd` are the headers, the head
        and its total difficulty before it. */
    ghost predicate Imported(batch: seq<Header>, coin: bool, hs0: Headers, head0: Hash, localTd: nat)
      requires batch != []
      reads this
    {
      && headers == WithHeaders(hs0, batch) && Tree(headers, genesis) && PositiveDifficulty(headers, genesis)
      && TdsOk(headers, genesis, tds) && head0 in headers && Last(batch).hash in headers
      && current ==
         (if ChoosesNew(PathTd(headers, genesis, Last(batch).hash), localTd, Last(batch).number, headers[head0].number,
                        coin)
          then Last(batch).hash else head0)
      && Adopted(PathTd(headers, genesis, Last(batch).hash), localTd, Last(batch), headers[head0], coin, current)
      && Heaviest(headers, genesis, current)
      && (MarksPath(headers, genesis, canon, current) <==> !(AllKnown(hs0, batch) && current != head0))
    }

    /** GetTd: through the cache, which may have lost any entries. */
    method GetTd(h: Hash) returns (td: Option<nat>)
      requires Coherent()
      modifies this`tdCache
      ensures Coherent() && td == if h in tds then Some(tds[h]) else None
      ensures tdCache == if h in tds then old(tdCache)[h := tds[h]] else old(tdCache)
    {
      if h in tdCache {
        return Some(tdCache[h]);
      }
      if h !in tds {
        return None;
      }
      tdCache := tdCache[h := tds[h]];
      td := Some(tds[h]);
    }

    /** Eviction from the LRU caches, at any time. */
    method Evict(hashes: set<Hash>)
      requires Coherent()
      modifies this`headerCache, this`tdCache
      ensures Coherent() && headerCache == old(headerCache) - hashes && tdCache == old(tdCache) - hashes
    {
      headerCache, tdCache := headerCache - hashes, tdCache - hashes;
    }

    /** The first loop of writeHeaders: fills the write batch and the caches. */
    method Collect(batch: seq<Header>, ptd: nat)
      returns (newHeaders: Headers, newTds: map<Hash, nat>, newTd: nat, first: int, inserted: seq<Header>)
      requires Tree(headers, genesis) && TdsOk(headers, genesis, tds) && Coherent() && Linked(headers, batch)
      requires batch != [] && batch[0].parent in headers && ptd == tds[batch[0].parent]
      modifies this`headerCache, this`tdCache
      ensures Stored(headers, genesis, batch, |batch|, newHeaders, newTds, newTd)
        && Listed(headers, batch, |batch|, first, inserted)
      ensures forall h :: h in headerCache ==> h in newHeaders && headerCache[h] == newHeaders[h]
      ensures forall h :: h in tdCache ==> h in newTds && tdCache[h] == newTds[h]
      ensures forall i :: 0 <= i < |batch| && batch[i].hash !in headers ==> batch[i].hash in headerCache
    {
      hide Tree, TdsOk, Linked, Stored, Listed, WithHeaders;
      newHeaders, newTds, newTd, first, inserted := headers, tds, ptd, -1, [];
      StoreStart(headers, genesis, batch, tds);
      var i := 0;
      while i < |batch|
        invariant 0 <= i <= |batch| && first < i && Stored(headers, genesis, batch, i, newHeaders, newTds, newTd)
          && Listed(headers, batch, i, first, inserted)
        invariant forall h :: h in headerCache ==> h in newHeaders && headerCache[h] == newHeaders[h]
        invariant forall h :: h in tdCache ==> h in newTds && tdCache[h] == newTds[h]
        invariant forall h :: h in headerCache && h !in headers ==> exists j :: 0 <= j < i && batch[j].hash == h
        invariant forall j :: 0 <= j < i && batch[j].hash !in headers ==> batch[j].hash in headerCache
      {
        var x := batch[i];
        StoreStep(headers, genesis, batch, i, newHeaders, newTds, newTd);
        ListStep(headers, genesis, batch, i, first, inserted);
        BatchDistinct(headers, batch, i);
        newTd := newTd + x.difficulty;
        if !(x.hash in headerCache || x.hash in headers) {
          newTds, newHeaders := newTds[x.hash := newTd], newHeaders[x.hash := x];
          tdCache, headerCache := tdCache[x.hash := newTd], headerCache[x.hash := x];
          inserted := inserted + [x];
          if first < 0 {
            first := i;
          }
        }
        i := i + 1;
      }
    }

    /** writeHeaders. Whenever a header of the batch was unknown, everything in Valid is kept,
        so the markers are the path of a heaviest header again. With all headers known it is
        kept unless the fork choice prefers the last one and that is not the current header:
        then the head moves without its markers. An interrupted import leaves the database alone
        but the new headers stay in the caches. */
    method WriteHeaders(batch: seq<Header>, coin: bool, interrupted: bool)
        returns (status: WriteStatus, err: WriteError)
      requires Valid() && Coherent() && Linked(headers, batch)
      modifies this
      ensures err == UnknownAncestor <==> batch != [] && batch[0].parent !in old(headers)
      ensures err == Aborted <==> batch != [] && batch[0].parent in old(headers) && interrupted
      ensures err != NoError || batch == [] ==>
        headers == old(headers) && tds == old(tds) && canon == old(canon) && current == old(current)
          && status == NonStat && Valid()
      ensures err != Aborted ==> Coherent()
      ensures err == Aborted ==> (Coherent() <==> AllKnown(old(headers), batch))
      ensures err == NoError && batch != [] ==>
        Imported(batch, coin, old(headers), old(current), old(tds)[old(current)])
      ensures Valid() <==> interrupted || !AdoptsKnown(old(headers), old(tds), old(current), batch, coin)
      ensures err == NoError && batch != [] ==>
        status == if AllKnown(old(headers), batch) then NonStat else if current == Last(batch).hash then CanonStat
          else SideStat
    {
      hide Tree, TdsOk, Linked, Stored, Listed, Heaviest, PositiveDifficulty, MarksPath, InDb, WithHeaders,
           ChoosesNew, PathTd, AllKnown, Adopted;
      if batch == [] {
        return NonStat, NoError;
      }
      var ptd := GetTd(batch[0].parent);
      SameKeys(headers, genesis, tds);
      if ptd.None? {
        return NonStat, UnknownAncestor;
      }
      ghost var hs0, tds0, canon0, head0 := headers, tds, canon, current;
      var newHeaders, newTds, newTd, first, inserted := Collect(batch, ptd.value);
      ImportFacts(hs0, genesis, tds0, canon0, head0, batch, newHeaders, newTds, newTd, first, inserted);
      if interrupted {
        AbortedCaches(hs0, tds0, batch, newHeaders, newTds, headerCache, tdCache, genesis, newTd);
        return NonStat, Aborted;
      }
      headers, tds := newHeaders, newTds;
      if AllKnown(hs0, batch) { KnownTd(hs0, genesis, tds0, batch, newHeaders); }
      ChoiceIs(newTd, tds0[head0], Last(batch), headers[head0], coin);
      HashIsKey(headers, genesis, head0);
      status := Settle(batch, newTd, first, inserted, coin);
      err := NoError;
    }

    /** The second half of writeHeaders: the fork choice and the markers. */
    method Settle(batch: seq<Header>, newTd: nat, first: int, inserted: seq<Header>, coin: bool)
        returns (status: WriteStatus)
      requires Ready(headers, genesis, canon, current, batch, tds, newTd) && Coherent()
      requires batch != [] && -1 <= first < |batch| && inserted == (if first == -1 then [] else batch[first..])
      requires batch[0].parent == current ==> first == 0
      requires first >= 0 ==> Last(batch).hash != current
      modifies this`canon, this`current, this`tdCache
      ensures Coherent() && current in headers && Heaviest(headers, genesis, current)
      ensures current ==
        if ChoosesNew(newTd, PathTd(headers, genesis, old(current)), Last(batch).number, headers[old(current)].number,
                      coin)
        then Last(batch).hash else old(current)
      ensures MarksPath(headers, genesis, canon, current) <==> !(first == -1 && current != old(current))
      ensures status == if first == -1 then NonStat else if current == Last(batch).hash then CanonStat else SideStat
    {
      hide Tree, TdsOk, Heaviest, PositiveDifficulty, MarksPath, InDb, ChoosesNew, PathTd;
      SameKeys(headers, genesis, tds);
      var localTd := GetTd(current);
      var lastNumber, headNumber := Last(batch).number, headers[current].number;
      var reorg := ChoosesNew(newTd, localTd.value, lastNumber, headNumber, coin);
      var alreadyCanon := batch[0].parent == current;
      status := SideStat;
      ChoiceFacts(headers, genesis, canon, current, batch, tds, newTd, localTd.value, coin);
      if reorg {
        canon := MoveMarkers(canon, headers, batch, first, inserted, alreadyCanon, genesis, current);
        current := Last(batch).hash;
        status := CanonStat;
      }
      if |inserted| == 0 {
        status := NonStat;
      }
    }

    /** GetHeader: through the cache, which does not look at the number; the database does. */
    method GetHeader(h: Hash, number: nat) returns (x: Option<Header>)
      requires Coherent()
      modifies this`headerCache
      ensures Coherent()
      ensures x == if h in headers && (h in old(headerCache) || headers[h].number == number) then Some(headers[h])
        else None
      ensures headerCache == if x.Some? then old(headerCache)[h := headers[h]] else old(headerCache)
    {
      if h in headerCache {
        return Some(headerCache[h]);
      }
      if h !in headers || headers[h].number != number {
        return None;
      }
      headerCache := headerCache[h := headers[h]];
      x := Some(headers[h]);
    }

    /** GetAncestor: `max` bounds the steps taken off the canonical chain, `left` is what
        remains of it. The jump along the markers ends where walking `n` parents ends, and
        it succeeds exactly when the steps needed are within `max` (a single step is free). */
    method GetAncestor(h: Hash, number: nat, n: nat, max: nat) returns (r: Hash, rNumber: nat, left: nat)
      requires Valid() && Coherent()
      modifies this`headerCache
      ensures Coherent() && left <= max && (n > number ==> r == NO_HASH && rNumber == 0 && left == max)
      ensures n == 0 ==> r == h && rNumber == number && left == max
      ensures h !in headers && h != NO_HASH && n > 0 ==> r == NO_HASH && rNumber == 0
      ensures At(headers, h, number) && n == 1 && number > 0 ==>
        r == AncestorAt(headers, genesis, h, number - 1) && rNumber == number - 1 && left == max
      ensures At(headers, h, number) && 2 <= n <= number ==> (
        var steps := OffCanon(headers, genesis, canon, h, n);
        if steps <= max then r == AncestorAt(headers, genesis, h, number - n) && rNumber == number - n
          && left == max - steps
        else r == NO_HASH && rNumber == 0 && left == 0)
    {
      hide Tree, TdsOk, Heaviest, PositiveDifficulty, MarksPath, AncestorAt;
      left := max;
      if n > number {
        return NO_HASH, 0, left;
      }
      if n == 1 {
        var x := GetHeader(h, number);
        if x.None? {
          return NO_HASH, 0, left;
        }
        if At(headers, h, number) { OneParent(headers, genesis, h, number); }
        return x.value.parent, number - 1, left;
      }
      var hash, at: nat, rest: nat := h, number, n;
      if At(headers, h, number) { OffCanonStart(headers, genesis, canon, current, h, n); }
      while rest != 0
        invariant Coherent() && rest <= n && at == number - (n - rest) && left == max - (n - rest)
          && (h !in headers ==> rest == n) && (rest == n ==> hash == h)
        invariant At(headers, h, number) ==> Descending(headers, genesis, canon, current, h, n, hash, rest)
      {
        if ReadMark(canon, at) == hash {
          r := ReadMark(canon, at - rest);
          if At(headers, h, number) { JumpLands(headers, genesis, canon, current, h, n, hash, rest); }
          if h !in headers { MarkedIsKnown(headers, genesis, canon, current, at); }
          return r, at - rest, left;
        }
        if left == 0 {
          if At(headers, h, number) { NotYet(headers, genesis, canon, current, h, n, hash, rest); }
          return NO_HASH, 0, left;
        }
        if At(headers, h, number) { StepDown(headers, genesis, canon, current, h, n, hash, rest); }
        left, rest := left - 1, rest - 1;
        var x := GetHeader(hash, at);
        if x.None? {
          return NO_HASH, 0, left;
        }
        hash, at := x.value.parent, at - 1;
      }
      return hash, at, left;
    }
  }

  ghost predicate At(hs: Headers, h: Hash, number: nat) {
    h in hs && hs[h].number == number
  }

  lemma BatchDistinct(hs: Headers, batch: seq<Header>, i: nat)
    requires Linked(hs, batch) && i < |batch|
    ensures forall j :: 0 <= j < i ==> batch[j].hash != batch[i].hash
  {
  }

  ghost predicate AllKnown(hs: Headers, batch: seq<Header>) {
    forall i :: 0 <= i < |batch| ==> batch[i].hash in hs
  }

  lemma HashIsKey(hs: Headers, genesis: Hash, h: Hash)
    requires Tree(hs, genesis) && h in hs
    ensures hs[h].hash == h
  {
  }

  /** The batch has nothing new, and the fork choice prefers its last header to the head. */
  ghost predicate AdoptsKnown(hs: Headers, tds: map<Hash, nat>, head: Hash, batch: seq<Header>, coin: bool) {
    && batch != [] && batch[0].parent in hs && AllKnown(hs, batch) && Last(batch).hash != head
    && Last(batch).hash in tds && head in tds && head in hs
    && ChoosesNew(tds[Last(batch).hash], tds[head], Last(batch).number, hs[head].number, coin)
  }

  /** With nothing new, the total difficulty compared is the stored one. */
  lemma KnownTd(hs: Headers, genesis: Hash, tds: map<Hash, nat>, batch: seq<Header>, hs': Headers)
    requires Tree(hs, genesis) && TdsOk(hs, genesis, tds) && batch != [] && Linked(hs, batch) && AllKnown(hs, batch)
    requires hs' == WithHeaders(hs, batch) && Tree(hs', genesis)
    ensures hs' == hs && Last(batch).hash in tds && tds[Last(batch).hash] == PathTd(hs', genesis, Last(batch).hash)
  {
    hide Tree, PathTd;
    WithHeadersContents(hs, batch);
    assert hs' == hs;
    SameKeys(hs, genesis, tds);
    assert Last(batch).hash in hs;
  }

  lemma SameKeys(hs: Headers, genesis: Hash, tds: map<Hash, nat>)
    requires Tree(hs, genesis) && TdsOk(hs, genesis, tds)
    ensures forall h :: h in tds <==> h in hs
    ensures forall h :: h in hs ==> tds[h] == PathTd(hs, genesis, h)
  {
    forall h ensures h in tds <==> h in hs { assert h in tds.Keys <==> h in hs.Keys; }
  }

  /** The situation after the batch has been stored, before the markers move. */
  ghost predicate Ready(hs: Headers, genesis: Hash, canon: Markers, head: Hash, batch: seq<Header>, tds: map<Hash, nat>,
                        td: nat) {
    && Tree(hs, genesis) && PositiveDifficulty(hs, genesis) && TdsOk(hs, genesis, tds) && InDb(hs, batch)
    && head in hs && MarksPath(hs, genesis, canon, head)
    && td == PathTd(hs, genesis, Last(batch).hash)
    && forall h :: h in hs ==> PathTd(hs, genesis, h) <= PathTd(hs, genesis, head) || PathTd(hs, genesis, h) <= td
  }

  lemma ImportFacts(hs: Headers, genesis: Hash, tds: map<Hash, nat>, canon: Markers, head: Hash, batch: seq<Header>,
                    hs': Headers, tds': map<Hash, nat>, td: nat, first: int, inserted: seq<Header>)
    requires Tree(hs, genesis) && PositiveDifficulty(hs, genesis) && TdsOk(hs, genesis, tds) && head in hs
    requires Heaviest(hs, genesis, head) && MarksPath(hs, genesis, canon, head)
    requires batch != [] && Linked(hs, batch) && batch[0].parent in hs
    requires Stored(hs, genesis, batch, |batch|, hs', tds', td) && Listed(hs, batch, |batch|, first, inserted)
    ensures Ready(hs', genesis, canon, head, batch, tds', td) && Extends(hs, hs') && hs' == WithHeaders(hs, batch)
    ensures PathTd(hs', genesis, head) == tds[head] && hs'[head] == hs[head]
    ensures -1 <= first < |batch| && inserted == (if first == -1 then [] else batch[first..])
      && (first == -1 <==> AllKnown(hs, batch))
    ensures batch[0].parent == head ==> first == 0
    ensures first >= 0 ==> Last(batch).hash !in hs
  {
    hide Tree, TdsOk, Heaviest, PositiveDifficulty, MarksPath, Linked, InDb;
    StoredInDb(hs, genesis, batch, hs', tds', td);
    StoredPositive(hs, genesis, batch, hs', tds', td);
    StoredTd(hs', genesis, batch, tds', hs, td);
    MarksMonotone(hs, hs', genesis, canon, head);
    SameKeys(hs, genesis, tds);
    Monotone(hs, hs', genesis, head, 0);
    StoredBound(hs, hs', genesis, head, batch, td);
    ListedAll(hs, genesis, head, batch, first, inserted);
  }

  lemma StoredInDb(hs: Headers, genesis: Hash, batch: seq<Header>, hs': Headers, tds': map<Hash, nat>, td: nat)
    requires batch != [] && Linked(hs, batch) && batch[0].parent in hs
    requires Stored(hs, genesis, batch, |batch|, hs', tds', td)
    ensures InDb(hs', batch) && Extends(hs, hs') && hs' == WithHeaders(hs, batch) && Tree(hs', genesis)
      && TdsOk(hs', genesis, tds')
  {
    hide Tree, TdsOk;
    assert batch[..|batch|] == batch;
    WithHeadersContents(hs, batch);
  }

  lemma StoredPositive(hs: Headers, genesis: Hash, batch: seq<Header>, hs': Headers, tds': map<Hash, nat>, td: nat)
    requires Linked(hs, batch) && PositiveDifficulty(hs, genesis) && Stored(hs, genesis, batch, |batch|, hs', tds', td)
    ensures PositiveDifficulty(hs', genesis)
  {
    hide Tree, TdsOk;
    assert batch[..|batch|] == batch;
    WithHeadersContents(hs, batch);
  }

  lemma StoredTd(hs': Headers, genesis: Hash, batch: seq<Header>, tds': map<Hash, nat>, hs: Headers, td: nat)
    requires Stored(hs, genesis, batch, |batch|, hs', tds', td) && Tree(hs', genesis) && TdsOk(hs', genesis, tds')
    ensures Last(batch).hash in hs' && td == PathTd(hs', genesis, Last(batch).hash)
  {
    hide Tree;
  }

  lemma MarksMonotone(hs: Headers, hs': Headers, genesis: Hash, canon: Markers, head: Hash)
    requires Tree(hs, genesis) && Tree(hs', genesis) && Extends(hs, hs') && head in hs
      && MarksPath(hs, genesis, canon, head)
    ensures MarksPath(hs', genesis, canon, head)
  {
    hide Tree, AncestorAt;
    forall i: nat | i <= hs[head].number ensures AncestorAt(hs', genesis, head, i) == AncestorAt(hs, genesis, head, i) {
      Monotone(hs, hs', genesis, head, i);
    }
  }

  lemma StoredBound(hs: Headers, hs': Headers, genesis: Hash, head: Hash, batch: seq<Header>, td: nat)
    requires Tree(hs, genesis) && Tree(hs', genesis) && Extends(hs, hs') && PositiveDifficulty(hs', genesis)
      && InDb(hs', batch)
    requires head in hs && Heaviest(hs, genesis, head) && hs' == WithHeaders(hs, batch) && Linked(hs, batch)
    requires td == PathTd(hs', genesis, Last(batch).hash)
    ensures forall h :: h in hs' ==>
      PathTd(hs', genesis, h) <= PathTd(hs', genesis, head) || PathTd(hs', genesis, h) <= td
  {
    hide Tree, PathTd, Heaviest, InDb, PositiveDifficulty, Linked, WithHeaders;
    forall h | h in hs' ensures PathTd(hs', genesis, h) <= PathTd(hs', genesis, head) || PathTd(hs', genesis, h) <= td {
      if h in hs { OldBound(hs, hs', genesis, head, h); } else { NewBound(hs, hs', genesis, batch, h); }
    }
  }

  lemma OldBound(hs: Headers, hs': Headers, genesis: Hash, head: Hash, h: Hash)
    requires Tree(hs, genesis) && Tree(hs', genesis) && Extends(hs, hs') && head in hs && Heaviest(hs, genesis, head)
      && h in hs
    ensures h in hs' && head in hs' && PathTd(hs', genesis, h) <= PathTd(hs', genesis, head)
  {
    hide Tree, PathTd;
    Monotone(hs, hs', genesis, h, 0);
    Monotone(hs, hs', genesis, head, 0);
  }

  lemma NewBound(hs: Headers, hs': Headers, genesis: Hash, batch: seq<Header>, h: Hash)
    requires Tree(hs', genesis) && PositiveDifficulty(hs', genesis) && InDb(hs', batch) && hs' == WithHeaders(hs, batch)
      && Linked(hs, batch)
    requires h in hs' && h !in hs
    ensures PathTd(hs', genesis, h) <= PathTd(hs', genesis, Last(batch).hash)
  {
    hide Tree, PathTd, AncestorAt, Linked, WithHeaders;
    var i := IndexInBatch(hs, batch, h);
    BatchOnPath(hs', genesis, batch, |batch| - 1, i);
    if i < |batch| - 1 { TdGrows(hs', genesis, Last(batch).hash, batch[i].number); }
  }

  lemma IndexInBatch(hs: Headers, batch: seq<Header>, h: Hash) returns (i: nat)
    requires Linked(hs, batch) && h in WithHeaders(hs, batch) && h !in hs
    ensures i < |batch| && h == batch[i].hash
  {
    WithHeadersContents(hs, batch);
    i :| 0 <= i < |batch| && h == batch[i].hash;
  }

  lemma ListedAll(hs: Headers, genesis: Hash, head: Hash, batch: seq<Header>, first: int, inserted: seq<Header>)
    requires Tree(hs, genesis) && PositiveDifficulty(hs, genesis) && head in hs && Heaviest(hs, genesis, head)
    requires batch != [] && Linked(hs, batch) && Listed(hs, batch, |batch|, first, inserted)
    ensures first == -1 <==> AllKnown(hs, batch)
    ensures batch[0].parent == head ==> first == 0
    ensures first >= 0 ==> Last(batch).hash !in hs
  {
    assert batch[0].hash in hs ==> hs[batch[0].hash] == batch[0];
    if batch[0].parent == head && batch[0].hash in hs {
      assert false;
    }
    if first >= 0 {
      assert batch[first].hash !in hs && batch[|batch| - 1].hash !in hs;
    }
  }

  lemma ChoiceFacts(hs: Headers, genesis: Hash, canon: Markers, head: Hash, batch: seq<Header>, tds: map<Hash, nat>,
                    newTd: nat, localTd: nat, coin: bool)
    requires Ready(hs, genesis, canon, head, batch, tds, newTd) && localTd == PathTd(hs, genesis, head)
    ensures var chosen := ChoosesNew(newTd, localTd, Last(batch).number, hs[head].number, coin);
      && Last(batch).hash in hs && Heaviest(hs, genesis, if chosen then Last(batch).hash else head)
      && (chosen ==> (ReadMark(canon, Last(batch).number) == Last(batch).hash ==> Last(batch).hash == head))
  {
    hide Tree, MarksPath, PositiveDifficulty, TdsOk, PathTd;
    var chosen := ChoosesNew(newTd, localTd, Last(batch).number, hs[head].number, coin);
    if chosen && ReadMark(canon, Last(batch).number) == Last(batch).hash {
      MarkedAndHeavy(hs, genesis, canon, head, Last(batch).hash);
    }
  }

  lemma AbortedCaches(hs: Headers, tds: map<Hash, nat>, batch: seq<Header>, hs': Headers, tds': map<Hash, nat>,
                      headerCache: Headers, tdCache: map<Hash, nat>, genesis: Hash, td: nat)
    requires Linked(hs, batch) && Stored(hs, genesis, batch, |batch|, hs', tds', td) && Tree(hs, genesis)
      && TdsOk(hs, genesis, tds)
    requires forall h :: h in headerCache ==> h in hs' && headerCache[h] == hs'[h]
    requires forall h :: h in tdCache ==> h in tds' && tdCache[h] == tds'[h]
    requires forall i :: 0 <= i < |batch| && batch[i].hash !in hs ==> batch[i].hash in headerCache
    ensures ((forall h :: h in headerCache ==> h in hs && headerCache[h] == hs[h])
             && (forall h :: h in tdCache ==> h in tds && tdCache[h] == tds[h])) <==> AllKnown(hs, batch)
  {
    if AllKnown(hs, batch) {
      assert batch[..|batch|] == batch;
      WithHeadersContents(hs, batch);
      forall h | h in hs' ensures h in hs {}
      assert hs' == hs;
      SameKeys(hs, genesis, tds);
      SameKeys(hs', genesis, tds');
    }
  }

  /** The markers left behind when every header of the batch is known: a genesis with two
      branches of equal total difficulty, the current head on one of them, and the coin
      falling on the other. */
  lemma AllKnownExample()
    ensures var g, a, b := Header(1, NO_HASH, 0, 1), Header(2, 1, 1, 2), Header(3, 1, 1, 2);
      var hs := map[1 := g, 2 := a, 3 := b]; var canon := map[0 := 1, 1 := 2];
      && Tree(hs, 1) && PositiveDifficulty(hs, 1) && Heaviest(hs, 1, 2) && MarksPath(hs, 1, canon, 2) && Linked(hs, [b])
         && AllKnown(hs, [b])
      && ChoosesNew(PathTd(hs, 1, 3), PathTd(hs, 1, 2), 1, 1, true)
      && !MarksPath(hs, 1, canon, 3)
  {
    var g, a, b := Header(1, NO_HASH, 0, 1), Header(2, 1, 1, 2), Header(3, 1, 1, 2);
    var hs := map[1 := g, 2 := a, 3 := b];
    var canon := map[0 := 1, 1 := 2];
    assert PathTd(hs, 1, 1) == 1 && PathTd(hs, 1, 2) == 3 && PathTd(hs, 1, 3) == 3;
    assert AncestorAt(hs, 1, 2, 0) == AncestorAt(hs, 1, 1, 0) == 1 && AncestorAt(hs, 1, 2, 1) == 2;
    assert AncestorAt(hs, 1, 3, 1) == 3 && canon[1] != 3;
  }

  /** An import that is aborted after a header was new leaves it in the cache only, where it
      passes for known. */
  method AbortedImportExample() returns (chain: HeaderChain, err: WriteError)
    ensures err == Aborted && chain.Valid() && !chain.Coherent()
  {
    hide Tree, TdsOk, Heaviest, PositiveDifficulty, MarksPath;
    chain := new HeaderChain(Header(1, NO_HASH, 0, 1));
    var batch := [Header(2, 1, 1, 2)];
    assert batch[0].hash !in chain.headers;
    var status;
    status, err := chain.WriteHeaders(batch, false, true);
  }

  // ---------------------------------------------------------------------
  // Ancestor lookup

  /** How many of the next `n` parent steps from `h` are taken before meeting a marked header. */
  ghost function OffCanon(hs: Headers, genesis: Hash, canon: Markers, h: Hash, n: nat): nat
    requires Tree(hs, genesis) && h in hs && n <= hs[h].number
    decreases n
  {
    if n == 0 || ReadMark(canon, hs[h].number) == h then 0 else 1 + OffCanon(hs, genesis, canon, hs[h].parent, n - 1)
  }

  lemma OneParent(hs: Headers, genesis: Hash, h: Hash, number: nat)
    requires Tree(hs, genesis) && h in hs && hs[h].number == number && number > 0
    ensures hs[h].parent == AncestorAt(hs, genesis, h, number - 1)
  {
  }

  /** After n - rest steps from `h` the walk stands at `hash`, always off the markers so far. */
  ghost predicate Descending(hs: Headers, genesis: Hash, canon: Markers, head: Hash, h: Hash, n: nat, hash: Hash,
                             rest: nat) {
    && Tree(hs, genesis) && head in hs && MarksPath(hs, genesis, canon, head)
    && h in hs && rest <= n <= hs[h].number
    && hash in hs && hs[hash].number == hs[h].number - (n - rest)
       && hash == AncestorAt(hs, genesis, h, hs[h].number - (n - rest))
    && OffCanon(hs, genesis, canon, h, n) == n - rest + OffCanon(hs, genesis, canon, hash, rest)
  }

  lemma OffCanonStart(hs: Headers, genesis: Hash, canon: Markers, head: Hash, h: Hash, n: nat)
    requires Tree(hs, genesis) && head in hs && MarksPath(hs, genesis, canon, head) && (h in hs ==> n <= hs[h].number)
    ensures h in hs ==> Descending(hs, genesis, canon, head, h, n, h, n)
  {
  }

  lemma StepDown(hs: Headers, genesis: Hash, canon: Markers, head: Hash, h: Hash, n: nat, hash: Hash, rest: nat)
    requires Descending(hs, genesis, canon, head, h, n, hash, rest) && rest > 0
      && ReadMark(canon, hs[hash].number) != hash
    ensures Descending(hs, genesis, canon, head, h, n, hs[hash].parent, rest - 1)
  {
    hide MarksPath;
    AncestorParent(hs, genesis, h, hs[hash].number);
  }

  lemma NotYet(hs: Headers, genesis: Hash, canon: Markers, head: Hash, h: Hash, n: nat, hash: Hash, rest: nat)
    requires Descending(hs, genesis, canon, head, h, n, hash, rest) && rest > 0
      && ReadMark(canon, hs[hash].number) != hash
    ensures OffCanon(hs, genesis, canon, h, n) > n - rest
  {
  }

  lemma JumpLands(hs: Headers, genesis: Hash, canon: Markers, head: Hash, h: Hash, n: nat, hash: Hash, rest: nat)
    requires Descending(hs, genesis, canon, head, h, n, hash, rest) && ReadMark(canon, hs[hash].number) == hash
    ensures ReadMark(canon, hs[h].number - n) == AncestorAt(hs, genesis, h, hs[h].number - n)
    ensures OffCanon(hs, genesis, canon, h, n) == n - rest
  {
    hide Tree, MarksPath, AncestorAt;
    MarksBelow(hs, genesis, canon, head, h, hs[hash].number, hs[h].number - n);
  }

  lemma MarkedIsKnown(hs: Headers, genesis: Hash, canon: Markers, head: Hash, i: nat)
    requires Tree(hs, genesis) && head in hs && MarksPath(hs, genesis, canon, head)
    ensures ReadMark(canon, i) == NO_HASH || ReadMark(canon, i) in hs
  {
    if i <= hs[head].number { AncestorIn(hs, genesis, head, i); }
  }
}

/** core/chain_indexer.go: indexing fixed-size sections of a chain that moves meanwhile. */
module ChainIndexers {
  import opened Transactions
  import opened ChainTree

  /** `k` known headers from `h` down by parent hash lead to `base`. */
  ghost predicate Chained(hs: Headers, h: Hash, k: nat, base: Hash)
    decreases k
  {
    if k == 0 then h == base else h in hs && Chained(hs, hs[h].parent, k - 1, base)
  }

  lemma {:induction false} ChainedGrows(hs: Headers, hs': Headers, h: Hash, k: nat, base: Hash)
    requires Extends(hs, hs') && Chained(hs, h, k, base)
    ensures Chained(hs', h, k, base)
    decreases k
  {
    if k > 0 { ChainedGrows(hs, hs', hs[h].parent, k - 1, base); }
  }

  lemma {:induction false} ChainedIsAncestor(hs: Headers, genesis: Hash, h: Hash, k: nat, base: Hash)
    requires Tree(hs, genesis) && h in hs && k <= hs[h].number && Chained(hs, h, k, base)
    ensures base == AncestorAt(hs, genesis, h, hs[h].number - k)
    decreases k
  {
    hide Tree;
    ParentStep(hs, genesis, h);
    if k > 0 { ChainedIsAncestor(hs, genesis, hs[h].parent, k - 1, base); }
  }

  /** The last block of section `i`. */
  function SectionEnd(size: nat, i: nat): nat
    requires size > 0
    ensures SectionEnd(size, i) >= size - 1
  {
    size * i + size - 1
  }

  function HeadBefore(heads: map<nat, Hash>, i: nat): Hash {
    if i > 0 && i - 1 in heads then heads[i - 1] else NO_HASH
  }

  /** Section `i` ends in a known header at the right height that descends from the head of
      the section before by exactly one section. */
  ghost predicate SectionLinked(hs: Headers, size: nat, heads: map<nat, Hash>, i: nat)
    requires size > 0
  {
    && i in heads && heads[i] in hs && hs[heads[i]].number == SectionEnd(size, i)
    && Chained(hs, heads[i], size, HeadBefore(heads, i))
  }

  /** Heads are recorded exactly for the indices below `stored`, each linked to the previous. */
  ghost predicate Recorded(hs: Headers, size: nat, stored: nat, heads: map<nat, Hash>) {
    && size > 0 && Filed(hs)
    && (forall i: nat :: i in heads <==> i < stored)
    && (forall i: nat :: i < stored ==> SectionLinked(hs, size, heads, i))
  }

  /** What other goroutines may do to the index: drop sections from the top. */
  ghost predicate Shrunk(stored: nat, heads: map<nat, Hash>, stored': nat, heads': map<nat, Hash>) {
    stored' <= stored && forall i: nat :: i < stored' ==> i in heads && i in heads' && heads'[i] == heads[i]
  }

  lemma RecordedGrows(hs: Headers, hs': Headers, size: nat, stored: nat, heads: map<nat, Hash>)
    requires Recorded(hs, size, stored, heads) && Extends(hs, hs') && Filed(hs')
    ensures Recorded(hs', size, stored, heads)
  {
    forall i: nat | i < stored ensures SectionLinked(hs', size, heads, i) {
      assert SectionLinked(hs, size, heads, i);
      ChainedGrows(hs, hs', heads[i], size, HeadBefore(heads, i));
    }
  }

  /** Without its last section the record is still one. */
  lemma RecordedLess(hs: Headers, size: nat, stored: nat, heads: map<nat, Hash>)
    requires Recorded(hs, size, stored, heads) && stored > 0
    ensures Recorded(hs, size, stored - 1, heads - {stored - 1})
  {
    hide Chained;
    var heads' := heads - {stored - 1};
    forall i: nat | i < stored - 1 ensures SectionLinked(hs, size, heads', i) {
      assert SectionLinked(hs, size, heads, i);
    }
  }

  lemma RecordedMore(hs: Headers, size: nat, stored: nat, heads: map<nat, Hash>, h: Hash)
    requires Recorded(hs, size, stored, heads)
    requires h in hs && hs[h].number == SectionEnd(size, stored) && Chained(hs, h, size, HeadBefore(heads, stored))
    ensures Recorded(hs, size, stored + 1, heads[stored := h])
  {
    hide Chained;
    var heads' := heads[stored := h];
    forall i: nat | i < stored + 1 ensures SectionLinked(hs, size, heads', i) {
      if i < stored { assert SectionLinked(hs, size, heads, i); }
    }
  }

  /** When the canonical markers are an ancestor path, one canonical section head makes all
      the earlier ones canonical. */
  lemma {:induction false} LastHeadDecides(hs: Headers, genesis: Hash, canon: Markers, head: Hash, size: nat,
                                           stored: nat, heads: map<nat, Hash>, i: nat, j: nat)
    requires Recorded(hs, size, stored, heads) && Tree(hs, genesis) && head in hs && MarksPath(hs, genesis, canon, head)
    requires i <= j < stored && heads[j] == ReadMark(canon, SectionEnd(size, j))
    ensures heads[i] == ReadMark(canon, SectionEnd(size, i))
    decreases j - i
  {
    hide Tree, MarksPath, AncestorAt, Chained;
    if i < j {
      assert SectionLinked(hs, size, heads, j) && SectionLinked(hs, size, heads, j - 1);
      var n := SectionEnd(size, j);
      EndBefore(size, j);
      ChainedIsAncestor(hs, genesis, heads[j], size, heads[j - 1]);
      MarksBelow(hs, genesis, canon, head, heads[j], n,
                 SectionEnd(size, j - 1)) by { AncestorAtSelf(hs, genesis, heads[j]); }
      LastHeadDecides(hs, genesis, canon, head, size, stored, heads, i, j - 1);
    }
  }

  lemma EndBefore(size: nat, j: nat)
    requires size > 0 && j > 0
    ensures SectionEnd(size, j - 1) == SectionEnd(size, j) - size
  {
  }

  /** Writes to the chain database and calls from other goroutines. */
  datatype Event =
    | WriteHeader(header: Header)
    | Mark(number: nat, hash: Hash)
    | Unmark(number: nat)
    | NewHead(head: nat, reorg: bool)
    | CallSections

  /** A point where the lock is not held: what happens there, and whether the backend call
      that follows fails. */
  datatype Point = Point(events: seq<Event>, fault: bool)

  // ---------------------------------------------------------------------
  // What an event does

  /** The indexer and the chain database as a value. */
  datatype Index = Index(headers: Headers, canon: Markers, stored: nat, known: nat, heads: map<nat, Hash>)

  function Kept(heads: map<nat, Hash>, n: nat): map<nat, Hash> {
    map i | i in heads && i < n :: heads[i]
  }

  /** How many sections are left when those at the top that are not canonical go. */
  function Verified(canon: Markers, size: nat, stored: nat, heads: map<nat, Hash>): nat
    requires size > 0
  {
    if stored == 0 || (stored - 1 in heads && heads[stored - 1] == ReadMark(canon, SectionEnd(size, stored - 1)))
    then stored
    else Verified(canon, size, stored - 1, heads)
  }

  function Shorter(x: Index, n: nat): Index {
    x.(stored := n, heads := Kept(x.heads, n))
  }

  function Lower(a: nat, b: nat): nat { if a < b then a else b }

  function Higher(a: nat, b: nat): nat { if a < b then b else a }

  /** One write to the chain database, or one call by another goroutine. */
  function Effect(size: nat, confirms: nat, x: Index, e: Event): Index
    requires size > 0
  {
    match e
    case WriteHeader(h) =>
      if h.hash in x.headers || h.hash == NO_HASH then x else x.(headers := x.headers[h.hash := h])
    case Mark(n, h) => x.(canon := x.canon[n := h])
    case Unmark(n) => x.(canon := x.canon - {n})
    case NewHead(head, true) =>
      Shorter(x, Lower(x.stored, (head + 1) / size)).(known := Lower(x.known, (head + 1) / size))
    case NewHead(head, false) =>
      if head < confirms then x else x.(known := Higher(x.known, (head + 1 - confirms) / size))
    case CallSections => Shorter(x, Verified(x.canon, size, x.stored, x.heads))
  }

  function Effects(size: nat, confirms: nat, x: Index, events: seq<Event>): Index
    requires size > 0
  {
    if events == [] then x
    else Effect(size, confirms, Effects(size, confirms, x, events[..|events| - 1]), events[|events| - 1])
  }

  lemma NextEvent(size: nat, confirms: nat, x: Index, events: seq<Event>, k: nat)
    requires size > 0 && k < |events|
    ensures Effects(size, confirms, x, events[..k + 1]) ==
      Effect(size, confirms, Effects(size, confirms, x, events[..k]), events[k])
  {
    assert events[..k + 1][..k] == events[..k];
  }

  lemma AllKept(hs: Headers, size: nat, stored: nat, heads: map<nat, Hash>)
    requires Recorded(hs, size, stored, heads)
    ensures Kept(heads, stored) == heads
  {
  }

  /** Everything above the verified sections is not canonical. */
  lemma {:induction false} VerifiedIs(canon: Markers, size: nat, stored: nat, heads: map<nat, Hash>, n: nat)
    requires size > 0 && n <= stored
    requires n == 0 || (n - 1 in heads && heads[n - 1] == ReadMark(canon, SectionEnd(size, n - 1)))
    requires forall i: nat :: n <= i < stored ==>
      i in heads && heads[i] != ReadMark(canon, SectionEnd(size, i))
    ensures Verified(canon, size, stored, heads) == n
    decreases stored
  {
    if n < stored { VerifiedIs(canon, size, stored - 1, heads, n); }
  }

  // ---------------------------------------------------------------------
  // Confirmations

  /** The event announces a head that is far enough above section `i`. */
  predicate Confirms(size: nat, confirms: nat, e: Event, i: nat)
    requires size > 0
  {
    e.NewHead? && !e.reorg && SectionEnd(size, i) + confirms <= e.head
  }

  lemma ConfirmsIs(size: nat, confirms: nat, e: Event)
    requires size > 0
    ensures forall i: nat :: Confirms(size, confirms, e, i) <==>
      e.NewHead? && !e.reorg && SectionEnd(size, i) + confirms <= e.head
  {
  }

  ghost predicate ConfirmedIn(size: nat, confirms: nat, events: seq<Event>, i: nat)
    requires size > 0
  {
    exists k :: 0 <= k < |events| && Confirms(size, confirms, events[k], i)
  }

  function EventsAt(schedule: seq<Point>, p: nat): seq<Event> {
    if p < |schedule| then schedule[p].events else []
  }

  /** Section `i` is confirmed at one of the first `n` points. */
  ghost predicate ConfirmedBy(size: nat, confirms: nat, schedule: seq<Point>, n: nat, i: nat)
    requires size > 0
  {
    exists p: nat :: p < n && ConfirmedIn(size, confirms, EventsAt(schedule, p), i)
  }

  /** Every known section was known before or is confirmed at one of the first `n` points. */
  ghost predicate KnownBy(size: nat, confirms: nat, known0: nat, known: nat, schedule: seq<Point>, n: nat)
    requires size > 0
  {
    forall i: nat :: i < known ==> i < known0 || ConfirmedBy(size, confirms, schedule, n, i)
  }

  lemma KnownAlready(size: nat, confirms: nat, known: nat, schedule: seq<Point>)
    requires size > 0
    ensures KnownBy(size, confirms, known, known, schedule, 0)
  {
  }

  lemma KnownLess(size: nat, confirms: nat, known0: nat, known: nat, schedule: seq<Point>, n: nat)
    requires size > 0 && known <= known0
    ensures KnownBy(size, confirms, known0, known, schedule, n)
  {
  }

  lemma KnownNext(size: nat, confirms: nat, known0: nat, known: nat, known': nat, schedule: seq<Point>, p: nat)
    requires size > 0 && KnownBy(size, confirms, known0, known, schedule, p)
    requires KnownIn(size, confirms, known, known', EventsAt(schedule, p))
    ensures KnownBy(size, confirms, known0, known', schedule, p + 1)
  {
    hide ConfirmedIn;
    var n := p + 1;
    forall i: nat | i < known' && i >= known0 ensures ConfirmedBy(size, confirms, schedule, n, i) {
      if i < known {
        assert ConfirmedBy(size, confirms, schedule, p, i);
      } else {
        assert ConfirmedIn(size, confirms, EventsAt(schedule, p), i);
      }
    }
  }

  lemma KnownMore(size: nat, confirms: nat, known0: nat, known: nat, schedule: seq<Point>, n: nat, m: nat)
    requires size > 0 && KnownBy(size, confirms, known0, known, schedule, n) && n <= m
    ensures KnownBy(size, confirms, known0, known, schedule, m)
  {
    hide ConfirmedIn;
    forall i: nat | i < known && i >= known0 ensures ConfirmedBy(size, confirms, schedule, m, i) {
      assert ConfirmedBy(size, confirms, schedule, n, i);
    }
  }

  ghost predicate KnownIn(size: nat, confirms: nat, known0: nat, known: nat, events: seq<Event>)
    requires size > 0
  {
    forall i: nat :: i < known ==> i < known0 || ConfirmedIn(size, confirms, events, i)
  }

  lemma KnownStep(size: nat, confirms: nat, known0: nat, known: nat, known': nat, events: seq<Event>, k: nat)
    requires size > 0 && k < |events| && KnownIn(size, confirms, known0, known, events[..k])
    requires known' <= known || forall i: nat :: i < known' ==> i < known || Confirms(size, confirms, events[k], i)
    ensures KnownIn(size, confirms, known0, known', events[..k + 1])
  {
    hide ConfirmedIn, Confirms;
    OneMoreEvent(size, confirms, events, k);
    var t := events[..k + 1];
    forall i: nat | known0 <= i < known' ensures ConfirmedIn(size, confirms, t, i) {
      if i < known {
        assert ConfirmedIn(size, confirms, events[..k], i);
      } else {
        assert Confirms(size, confirms, events[k], i);
      }
    }
  }

  lemma OneMoreEvent(size: nat, confirms: nat, events: seq<Event>, k: nat)
    requires size > 0 && k < |events|
    ensures forall i: nat :: ConfirmedIn(size, confirms, events[..k + 1], i) <==>
      ConfirmedIn(size, confirms, events[..k], i) || Confirms(size, confirms, events[k], i)
    ensures events[..|events|] == events
  {
    hide Confirms;
    var s, t := events[..k], events[..k + 1];
    assert t == s + [events[k]];
    forall i: nat ensures ConfirmedIn(size, confirms, t, i) <==>
      ConfirmedIn(size, confirms, s, i) || Confirms(size, confirms, events[k], i)
    {
      if ConfirmedIn(size, confirms, s, i) {
        var j :| 0 <= j < |s| && Confirms(size, confirms, s[j], i);
        assert Confirms(size, confirms, t[j], i);
      }
      if Confirms(size, confirms, events[k], i) { assert Confirms(size, confirms, t[k], i); }
    }
  }

  /** The points of processSection at which a backend call may fail: Reset, one Process for each
      block, Commit. */
  predicate BackendCall(size: nat, p: nat) {
    p == 0 || (3 <= p <= 3 * size && p % 3 == 0) || p == 3 * size + 1
  }

  lemma BackendCallsAre(size: nat, p: nat)
    ensures BackendCall(size, p) <==> p == 0 || p == 3 * size + 1 || exists k: nat :: k < size && p == 3 * k + 3
  {
    if BackendCall(size, p) && p != 0 && p != 3 * size + 1 {
      var k: nat := p / 3 - 1;
      assert k < size && p == 3 * k + 3;
    }
  }

  predicate FaultAt(schedule: seq<Point>, p: nat) {
    p < |schedule| && schedule[p].fault
  }

  lemma CallsBetween(size: nat, k: nat)
    requires k < size
    ensures forall q: nat :: 3 * k + 1 <= q < 3 * k + 4 && BackendCall(size, q) ==> q == 3 * k + 3
  {
  }

  /** All points of processSection. */
  function PointsOf(size: nat): nat { 3 * size + 2 }

  class ChainIndexer {
    const size: Size
    const confirms: nat
    var headers: Headers
    var canon: Markers
    var stored: nat
    var known: nat
    var heads: map<nat, Hash>

    ghost predicate Valid()
      reads this
    {
      Recorded(headers, size, stored, heads)
    }

    function Now(): Index
      reads this
    {
      Index(headers, canon, stored, known, heads)
    }

    constructor (sectionSize: nat, confirmations: nat)
      requires sectionSize > 0
      ensures Valid() && stored == known == 0 && size == sectionSize && confirms == confirmations
      ensures headers == map[] && canon == map[]
    {
      size, confirms := sectionSize, confirmations;
      headers, canon, stored, known, heads := map[], map[], 0, 0, map[];
    }

    /** setValidSections downwards */
    method SetValidSections(sections: nat)
      requires Valid() && sections <= stored
      modifies this`stored, this`heads
      ensures Valid() && stored == sections && Shrunk(old(stored), old(heads), stored, heads)
      ensures heads == Kept(old(heads), sections)
    {
      hide SectionLinked;
      AllKept(headers, size, stored, heads);
      while stored > sections
        invariant Valid() && sections <= stored && Shrunk(old(stored), old(heads), stored, heads)
        invariant heads == Kept(old(heads), stored)
      {
        RecordedLess(headers, size, stored, heads);
        stored := stored - 1;
        heads := heads - {stored};
      }
    }

    /** newHead: after a reorganisation to `head` no section reaching above it is left. */
    method HandleNewHead(head: nat, reorg: bool)
      requires Valid()
      modifies this`stored, this`known, this`heads
      ensures Valid() && Shrunk(old(stored), old(heads), stored, heads)
      ensures !reorg ==> stored == old(stored) && heads == old(heads)
      ensures !reorg ==> forall i: nat :: i < known <==> i < old(known) || SectionEnd(size, i) + confirms <= head
      ensures reorg ==> forall i: nat :: i < stored <==> i < old(stored) && SectionEnd(size, i) <= head
      ensures reorg ==> forall i: nat :: i < known <==> i < old(known) && SectionEnd(size, i) <= head
      ensures if reorg then known <= old(known) else known >= old(known)
      ensures Now() == Effect(size, confirms, old(Now()), NewHead(head, reorg))
    {
      hide SectionLinked;
      AllKept(headers, size, stored, heads);
      if reorg {
        var complete := Complete(head + 1);
        if complete < known {
          known := complete;
        }
        if complete < stored {
          SetValidSections(complete);
        }
      } else if head >= confirms {
        var sections := Complete(head + 1 - confirms);
        if sections > known {
          known := sections;
        }
      }
    }

    /** The number of whole sections in the first `n` blocks. */
    method Complete(n: nat) returns (k: nat)
      requires Valid()
      ensures k == n / size && forall i: nat :: i < k <==> SectionEnd(size, i) < n
    {
      k := n / size;
      forall i: nat ensures i < k <==> SectionEnd(size, i) < n {
        SectionCount(size, n, i);
      }
    }

    /** verifyLastHead: drops sections from the top until a canonical one is found. */
    method VerifyLastHead()
      requires Valid()
      modifies this`stored, this`heads
      ensures Valid() && Shrunk(old(stored), old(heads), stored, heads)
      ensures stored > 0 ==> heads[stored - 1] == ReadMark(canon, SectionEnd(size, stored - 1))
      ensures forall i: nat :: stored <= i < old(stored) ==>
        i in old(heads) && old(heads)[i] != ReadMark(canon, SectionEnd(size, i))
      ensures Now() == Shorter(old(Now()), Verified(canon, size, old(stored), old(heads)))
    {
      hide SectionLinked, Verified;
      AllKept(headers, size, stored, heads);
      while stored > 0
        invariant Valid() && Shrunk(old(stored), old(heads), stored, heads) && heads == Kept(old(heads), stored)
        invariant forall i: nat :: stored <= i < old(stored) ==> old(heads)[i] != ReadMark(canon, SectionEnd(size, i))
      {
        if heads[stored - 1] == ReadMark(canon, SectionEnd(size, stored - 1)) {
          VerifiedIs(canon, size, old(stored), old(heads), stored);
          return;
        }
        SetValidSections(stored - 1);
      }
      VerifiedIs(canon, size, old(stored), old(heads), 0);
    }

    /** Sections, as seen by a caller while the markers are an ancestor path: exactly the
        canonical ones among the recorded sections are left. */
    method Sections(ghost genesis: Hash, ghost head: Hash) returns (count: nat, lastHead: Hash)
      requires Valid()
      modifies this`stored, this`heads
      ensures Valid() && Shrunk(old(stored), old(heads), stored, heads) && count == stored
        && lastHead == HeadBefore(heads, stored)
      ensures Tree(headers, genesis) && head in headers && MarksPath(headers, genesis, canon, head) ==>
        forall i: nat :: i < old(stored) ==>
          i in old(heads) && (i < stored <==> old(heads)[i] == ReadMark(canon, SectionEnd(size, i)))
    {
      hide SectionLinked, Tree, MarksPath;
      VerifyLastHead();
      if Tree(headers, genesis) && head in headers && MarksPath(headers, genesis, canon, head) {
        forall i: nat | i < stored ensures heads[i] == ReadMark(canon, SectionEnd(size, i)) {
          LastHeadDecides(headers, genesis, canon, head, size, stored, heads, i, stored - 1);
        }
      }
      count, lastHead := stored, if stored > 0 then heads[stored - 1] else NO_HASH;
    }

    /** One write to the chain database, or one call by another goroutine. */
    method Handle(e: Event)
      requires Valid()
      modifies this
      ensures Valid() && Extends(old(headers), headers) && Shrunk(old(stored), old(heads), stored, heads)
      ensures headers == if e.WriteHeader? && e.header.hash !in old(headers) && e.header.hash != NO_HASH
                         then old(headers)[e.header.hash := e.header] else old(headers)
      ensures canon == match e
        case Mark(n, h) => old(canon)[n := h]
        case Unmark(n) => old(canon) - {n}
        case _ => old(canon)
      ensures if e.NewHead? && e.reorg then known <= old(known) else known >= old(known)
      ensures e.NewHead? && e.reorg ==> forall i: nat :: i < known <==> i < old(known) && SectionEnd(size, i) <= e.head
      ensures !(e.NewHead? && e.reorg) ==>
        forall i: nat :: i < known <==> (i < old(known) || Confirms(size, confirms, e, i))
      ensures Now() == Effect(size, confirms, old(Now()), e)
      ensures !e.NewHead? && !e.CallSections? ==> stored == old(stored)
      ensures e.NewHead? ==> forall i: nat :: i < stored <==>
        i < old(stored) && (e.reorg ==> SectionEnd(size, i) <= e.head)
    {
      hide SectionLinked, Confirms, SectionEnd;
      ConfirmsIs(size, confirms, e);
      match e {
        case WriteHeader(x) =>
          if x.hash !in headers && x.hash != NO_HASH {
            RecordedGrows(headers, headers[x.hash := x], size, stored, heads);
            headers := headers[x.hash := x];
          }
        case Mark(n, h) =>
          canon := canon[n := h];
        case Unmark(n) =>
          canon := canon - {n};
        case NewHead(head, reorg) =>
          HandleNewHead(head, reorg);
        case CallSections =>
          VerifyLastHead();
      }
    }

    /** The unlocked point `p` of the schedule; past its end nothing happens. */
    method Disturb(schedule: seq<Point>, p: nat) returns (fault: bool)
      requires Valid()
      modifies this
      ensures Valid() && Extends(old(headers), headers) && Shrunk(old(stored), old(heads), stored, heads)
      ensures schedule == [] ==>
        headers == old(headers) && canon == old(canon) && stored == old(stored) && heads == old(heads)
        && known == old(known)
      ensures fault == FaultAt(schedule, p)
      ensures KnownIn(size, confirms, old(known), known, EventsAt(schedule, p))
      ensures Now() == Effects(size, confirms, old(Now()), EventsAt(schedule, p))
    {
      hide Recorded, Extends, Shrunk, Confirms, SectionEnd, Effect;
      fault := false;
      NothingYet(headers, size, stored, heads);
      if p < |schedule| {
        for k := 0 to |schedule[p].events|
          invariant Valid() && Extends(old(headers), headers) && Shrunk(old(stored), old(heads), stored, heads)
          invariant KnownIn(size, confirms, old(known), known, schedule[p].events[..k])
          invariant Now() == Effects(size, confirms, old(Now()), schedule[p].events[..k])
        {
          ghost var hs, s, hd := headers, stored, heads;
          ghost var kn := known;
          NextEvent(size, confirms, old(Now()), schedule[p].events, k);
          Handle(schedule[p].events[k]);
          KnownStep(size, confirms, old(known), kn, known, schedule[p].events, k);
          Onward(old(headers), hs, headers, old(stored), old(heads), s, hd, stored, heads);
        }
        assert schedule[p].events[..|schedule[p].events|] == schedule[p].events;
        fault := schedule[p].fault;
      }
    }

    /** processSection under any interference: a head it returns ends a run of exactly one
        section of known headers, at the right heights, on top of `oldHead`. Undisturbed, it
        succeeds on every section that is there to read, and ends at its canonical head. */
    method ProcessSection(section: nat, oldHead: Hash, schedule: seq<Point>) returns (newHead: Hash, ok: bool)
      requires Valid() && section == stored && oldHead == HeadBefore(heads, section)
      modifies this
      ensures Valid() && Extends(old(headers), headers) && Shrunk(old(stored), old(heads), stored, heads)
      ensures ok ==>
        newHead in headers && headers[newHead].number == SectionEnd(size, section)
          && Chained(headers, newHead, size, oldHead)
      ensures schedule == [] ==>
        && (ok <==> Readable(old(headers), old(canon), size, section, oldHead))
        && (ok ==> newHead == ReadMark(old(canon), SectionEnd(size, section)))
        && headers == old(headers) && canon == old(canon) && stored == old(stored) && heads == old(heads)
        && known == old(known)
      ensures forall q: nat :: BackendCall(size, q) && FaultAt(schedule, q) ==> !ok
      ensures FaultAt(schedule, 0) ==> stored == 0
      ensures KnownBy(size, confirms, old(known), known, schedule, PointsOf(size))
    {
      hide Recorded, Extends, Shrunk, Chained, ReadHeader, ReadableAt, KnownBy, ConfirmedIn;
      KnownAlready(size, confirms, known, schedule);
      NothingYet(headers, size, stored, heads);
      var fault := Disturb(schedule, 0);
      KnownNext(size, confirms, old(known), old(known), known, schedule, 0);
      KnownMore(size, confirms, old(known), known, schedule, 1, PointsOf(size));
      if fault {
        ghost var hs, s, hd := headers, stored, heads;
        SetValidSections(0);
        Onward(old(headers), hs, headers, old(stored), old(heads), s, hd, stored, heads);
        return NO_HASH, false;
      }
      var lastHead := oldHead;
      var k, p := 0, 1;
      ChainedStart(headers, oldHead);
      while k < size
        invariant 0 <= k <= size && p == 3 * k + 1 && (k == 0 ==> lastHead == oldHead)
        invariant Valid() && Extends(old(headers), headers) && Shrunk(old(stored), old(heads), stored, heads)
        invariant Chained(headers, lastHead, k, oldHead)
        invariant k > 0 ==> lastHead in headers && headers[lastHead].number == size * section + k - 1
        invariant KnownBy(size, confirms, old(known), known, schedule, p)
        invariant forall q: nat :: q < p && BackendCall(size, q) ==> !FaultAt(schedule, q)
        invariant schedule == [] ==>
          headers == old(headers) && canon == old(canon) && stored == old(stored) && heads == old(heads)
          && known == old(known)
        invariant schedule == [] ==>
          forall j: nat :: j < k ==> ReadableAt(old(headers), old(canon), size * section, j, oldHead)
        invariant schedule == [] && k > 0 ==> lastHead == ReadMark(old(canon), size * section + k - 1)
      {
        CallsBetween(size, k);
        var hash, read := ReadBlock(section, k, p, lastHead, schedule, oldHead, old(headers), old(stored), old(heads),
                                    old(known));
        if !read {
          KnownMore(size, confirms, old(known), known, schedule, p + 3, PointsOf(size));
          return NO_HASH, false;
        }
        lastHead := hash;
        k, p := k + 1, p + 3;
      }
      fault := Pass(schedule, p, lastHead, k, oldHead, old(headers), old(stored), old(heads), old(known));
      if fault {
        assert FaultAt(schedule, 3 * size + 1);
        return NO_HASH, false;
      }
      return lastHead, true;
    }

    /** One block of the section: its marker and header are read and it is handed to the
        backend, with an unlocked point before each. */
    method ReadBlock(section: nat, k: nat, p: nat, lastHead: Hash, schedule: seq<Point>, ghost base: Hash,
                     ghost hs0: Headers, ghost stored0: nat, ghost heads0: map<nat, Hash>, ghost known0: nat)
      returns (hash: Hash, ok: bool)
      requires Valid() && Extends(hs0, headers) && Shrunk(stored0, heads0, stored, heads)
      requires Chained(headers, lastHead, k, base) && (k == 0 ==> lastHead == base)
      requires KnownBy(size, confirms, known0, known, schedule, p)
      modifies this
      ensures Valid() && Extends(hs0, headers) && Shrunk(stored0, heads0, stored, heads)
      ensures KnownBy(size, confirms, known0, known, schedule, p + 3)
      ensures ok ==>
        hash in headers && headers[hash].number == size * section + k && Chained(headers, hash, k + 1, base)
      ensures ok ==> !FaultAt(schedule, p + 2)
      ensures schedule == [] ==>
        headers == old(headers) && canon == old(canon) && stored == old(stored) && heads == old(heads)
        && known == old(known)
      ensures schedule == [] && (k > 0 ==> lastHead == ReadMark(canon, size * section + k - 1)) ==>
        && (ok <==> ReadableAt(headers, canon, size * section, k, base))
        && (ok ==> hash == ReadMark(canon, size * section + k))
    {
      hide Recorded, Extends, Shrunk, Chained, KnownBy;
      var fault := Pass(schedule, p, lastHead, k, base, hs0, stored0, heads0, known0);
      hash := ReadMark(canon, size * section + k);
      if hash == NO_HASH {
        KnownMore(size, confirms, known0, known, schedule, p + 1, p + 3);
        return NO_HASH, false;
      }
      fault := Pass(schedule, p + 1, lastHead, k, base, hs0, stored0, heads0, known0);
      var header := ReadHeader(headers, hash, size * section + k);
      if header.None? || header.value.parent != lastHead {
        KnownMore(size, confirms, known0, known, schedule, p + 2, p + 3);
        return NO_HASH, false;
      }
      Found(headers, hash, size * section + k);
      fault := Pass(schedule, p + 2, lastHead, k, base, hs0, stored0, heads0, known0);
      if fault {
        return NO_HASH, false;
      }
      ChainedStep(headers, hash, k, lastHead, base);
      ok := true;
    }

    /** An unlocked point inside processSection: what has been seen so far stays true. */
    method Pass(schedule: seq<Point>, p: nat, ghost h: Hash, ghost k: nat, ghost base: Hash, ghost hs0: Headers,
                ghost stored0: nat, ghost heads0: map<nat, Hash>, ghost known0: nat)
      returns (fault: bool)
      requires Valid() && Extends(hs0, headers) && Shrunk(stored0, heads0, stored, heads)
        && Chained(headers, h, k, base)
      requires KnownBy(size, confirms, known0, known, schedule, p)
      modifies this
      ensures Valid() && Extends(hs0, headers) && Shrunk(stored0, heads0, stored, heads) && Chained(headers, h, k, base)
      ensures KnownBy(size, confirms, known0, known, schedule, p + 1) && fault == FaultAt(schedule, p)
      ensures forall x :: x in old(headers) ==> x in headers && headers[x] == old(headers)[x]
      ensures schedule == [] ==>
        headers == old(headers) && canon == old(canon) && stored == old(stored) && heads == old(heads)
        && known == old(known)
    {
      hide Recorded, Shrunk, Chained, KnownBy, ConfirmedIn;
      ghost var hs, s, hd, kn := headers, stored, heads, known;
      fault := Disturb(schedule, p);
      Onward(hs0, hs, headers, stored0, heads0, s, hd, stored, heads);
      ChainedGrows(hs, headers, h, k, base);
      KnownNext(size, confirms, known0, kn, known, schedule, p);
    }

    /** The next section is processed without the lock and recorded if the head below it is still
        there; otherwise the index shrinks to a canonical last head and nothing beyond it counts
        as known. */
    method AddSection(schedule: seq<Point>) returns (added: bool)
      requires Valid() && known > stored
      modifies this
      ensures Valid() && Extends(old(headers), headers)
      ensures KnownBy(size, confirms, old(known), known, schedule, PointsOf(size))
      ensures added ==> stored == old(stored) + 1 && Shrunk(old(stored), old(heads), stored - 1, heads - {stored - 1})
      ensures !added ==>
        Shrunk(old(stored), old(heads), stored, heads) && known == stored
        && (stored > 0 ==> heads[stored - 1] == ReadMark(canon, SectionEnd(size, stored - 1)))
      ensures schedule == [] ==>
        && canon == old(canon) && (added ==> known == old(known))
        && (added <==> Readable(old(headers), old(canon), size, old(stored), HeadBefore(old(heads), old(stored))))
        && (added ==> heads[stored - 1] == ReadMark(canon, SectionEnd(size, stored - 1)))
    {
      hide Recorded, SectionLinked, Extends, Chained, Readable, SectionEnd, KnownBy, Kept, Verified, Shorter,
           ChainIndexer.Now, BackendCall, FaultAt;
      NothingYet(headers, size, stored, heads);
      var section := stored;
      var oldHead := if section > 0 then heads[section - 1] else NO_HASH;
      var newHead, ok := ProcessSection(section, oldHead, schedule);
      added := ok && (section == 0 || oldHead == HeadBefore(heads, section));
      if added {
        StillThere(headers, size, old(stored), old(heads), stored, heads, section, oldHead);
        NothingYet(headers, size, stored, heads);
        RecordedMore(headers, size, stored, heads, newHead);
        SameWithout(stored, heads, newHead);
        heads := heads[section := newHead];
        stored := section + 1;
      } else {
        ghost var hs, s, hd := headers, stored, heads;
        VerifyLastHead();
        Onward(old(headers), hs, headers, old(stored), old(heads), s, hd, stored, heads);
        known := stored;
        KnownLess(size, confirms, old(known), known, schedule, PointsOf(size));
      }
    }

    /** One round of updateLoop: it adds one section on top of those still recorded, or the
        index shrinks to a canonical last head and waits for the next notification. Without
        interference, while the markers are the path of `head` and cover the section, it adds
        one, and its head is canonical. */
    method Update(schedule: seq<Point>, ghost genesis: Hash, ghost head: Hash) returns (added: bool)
      requires Valid()
      modifies this
      ensures Valid() && Extends(old(headers), headers)
      ensures added ==> stored > 0 && Shrunk(old(stored), old(heads), stored - 1, heads - {stored - 1})
      ensures added ==> stored - 1 < old(known)
      ensures old(known) <= old(stored) ==>
        !added && stored == old(stored) && known == old(known) && heads == old(heads) && canon == old(canon)
        && headers == old(headers)
      ensures KnownBy(size, confirms, old(known), known, schedule, PointsOf(size))
      ensures schedule == [] && added ==>
        heads[stored - 1] == ReadMark(canon, SectionEnd(size, stored - 1)) && known == old(known)
      ensures !added ==> Shrunk(old(stored), old(heads), stored, heads)
      ensures (schedule == [] && old(known) > old(stored)
               && Settled(old(headers), genesis, old(canon), head, SectionEnd(size, old(stored)))) ==>
        added && canon == old(canon)
      ensures !added && old(known) > old(stored) ==>
        known == stored && (stored > 0 ==> heads[stored - 1] == ReadMark(canon, SectionEnd(size, stored - 1)))
    {
      hide Recorded, SectionLinked, Extends, Chained, Settled, Readable, SectionEnd, KnownBy, Kept, Verified, Shorter,
           ChainIndexer.Now, Shrunk;
      added := false;
      KnownLess(size, confirms, known, known, schedule, PointsOf(size));
      NothingYet(headers, size, stored, heads);
      if known > stored {
        VerifyLastHead();
        ghost var s, hd := stored, heads;
        NothingYet(headers, size, stored, heads);
        Dropped(old(stored), old(heads), stored, heads);
        if Settled(headers, genesis, canon, head, SectionEnd(size, old(stored))) {
          SettledIsReadable(headers, genesis, canon, head, size, old(stored), stored, heads);
        }
        added := AddSection(schedule);
        ghost var below, left := if added then stored - 1 else stored, if added then heads - {stored - 1} else heads;
        Onward(old(headers), old(headers), headers, old(stored), old(heads), s, hd, below, left);
      }
    }

    /** Any run: updates and events in any order. Every section recorded or known at the end was
        so at the start, or some head announced during the run confirmed it. */
    method Run(script: seq<Action>)
      requires Valid()
      modifies this
      ensures Valid() && Extends(old(headers), headers)
      ensures forall i: nat :: i < stored || i < known ==>
        i < old(stored) || i < old(known) || ConfirmedDuring(size, confirms, script, |script|, i)
    {
      hide Recorded, Extends, Shrunk, KnownBy, Confirms, ConfirmedAt, ConfirmedDuring, SectionEnd;
      NothingYet(headers, size, stored, heads);
      for j := 0 to |script|
        invariant Valid() && Extends(old(headers), headers)
        invariant AllConfirmed(size, confirms, old(stored), old(known), script, j, stored, known)
      {
        ghost var hs, s, hd, kn := headers, stored, heads, known;
        match script[j] {
          case Happens(e) =>
            Handle(e);
            Dropped(s, hd, stored, heads);
            HappensConfirms(size, confirms, e);
          case Updates(schedule) =>
            var added := Update(schedule, NO_HASH, NO_HASH);
            UpdatesConfirm(size, confirms, kn, known, schedule);
            Dropped(s, hd, if added then stored - 1 else stored, if added then heads - {stored - 1} else heads);
        }
        ConfirmedStep(size, confirms, script, j, old(stored), old(known), s, kn, stored, known);
        ExtendsTrans(old(headers), hs, headers);
      }
    }
  }

  /** Block `base + k` can be read, on top of the one before it in the section. */
  ghost predicate ReadableAt(hs: Headers, canon: Markers, base: nat, k: nat, oldHead: Hash) {
    var h := ReadMark(canon, base + k);
    && h != NO_HASH && ReadHeader(hs, h, base + k).Some?
    && ReadHeader(hs, h, base + k).value.parent == if k == 0 then oldHead else ReadMark(canon, base + k - 1)
  }

  ghost predicate Readable(hs: Headers, canon: Markers, size: nat, section: nat, oldHead: Hash) {
    forall k: nat :: k < size ==> ReadableAt(hs, canon, size * section, k, oldHead)
  }

  /** The markers are the path of `head`, which reaches height `n`. */
  ghost predicate Settled(hs: Headers, genesis: Hash, canon: Markers, head: Hash, n: nat) {
    && Tree(hs, genesis) && hs[genesis].parent == NO_HASH && head in hs && MarksPath(hs, genesis, canon, head)
       && n <= hs[head].number
  }

  lemma SettledIsReadable(hs: Headers, genesis: Hash, canon: Markers, head: Hash, size: nat, top: nat, section: nat,
                          heads: map<nat, Hash>)
    requires size > 0 && section <= top && Settled(hs, genesis, canon, head, SectionEnd(size, top))
    requires section > 0 ==>
      section - 1 in heads && heads[section - 1] == ReadMark(canon, SectionEnd(size, section - 1))
    ensures Readable(hs, canon, size, section, HeadBefore(heads, section))
  {
    hide Tree, MarksPath, AncestorAt;
    var base := size * section;
    assert size * section + size <= size * top + size by { Times(size, section, top); }
    forall k: nat | k < size ensures ReadableAt(hs, canon, base, k, HeadBefore(heads, section)) {
      MarkReads(hs, genesis, canon, head, base + k);
      if k == 0 && section > 0 { EndBefore(size, section); }
      if k == 0 && section == 0 { ZeroIsGenesis(hs, genesis, canon, head); }
    }
  }

  lemma MarkReads(hs: Headers, genesis: Hash, canon: Markers, head: Hash, n: nat)
    requires Tree(hs, genesis) && head in hs && MarksPath(hs, genesis, canon, head) && n <= hs[head].number
    ensures var h := ReadMark(canon, n);
      h in hs && h != NO_HASH && hs[h].number == n && (n > 0 ==> hs[h].parent == ReadMark(canon, n - 1))
  {
    hide AncestorAt;
    AncestorIn(hs, genesis, head, n);
    if n > 0 { AncestorParent(hs, genesis, head, n); }
  }

  lemma ZeroIsGenesis(hs: Headers, genesis: Hash, canon: Markers, head: Hash)
    requires Tree(hs, genesis) && head in hs && MarksPath(hs, genesis, canon, head)
    ensures ReadMark(canon, 0) == genesis
  {
    hide Tree, AncestorAt;
    AncestorAtZero(hs, genesis, head);
  }

  lemma Found(hs: Headers, h: Hash, n: nat)
    requires ReadHeader(hs, h, n).Some?
    ensures h in hs && hs[h].number == n && hs[h] == ReadHeader(hs, h, n).value
  {
  }

  datatype Action = Happens(event: Event) | Updates(schedule: seq<Point>)

  ghost predicate ConfirmedAt(size: nat, confirms: nat, a: Action, i: nat)
    requires size > 0
  {
    match a
    case Happens(e) => Confirms(size, confirms, e, i)
    case Updates(schedule) => ConfirmedBy(size, confirms, schedule, PointsOf(size), i)
  }

  /** A head announced in one of the first `n` actions confirms section `i`. */
  ghost predicate ConfirmedDuring(size: nat, confirms: nat, script: seq<Action>, n: nat, i: nat)
    requires size > 0
  {
    exists j :: 0 <= j < n && j < |script| && ConfirmedAt(size, confirms, script[j], i)
  }

  ghost predicate AllConfirmed(size: nat, confirms: nat, stored0: nat, known0: nat, script: seq<Action>, n: nat,
                               stored: nat, known: nat)
    requires size > 0
  {
    forall i: nat :: i < stored || i < known ==>
      i < stored0 || i < known0 || ConfirmedDuring(size, confirms, script, n, i)
  }

  lemma ConfirmedStep(size: nat, confirms: nat, script: seq<Action>, n: nat, stored0: nat, known0: nat, stored: nat,
                      known: nat, stored': nat, known': nat)
    requires size > 0 && n < |script| && AllConfirmed(size, confirms, stored0, known0, script, n, stored, known)
    requires stored' <= stored || stored' <= known
    requires forall i: nat :: i < known' ==> i < known || ConfirmedAt(size, confirms, script[n], i)
    ensures AllConfirmed(size, confirms, stored0, known0, script, n + 1, stored', known')
  {
    hide ConfirmedAt;
    var m := n + 1;
    forall i: nat | (i < stored' || i < known') && i >= stored0 && i >= known0
      ensures ConfirmedDuring(size, confirms, script, m, i)
    {
      if i < stored || i < known {
        assert ConfirmedDuring(size, confirms, script, n, i);
      } else {
        assert ConfirmedAt(size, confirms, script[n], i);
      }
    }
  }

  lemma HappensConfirms(size: nat, confirms: nat, e: Event)
    requires size > 0
    ensures forall i: nat :: ConfirmedAt(size, confirms, Happens(e), i) <==> Confirms(size, confirms, e, i)
  {
  }

  lemma UpdatesConfirm(size: nat, confirms: nat, known: nat, known': nat, schedule: seq<Point>)
    requires size > 0 && KnownBy(size, confirms, known, known', schedule, PointsOf(size))
    ensures forall i: nat :: i < known' ==> i < known || ConfirmedAt(size, confirms, Updates(schedule), i)
  {
    hide ConfirmedBy;
    forall i: nat | known <= i < known' ensures ConfirmedAt(size, confirms, Updates(schedule), i) {
      assert ConfirmedBy(size, confirms, schedule, PointsOf(size), i);
    }
  }

  lemma Dropped(stored: nat, heads: map<nat, Hash>, stored': nat, heads': map<nat, Hash>)
    requires Shrunk(stored, heads, stored', heads')
    ensures stored' <= stored
  {
  }

  lemma NothingYet(hs: Headers, size: nat, stored: nat, heads: map<nat, Hash>)
    requires Recorded(hs, size, stored, heads)
    ensures size > 0 && Extends(hs, hs) && Shrunk(stored, heads, stored, heads)
    ensures stored > 0 ==> stored - 1 in heads && heads[stored - 1] != NO_HASH
    ensures stored !in heads
  {
    if stored > 0 { assert SectionLinked(hs, size, heads, stored - 1); }
  }

  lemma ExtendsTrans(a: Headers, b: Headers, c: Headers)
    requires Extends(a, b) && Extends(b, c)
    ensures Extends(a, c)
  {
  }

  lemma Onward(a: Headers, b: Headers, c: Headers, s0: nat, h0: map<nat, Hash>, s1: nat, h1: map<nat, Hash>, s2: nat,
               h2: map<nat, Hash>)
    requires Extends(a, b) && Extends(b, c) && Shrunk(s0, h0, s1, h1) && Shrunk(s1, h1, s2, h2)
    ensures Extends(a, c) && Shrunk(s0, h0, s2, h2)
  {
  }

  lemma ChainedStart(hs: Headers, base: Hash)
    ensures Chained(hs, base, 0, base)
  {
  }

  lemma ChainedStep(hs: Headers, h: Hash, k: nat, prev: Hash, base: Hash)
    requires h in hs && hs[h].parent == prev && Chained(hs, prev, k, base)
    ensures Chained(hs, h, k + 1, base)
  {
  }

  /** If the head of the previous section is still recorded, nothing was dropped. */
  lemma StillThere(hs: Headers, size: nat, s: nat, hd: map<nat, Hash>, stored: nat, heads: map<nat, Hash>, section: nat,
                   oldHead: Hash)
    requires Recorded(hs, size, stored, heads) && Shrunk(s, hd, stored, heads) && s == section
    requires section == 0 || (oldHead != NO_HASH && oldHead == HeadBefore(heads, section))
    ensures stored == section
  {
    hide SectionLinked;
  }

  lemma SameWithout(stored: nat, heads: map<nat, Hash>, h: Hash)
    requires stored !in heads
    ensures heads[stored := h] - {stored} == heads
  {
  }

  lemma SectionCount(size: nat, n: nat, i: nat)
    requires size > 0
    ensures i < n / size <==> SectionEnd(size, i) < n
  {
    var k := n / size;
    assert n == size * k + n % size;
    if i < k { Times(size, i + 1, k); } else { Times(size, k, i); }
  }

  lemma Times(size: nat, a: nat, b: nat)
    requires a <= b
    ensures size * a <= size * b
  {
  }
}

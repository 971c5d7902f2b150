/** The fairness argument behind truncatePending of core/tx_pool.go: which accounts lose how
    many pending transactions when the pool is over its limit. */
module PoolTruncate {
  import opened Transactions
  import opened PoolBooks

  function Len(ls: Accounts, a: Address): nat { |ItemsOf(ls, a)| }

  /** The list lost its highest nonce. */
  ghost predicate OneLess(m: Items, m': Items) {
    |m| > 0 && LowestOf(m', m, |m| - 1)
  }

  /** Every list is what was left of it after dropping some of its highest nonces. */
  ghost predicate OnlyTops(ls: Accounts, ls': Accounts) {
    forall a: Address :: LowestOf(ItemsOf(ls', a), ItemsOf(ls, a), Len(ls', a))
  }

  lemma LowestTrans(m: Items, m': Items, m'': Items)
    requires LowestOf(m', m, |m'|) && LowestOf(m'', m', |m''|)
    ensures LowestOf(m'', m, |m''|)
  {
    SubsetSize(m'.Keys, m.Keys);
    SubsetSize(m''.Keys, m'.Keys);
    forall n, d | n in m'' && d in m && d !in m'' ensures n < d {
      if d in m' {
        assert n < d;
      } else {
        assert n in m'.Keys;
      }
    }
  }

  /** The accounts in `offs` lost one transaction each, the others none. */
  ghost predicate Round(ls: Accounts, ls': Accounts, offs: set<Address>) {
    && (forall a :: a in offs ==> OneLess(ItemsOf(ls, a), ItemsOf(ls', a)))
    && (forall a: Address :: a !in offs ==> ItemsOf(ls', a) == ItemsOf(ls, a))
  }

  lemma RoundStep(ls: Accounts, ls': Accounts, ls'': Accounts, offs: set<Address>, a: Address)
    requires Round(ls, ls', offs) && a !in offs
    requires SameElsewhere(a, ls', ls'') && OneLess(ItemsOf(ls', a), ItemsOf(ls'', a))
    ensures Round(ls, ls'', offs + {a})
  {
    hide OneLess;
    forall b: Address | b !in offs + {a} ensures ItemsOf(ls'', b) == ItemsOf(ls, b) {
      assert ItemsOf(ls', b) == ItemsOf(ls'', b);
    }
  }

  lemma RoundTops(ls0: Accounts, ls: Accounts, ls': Accounts, offs: set<Address>)
    requires OnlyTops(ls0, ls) && Round(ls, ls', offs)
    ensures OnlyTops(ls0, ls')
  {
    hide LowestOf;
    forall a: Address ensures LowestOf(ItemsOf(ls', a), ItemsOf(ls0, a), Len(ls', a)) {
      if a in offs {
        LowestSize(ItemsOf(ls', a), ItemsOf(ls, a));
        LowestTrans(ItemsOf(ls0, a), ItemsOf(ls, a), ItemsOf(ls', a));
      }
    }
  }

  lemma LowestSize(m': Items, m: Items)
    requires OneLess(m, m')
    ensures |m'| == |m| - 1 && LowestOf(m', m, |m'|)
  {
  }

  /** All offenders have `level` transactions; everybody else that may be penalised has its
      old list, of at most `rest` transactions. */
  ghost predicate Level(ls0: Accounts, ls: Accounts, locals: set<Address>, offs: set<Address>, level: nat, rest: nat) {
    && OnlyTops(ls0, ls)
    && (forall a :: a in offs ==> a !in locals && Len(ls, a) == level)
    && (forall a: Address :: a !in offs ==> ItemsOf(ls, a) == ItemsOf(ls0, a))
    && (forall a: Address :: a !in offs && a !in locals ==> Len(ls, a) <= rest)
  }

  /** A round over all offenders lowers their level by one. */
  lemma LevelRound(ls0: Accounts, ls: Accounts, ls': Accounts, locals: set<Address>, offs: set<Address>, level: nat,
                   rest: nat)
    requires Level(ls0, ls, locals, offs, level, rest) && level > 0 && Round(ls, ls', offs)
    ensures Level(ls0, ls', locals, offs, level - 1, rest)
  {
    hide LowestOf, OnlyTops;
    RoundTops(ls0, ls, ls', offs);
    forall a | a in offs ensures Len(ls', a) == level - 1 {
      LowestSize(ItemsOf(ls', a), ItemsOf(ls, a));
    }
  }

  /** A further offender with the same number of transactions joins. */
  lemma LevelJoin(ls0: Accounts, ls: Accounts, locals: set<Address>, offs: set<Address>, level: nat, rest: nat,
                  x: Address, rest': nat)
    requires Level(ls0, ls, locals, offs, level, rest) && x !in locals && Len(ls, x) == level
    requires forall a: Address :: a !in offs + {x} && a !in locals ==> Len(ls, a) <= rest'
    ensures Level(ls0, ls, locals, offs + {x}, level, rest')
  {
  }

  /** The accounts that lost transactions. */
  function Penalised(ls0: Accounts, ls: Accounts): set<Address> {
    set a | a in ls0 && ItemsOf(ls, a) != ItemsOf(ls0, a)
  }

  /** Nothing was dropped, or with one more for each penalised account the total would be
      above the limit. */
  ghost predicate Tight(ls0: Accounts, ls: Accounts, limit: nat) {
    Penalised(ls0, ls) == {} || Total(ls) + |Penalised(ls0, ls)| > limit
  }

  /** A round that starts above the limit ends no more than that round below it. */
  lemma RoundTight(ls0: Accounts, ls: Accounts, ls': Accounts, offs: seq<Address>, limit: nat)
    requires OnlyTops(ls0, ls) && Round(ls, ls', Members(offs)) && Distinct(offs)
    requires Total(ls) > limit && Total(ls') == Total(ls) - |offs|
    ensures Tight(ls0, ls', limit)
  {
    hide Total, LowestOf;
    forall a | a in Members(offs) ensures a in Penalised(ls0, ls') {
      LowestSize(ItemsOf(ls', a), ItemsOf(ls, a));
      LowestFits(ItemsOf(ls, a), ItemsOf(ls0, a));
    }
    SubsetSize(Members(offs), Penalised(ls0, ls'));
    DistinctSize(offs);
  }

  lemma LowestFits(m': Items, m: Items)
    requires LowestOf(m', m, |m'|)
    ensures |m'| <= |m|
  {
  }

  lemma {:induction false} DistinctSize(s: seq<Address>)
    requires Distinct(s)
    ensures |Members(s)| == |s|
  {
    if s != [] {
      var k := |s| - 1;
      DistinctSize(s[..k]);
      MembersPlus(s, k);
      assert s[..k + 1] == s;
    }
  }

  lemma NobodyPenalised(ls: Accounts, limit: nat)
    ensures Tight(ls, ls, limit)
  {
  }

  /** The result of truncation: no account is penalised while a non-local one is longer,
      nobody loses more than the guaranteed slots allow, only top nonces are lost, and the
      dropping stops within one round of the limit. */
  ghost predicate FairlyTruncated(ls0: Accounts, ls: Accounts, locals: set<Address>, slots: nat, limit: nat) {
    && OnlyTops(ls0, ls)
    && (Total(ls) <= limit || forall a: Address :: a !in locals ==> Len(ls, a) <= slots)
    && (forall a: Address :: a in locals || Len(ls0, a) <= slots ==> ItemsOf(ls, a) == ItemsOf(ls0, a))
    && (forall a: Address :: ItemsOf(ls, a) != ItemsOf(ls0, a) ==> Len(ls, a) >= slots)
    && (forall a: Address, b: Address :: ItemsOf(ls, a) != ItemsOf(ls0, a) && b !in locals ==> Len(ls, b) <= Len(ls, a))
    && (Total(ls0) <= limit ==> ls == ls0) && Tight(ls0, ls, limit)
  }

  lemma LevelIsFair(ls0: Accounts, ls: Accounts, locals: set<Address>, slots: nat, limit: nat, offs: set<Address>,
                    level: nat, rest: nat)
    requires Tight(ls0, ls, limit)
    requires Level(ls0, ls, locals, offs, level, rest) && level >= slots && Total(ls0) > limit
    requires rest <= level && forall a :: a in offs ==> Len(ls0, a) > slots
    requires Total(ls) <= limit || (level <= slots && rest <= slots)
    ensures FairlyTruncated(ls0, ls, locals, slots, limit)
  {
    hide OnlyTops, Tight;
  }

  /** Nobody is above the guaranteed slots: nothing is dropped. */
  lemma NobodyOver(ls: Accounts, locals: set<Address>, slots: nat, limit: nat)
    requires forall a: Address :: a !in locals ==> Len(ls, a) <= slots
    ensures FairlyTruncated(ls, ls, locals, slots, limit)
  {
    hide OnlyTops, Tight;
    OnlyTopsRefl(ls);
    NobodyPenalised(ls, limit);
  }

  lemma WithinLimit(ls: Accounts, locals: set<Address>, slots: nat, limit: nat)
    requires Total(ls) <= limit
    ensures FairlyTruncated(ls, ls, locals, slots, limit)
  {
    hide OnlyTops, Tight;
    OnlyTopsRefl(ls);
    NobodyPenalised(ls, limit);
  }

  lemma OnlyTopsRefl(ls: Accounts)
    ensures OnlyTops(ls, ls)
  {
  }

  /** Cap(len - 1) removes exactly the highest nonce. */
  lemma CapByOne(m: Items, top: nat)
    requires top in m && forall n :: n in m ==> n <= top
    ensures OneLess(m, m - {top}) && (m - {top}).Keys == Below(m, top).Keys && |m - {top}| == |m| - 1
  {
    assert m.Keys == (m - {top}).Keys + {top};
  }

  method Highest(m: Items) returns (top: nat)
    requires m != map[]
    ensures top in m && forall n :: n in m ==> n <= top
  {
    top :| top in m;
    var todo := m.Keys - {top};
    while todo != {}
      invariant top in m && todo <= m.Keys && forall n :: n in m && n !in todo ==> n <= top
      decreases |todo|
    {
      var n :| n in todo;
      if n > top {
        top := n;
      }
      todo := todo - {n};
    }
  }

  function Members(s: seq<Address>): set<Address> { set a | a in s }

  ghost predicate Distinct(s: seq<Address>) {
    forall i, j :: 0 <= i < j < |s| ==> s[i] != s[j]
  }

  lemma MembersPlus(s: seq<Address>, i: nat)
    requires i < |s| && Distinct(s)
    ensures s[i] !in Members(s[..i]) && Members(s[..i + 1]) == Members(s[..i]) + {s[i]}
  {
    assert s[..i + 1] == s[..i] + [s[i]];
  }

  lemma MembersAll(s: seq<Address>)
    ensures s[..|s|] == s && Members(s[..0]) == {}
  {
  }

  /** The accounts that may be penalised: not local, and above the guaranteed slots. */
  function Spammers(ls: Accounts, locals: set<Address>, slots: nat): set<Address> {
    set a | a in ls && a !in locals && |ls[a].items| > slots
  }

  /** The state of truncation between two offenders. All offenders but the last are level,
      at no less than the last; those still to come have no more than the last. */
  ghost predicate Truncating(ls0: Accounts, ls: Accounts, locals: set<Address>, slots: nat, limit: nat,
                             offenders: seq<Address>, spammers: set<Address>, level: nat) {
    && Distinct(offenders) && Members(offenders) !! spammers
    && Members(offenders) + spammers == Spammers(ls0, locals, slots)
    && if offenders == [] then ls == ls0
       else var last := offenders[|offenders| - 1];
         && Level(ls0, ls, locals, Members(offenders[..|offenders| - 1]), level, Len(ls, last))
         && slots < Len(ls, last) <= level && (Total(ls) > limit ==> level == Len(ls, last))
  }

  lemma TruncatingStart(ls: Accounts, locals: set<Address>, slots: nat, limit: nat)
    ensures Truncating(ls, ls, locals, slots, limit, [], Spammers(ls, locals, slots), 0)
  {
  }

  /** The next offender, one of the largest that are left, joins: the earlier offenders are
      level among themselves, no lower than the new one. */
  lemma NextOffender(ls0: Accounts, ls: Accounts, locals: set<Address>, slots: nat, limit: nat,
                     offenders: seq<Address>, spammers: set<Address>, level: nat, x: Address)
    requires Truncating(ls0, ls, locals, slots, limit, offenders, spammers, level) && Total(ls) > limit
    requires x in spammers && forall s :: s in spammers ==> Len(ls, s) <= Len(ls, x)
    ensures x !in offenders && Distinct(offenders + [x]) && Members(offenders + [x]) == Members(offenders) + {x}
    ensures offenders != [] ==> Level(ls0, ls, locals, Members(offenders), level, Len(ls, x)) && Len(ls, x) <= level
    ensures offenders == [] ==> Level(ls0, ls, locals, {}, Len(ls, x), Len(ls, x))
    ensures slots < Len(ls, x) && ItemsOf(ls, x) == ItemsOf(ls0, x)
  {
    hide OnlyTops;
    assert x in Spammers(ls0, locals, slots);
    if offenders == [] {
      OnlyTopsRefl(ls);
      forall a: Address | a !in locals
        ensures Len(ls, a) <= Len(ls, x) { OthersAreSmaller(ls0, ls, locals, slots, {}, spammers, a, x); }
    } else {
      var k := |offenders| - 1;
      MembersPlus(offenders, k);
      MembersAll(offenders);
      assert x !in Members(offenders);
      forall a: Address | a !in Members(offenders) && a !in locals ensures Len(ls, a) <= Len(ls, x) {
        OthersAreSmaller(ls0, ls, locals, slots, Members(offenders), spammers, a, x);
      }
      LevelJoin(ls0, ls, locals, Members(offenders[..k]), level, Len(ls, offenders[k]), offenders[k], Len(ls, x));
    }
  }

  lemma OthersAreSmaller(ls0: Accounts, ls: Accounts, locals: set<Address>, slots: nat, offs: set<Address>,
                         spammers: set<Address>, a: Address, x: Address)
    requires offs + spammers == Spammers(ls0, locals, slots) && a !in offs && a !in locals
    requires x in spammers && ItemsOf(ls, x) == ItemsOf(ls0, x) && ItemsOf(ls, a) == ItemsOf(ls0, a)
    requires forall s :: s in spammers ==> Len(ls, s) <= Len(ls, x)
    ensures Len(ls, a) <= Len(ls, x)
  {
    assert x in Spammers(ls0, locals, slots);
    if a !in spammers {
      assert a !in Spammers(ls0, locals, slots);
    }
  }

  lemma OffenderDone(ls0: Accounts, ls: Accounts, locals: set<Address>, slots: nat, limit: nat,
                     offenders: seq<Address>, spammers: set<Address>, level: nat, x: Address)
    requires Distinct(offenders + [x]) && Members(offenders + [x]) == Members(offenders) + {x} && x !in offenders
    requires Members(offenders) !! spammers && Members(offenders) + spammers == Spammers(ls0, locals, slots)
      && x in spammers
    requires Level(ls0, ls, locals, Members(offenders), level, Len(ls, x))
    requires slots < Len(ls, x) <= level && (Total(ls) > limit ==> level == Len(ls, x))
    ensures Truncating(ls0, ls, locals, slots, limit, offenders + [x], spammers - {x}, level)
  {
    hide Level;
    assert (offenders + [x])[..|offenders|] == offenders;
  }

  /** All spammers have become offenders, and all of them are level. */
  lemma AllOffenders(ls0: Accounts, ls: Accounts, locals: set<Address>, slots: nat, limit: nat, offenders: seq<Address>,
                     level: nat)
    requires Truncating(ls0, ls, locals, slots, limit, offenders, {}, level) && Total(ls) > limit && offenders != []
    ensures Level(ls0, ls, locals, Members(offenders), level, slots) && level > slots
    ensures forall a :: a in Members(offenders) ==> Len(ls0, a) > slots
    ensures offenders[|offenders| - 1] in Members(offenders)
  {
    hide OnlyTops;
    var k := |offenders| - 1;
    MembersPlus(offenders, k);
    MembersAll(offenders);
    assert offenders[k] in Members(offenders);
    assert offenders[k] in Spammers(ls0, locals, slots);
    forall a: Address | a !in Members(offenders) && a !in locals ensures Len(ls, a) <= slots {
      assert a !in Spammers(ls0, locals, slots);
    }
    LevelJoin(ls0, ls, locals, Members(offenders[..k]), level, Len(ls, offenders[k]), offenders[k], slots);
  }

  /** Truncation that stops with the pool within its limit is fair. */
  lemma StoppedFair(ls0: Accounts, ls: Accounts, locals: set<Address>, slots: nat, limit: nat,
                    offenders: seq<Address>, spammers: set<Address>, level: nat)
    requires Tight(ls0, ls, limit)
    requires Truncating(ls0, ls, locals, slots, limit, offenders, spammers, level) && Total(ls0) > limit
    requires Total(ls) <= limit || (offenders == [] && spammers == {})
    ensures FairlyTruncated(ls0, ls, locals, slots, limit)
  {
    hide OnlyTops, Level;
    if offenders == [] {
      forall a: Address | a !in locals ensures Len(ls, a) <= slots { assert a !in Spammers(ls0, locals, slots); }
      NobodyOver(ls, locals, slots, limit);
    } else {
      var k := |offenders| - 1;
      MembersPlus(offenders, k);
      MembersAll(offenders);
      forall a | a in Members(offenders[..k]) ensures Len(ls0, a) > slots {
        assert a in Spammers(ls0, locals, slots);
      }
      LevelIsFair(ls0, ls, locals, slots, limit, Members(offenders[..k]), level, Len(ls, offenders[k]));
    }
  }

  /** An account with transactions has a list. */
  lemma HasList(ls: Accounts, a: Address)
    requires Len(ls, a) > 0
    ensures a in ls && |ls[a].items| == Len(ls, a)
  {
  }

  /** The largest spammer, as the priority queue hands it out. */
  method Largest(ls: Accounts, spammers: set<Address>) returns (x: Address)
    requires spammers != {} && spammers <= ls.Keys
    ensures x in spammers && forall s :: s in spammers ==> Len(ls, s) <= Len(ls, x)
  {
    x :| x in spammers;
    var todo := spammers - {x};
    while todo != {}
      invariant x in spammers && todo <= spammers && forall s :: s in spammers && s !in todo ==>
        Len(ls, s) <= Len(ls, x)
      decreases |todo|
    {
      var s :| s in todo;
      if Len(ls, s) > Len(ls, x) {
        x := s;
      }
      todo := todo - {s};
    }
  }

  /** The number of transactions in all lists. */
  method Count(ls: Accounts) returns (n: nat)
    ensures n == Total(ls)
  {
    n := 0;
    var todo := ls.Keys;
    while todo != {}
      invariant todo <= ls.Keys && n + TotalOf(ls, todo) == Total(ls)
      decreases |todo|
    {
      var a :| a in todo;
      TotalOfMinus(ls, todo, a);
      n := n + |ls[a].items|;
      todo := todo - {a};
    }
  }

  lemma RoundStart(ls: Accounts)
    ensures Round(ls, ls, {})
  {
  }

  lemma RoundKeeps(ls: Accounts, ls': Accounts, offs: set<Address>, a: Address)
    requires Round(ls, ls', offs) && a !in offs
    ensures Len(ls', a) == Len(ls, a)
  {
  }

  lemma LevelSize(ls0: Accounts, ls: Accounts, locals: set<Address>, offs: seq<Address>, level: nat, rest: nat)
    requires Level(ls0, ls, locals, Members(offs), level, rest) && level > 0
    ensures forall i :: 0 <= i < |offs| ==> Len(ls, offs[i]) == level && offs[i] in ls && |ls[offs[i]].items| == level
  {
    hide OnlyTops;
    forall i | 0 <= i < |offs| ensures Len(ls, offs[i]) == level { assert offs[i] in Members(offs); }
  }

  lemma SpammersHaveLists(ls0: Accounts, ls: Accounts, locals: set<Address>, slots: nat, limit: nat,
                          offenders: seq<Address>, spammers: set<Address>, level: nat)
    requires Truncating(ls0, ls, locals, slots, limit, offenders, spammers, level)
    ensures spammers <= ls.Keys && forall s :: s in spammers ==> |ls[s].items| == Len(ls, s) > slots
  {
    hide OnlyTops;
    forall s | s in spammers ensures s in ls && |ls[s].items| == Len(ls, s) > slots {
      assert s in Spammers(ls0, locals, slots);
      if offenders != [] {
        var k := |offenders| - 1;
        MembersPlus(offenders, k);
        MembersAll(offenders);
        assert s !in Members(offenders[..k]);
      }
      HasList(ls, s);
    }
  }

  lemma OutsiderKeeps(ls0: Accounts, ls: Accounts, ls': Accounts, locals: set<Address>, offs: set<Address>, top: nat,
                      level: nat, rest: nat, x: Address)
    requires Level(ls0, ls, locals, offs, top, rest) && Level(ls0, ls', locals, offs, level, rest) && x !in offs
    ensures Len(ls', x) == Len(ls, x)
  {
  }

  lemma NoMembers(s: seq<Address>)
    requires s == []
    ensures Members(s) == {}
  {
  }

  lemma OffendersDistinct(ls0: Accounts, ls: Accounts, locals: set<Address>, slots: nat, limit: nat,
                          offenders: seq<Address>, spammers: set<Address>, level: nat)
    requires Truncating(ls0, ls, locals, slots, limit, offenders, spammers, level)
    ensures Distinct(offenders)
  {
  }

  lemma LowestRefl(m: Items)
    ensures LowestOf(m, m, |m|)
  {
  }

  /** Totals depend on the contents of well-formed lists only. */
  lemma TotalByItems(ls: Accounts, ls': Accounts, a: Address, strict: bool)
    requires WellFormed(ls, strict) && WellFormed(ls', strict) && SameElsewhere(a, ls, ls') && a in ls
    ensures Total(ls') == Total(ls) - Len(ls, a) + Len(ls', a)
  {
    forall b | b != a ensures b in ls <==> b in ls' { assert ItemsOf(ls, b) == ItemsOf(ls', b); }
    TotalOfMinus(ls, ls.Keys, a);
    TotalOfSame(ls, ls', ls.Keys - {a});
    if a in ls' {
      assert ls'.Keys == ls.Keys;
      TotalOfMinus(ls', ls'.Keys, a);
    } else {
      assert ls'.Keys == ls.Keys - {a};
    }
  }

  // ---------------------------------------------------------------------
  // The queue

  /** The result of truncating the queue: at the limit exactly, unless only local
      transactions are left above it; locals lose nothing, others their top nonces. */
  ghost predicate QueueTruncated(q0: Accounts, q: Accounts, locals: set<Address>, limit: nat) {
    && OnlyTops(q0, q)
    && (forall a: Address :: a in locals ==> ItemsOf(q, a) == ItemsOf(q0, a))
    && (if Total(q0) <= limit then q == q0
        else Total(q) == limit || (Total(q) > limit && forall a: Address :: a !in locals ==> ItemsOf(q, a) == map[]))
  }

  /** The time of the last sign of life of an account. */
  function BeatOf(beats: map<Address, nat>, a: Address): nat {
    if a in beats then beats[a] else 0
  }

  /** Queues are dropped from the most recently active remote account on: one is cut only
      after all with a later heartbeat are empty. */
  ghost predicate LatestFirst(q0: Accounts, q: Accounts, locals: set<Address>, beats: map<Address, nat>) {
    forall a: Address, b: Address ::
      a !in locals && b !in locals && ItemsOf(q, a) != ItemsOf(q0, a) && BeatOf(beats, a) < BeatOf(beats, b) ==>
        ItemsOf(q, b) == map[]
  }

  predicate Latest(accounts: set<Address>, beats: map<Address, nat>, a: Address) {
    a in accounts && forall b :: b in accounts ==> BeatOf(beats, b) <= BeatOf(beats, a)
  }

  lemma {:induction false} LatestExists(accounts: set<Address>, beats: map<Address, nat>) returns (top: Address)
    requires accounts != {}
    ensures Latest(accounts, beats, top)
    decreases |accounts|
  {
    hide BeatOf;
    var x :| x in accounts;
    var rest := accounts - {x};
    if rest == {} {
      assert accounts == {x};
      return x;
    }
    var m := LatestExists(rest, beats);
    assert accounts == rest + {x};
    top := if BeatOf(beats, m) < BeatOf(beats, x) then x else m;
  }

  /** The last account in the order by heartbeat. */
  method NextByBeat(accounts: set<Address>, beats: map<Address, nat>) returns (a: Address)
    requires accounts != {}
    ensures a in accounts && Latest(accounts, beats, a)
  {
    ghost var top := LatestExists(accounts, beats);
    a :| a in accounts && Latest(accounts, beats, a);
  }

  lemma NothingDroppedYet(q: Accounts, locals: set<Address>, beats: map<Address, nat>)
    ensures LatestFirst(q, q, locals, beats)
  {
  }

  lemma OrderStep(q0: Accounts, q: Accounts, q': Accounts, locals: set<Address>, limit: nat, todo: set<Address>,
                  drop: nat, a: Address, beats: map<Address, nat>)
    requires QueueTruncating(q0, q, locals, limit, todo, drop) && drop > 0 && LatestFirst(q0, q, locals, beats)
      && SameElsewhere(a, q, q')
    requires Latest(todo, beats, a) && ItemsOf(q, a) != map[]
    ensures LatestFirst(q0, q', locals, beats)
  {
    hide OnlyTops, Total, BeatOf;
    forall x: Address, y: Address | x !in locals && y !in locals && ItemsOf(q', x) != ItemsOf(q0, x)
      && BeatOf(beats, x) < BeatOf(beats, y)
      ensures ItemsOf(q', y) == map[]
    {
      assert ItemsOf(q, y) == map[];
      assert y != a && ItemsOf(q', y) == ItemsOf(q, y);
    }
  }

  /** Accounts outside `todo` have been dealt with; `drop` more transactions must go. */
  ghost predicate QueueTruncating(q0: Accounts, q: Accounts, locals: set<Address>, limit: nat, todo: set<Address>,
                                  drop: nat) {
    && OnlyTops(q0, q) && Total(q) == limit + drop
    && todo <= q.Keys && todo !! locals
    && (forall a: Address :: a in locals || a in todo ==> ItemsOf(q, a) == ItemsOf(q0, a))
    && (drop > 0 ==> forall a: Address :: a !in locals && a !in todo ==> ItemsOf(q, a) == map[])
  }

  lemma QueueStart(q: Accounts, locals: set<Address>, limit: nat)
    requires Total(q) > limit
    ensures QueueTruncating(q, q, locals, limit, q.Keys - locals, Total(q) - limit)
  {
    OnlyTopsRefl(q);
  }

  lemma QueueStep(q0: Accounts, q: Accounts, q': Accounts, locals: set<Address>, limit: nat, todo: set<Address>,
                  drop: nat, a: Address, k: nat)
    requires QueueTruncating(q0, q, locals, limit, todo, drop) && a in todo && k <= drop
    requires SameElsewhere(a, q, q') && LowestOf(ItemsOf(q', a), ItemsOf(q, a), Len(q', a))
      && Len(q', a) == Len(q, a) - k
    requires Total(q') == Total(q) - k && (k == drop || k == Len(q, a)) && q'.Keys >= q.Keys - {a}
    ensures QueueTruncating(q0, q', locals, limit, todo - {a}, drop - k) && todo - {a} <= q'.Keys
  {
    hide LowestOf;
    TopsStep(q0, q, q', a);
    if k < drop {
      assert ItemsOf(q', a) == map[] by { EmptyBySize(ItemsOf(q', a)); }
    }
  }

  lemma TopsStep(q0: Accounts, q: Accounts, q': Accounts, a: Address)
    requires OnlyTops(q0, q) && SameElsewhere(a, q, q') && LowestOf(ItemsOf(q', a), ItemsOf(q, a), Len(q', a))
    ensures OnlyTops(q0, q')
  {
    hide LowestOf;
    forall b: Address ensures LowestOf(ItemsOf(q', b), ItemsOf(q0, b), Len(q', b)) {
      if b == a {
        LowestTrans(ItemsOf(q0, a), ItemsOf(q, a), ItemsOf(q', a));
      } else {
        assert ItemsOf(q, b) == ItemsOf(q', b);
      }
    }
  }

  lemma EmptyBySize(m: Items)
    requires |m| == 0
    ensures m == map[]
  {
    assert m.Keys == {};
  }

  lemma QueueDone(q0: Accounts, q: Accounts, locals: set<Address>, limit: nat, todo: set<Address>, drop: nat)
    requires QueueTruncating(q0, q, locals, limit, todo, drop) && Total(q0) > limit && (drop == 0 || todo == {})
    ensures QueueTruncated(q0, q, locals, limit)
  {
  }

  /** Well-formed maps with the same contents elsewhere have the same accounts elsewhere. */
  lemma KeysElsewhere(ls: Accounts, ls': Accounts, a: Address, strict: bool)
    requires WellFormed(ls, strict) && WellFormed(ls', strict) && SameElsewhere(a, ls, ls')
    ensures ls'.Keys >= ls.Keys - {a}
  {
    forall b | b in ls && b != a ensures b in ls' { assert ItemsOf(ls, b) == ItemsOf(ls', b); }
  }

  lemma ListIsItems(ls: Accounts, a: Address)
    requires a in ls
    ensures |ls[a].items| == Len(ls, a)
  {
  }

  lemma WithinQueueLimit(q: Accounts, locals: set<Address>, limit: nat)
    requires Total(q) <= limit
    ensures QueueTruncated(q, q, locals, limit)
  {
    OnlyTopsRefl(q);
  }

  /** The pending total is within its limit or every remote account within its guaranteed
      slots, and the queue is within its limit or holds local transactions only. */
  ghost predicate WithinLimits(pending: Accounts, queue: Accounts, locals: set<Address>, slots: nat, globalSlots: nat,
                               globalQueue: nat) {
    && (Total(pending) <= globalSlots || forall a: Address :: a !in locals ==> Len(pending, a) <= slots)
    && (Total(queue) <= globalQueue || forall a: Address :: a !in locals ==> ItemsOf(queue, a) == map[])
  }

  lemma FairTops(ls0: Accounts, ls: Accounts, locals: set<Address>, slots: nat, limit: nat)
    requires FairlyTruncated(ls0, ls, locals, slots, limit)
    ensures OnlyTops(ls0, ls)
  {
  }

  lemma TruncatedIsWithin(p0: Accounts, p: Accounts, q0: Accounts, q: Accounts, locals: set<Address>, slots: nat,
                          globalSlots: nat, globalQueue: nat)
    requires FairlyTruncated(p0, p, locals, slots, globalSlots) && QueueTruncated(q0, q, locals, globalQueue)
    ensures WithinLimits(p, q, locals, slots, globalSlots, globalQueue)
  {
    hide OnlyTops, Total, Len, ItemsOf;
  }
}

/** How the pending list of an account and its virtual nonce move together in
    core/tx_pool.go. `p` is a pending list, `q` a queue, `next` the virtual nonce and
    `sn` the nonce of the account in the chain state. */
module PoolNonces {
  import opened Transactions
  import TxLists

  function Min(a: nat, b: nat): nat { if a < b then a else b }

  /** Pending is the gapless run from the state nonce up to the virtual nonce. */
  ghost predicate Aligned(p: Items, sn: nat, next: nat) {
    Gapless(p, sn, next)
  }

  /** Pending is gapless from the state nonce on; the virtual nonce is at one of its ends. */
  ghost predicate Loose(p: Items, sn: nat, next: nat) {
    exists end: nat :: Gapless(p, sn, end) && (next == sn || next == end)
  }

  ghost predicate Payable(p: Items, balance: nat, maxGas: nat) {
    forall n :: n in p ==> !TooExpensive(p[n], balance, maxGas)
  }

  /** While a reset is under way: after forwarding to the new state nonce, pending will be
      gapless, and if the virtual nonce has left the state nonce it marks the end of a
      payable run. */
  ghost predicate Resetting(p: Items, sn: nat, next: nat, balance: nat, maxGas: nat) {
    exists end: nat :: ResettingTo(p, sn, next, balance, maxGas, end)
  }

  ghost predicate ResettingTo(p: Items, sn: nat, next: nat, balance: nat, maxGas: nat, end: nat) {
    && Gapless(AtLeast(p, sn), sn, end)
    && (next == sn || (next == end && Payable(AtLeast(p, sn), balance, maxGas)))
  }

  /** From one pending list to another by cutting the tail at some nonces, each time
      lowering the virtual nonce to the cut. */
  ghost predicate Cut(p: Items, next: nat, p': Items, next': nat) {
    (p'.Keys == p.Keys && next' == next) || exists c: nat :: CutAt(p, next, p', next', c)
  }

  ghost predicate CutAt(p: Items, next: nat, p': Items, next': nat, c: nat) {
    c in p && p'.Keys == Below(p, c).Keys && next' == Min(next, c)
  }

  lemma CutTrans(p: Items, next: nat, p': Items, next': nat, p'': Items, next'': nat)
    requires Cut(p, next, p', next') && Cut(p', next', p'', next'')
    ensures Cut(p, next, p'', next'')
  {
    if !(p''.Keys == p'.Keys && next'' == next') {
      var d: nat :| CutAt(p', next', p'', next'', d);
      if p'.Keys == p.Keys && next' == next {
        assert CutAt(p, next, p'', next'', d) by { SameKeysBelow(p, p', d); }
      } else {
        var c: nat :| CutAt(p, next, p', next', c);
        assert d in p && d < c by { assert d in p'.Keys; }
        assert p''.Keys == Below(p, d).Keys;
        assert CutAt(p, next, p'', next'', d);
      }
    } else if !(p'.Keys == p.Keys && next' == next) {
      var c: nat :| CutAt(p, next, p', next', c);
      assert CutAt(p, next, p'', next'', c);
    }
  }

  /** A cut whose lowest point is explained by the nonces `out` of the transactions taken
      out: pending keeps none of them, and the virtual nonce has moved only to one of them. */
  ghost predicate CutBy(p: Items, next: nat, p': Items, next': nat, out: set<nat>) {
    && Cut(p, next, p', next')
    && (forall n :: n in out && n in p ==> next' <= n)
    && (next' == next || (next' in out && next' in p))
  }

  lemma CutByTrans(p: Items, next: nat, p': Items, next': nat, out: set<nat>, p'': Items, next'': nat, out': set<nat>)
    requires CutBy(p, next, p', next', out) && CutBy(p', next', p'', next'', out')
    ensures CutBy(p, next, p'', next'', out + out')
  {
    CutTrans(p, next, p', next', p'', next'');
    CutShrinks(p, next, p', next');
    CutShrinks(p', next', p'', next'');
  }

  lemma CutShrinks(p: Items, next: nat, p': Items, next': nat)
    requires Cut(p, next, p', next')
    ensures next' <= next && p'.Keys <= p.Keys
    ensures forall n :: n in p ==> n in p' || next' <= n
  {
    if !(p'.Keys == p.Keys && next' == next) {
      var c: nat :| CutAt(p, next, p', next', c);
      forall n | n in p ensures n in p' || next' <= n {
        if n < c { assert n in Below(p, c).Keys; }
      }
    } else {
      forall n | n in p ensures n in p' { assert n in p'.Keys; }
    }
  }

  lemma SameKeysBelow(p: Items, p': Items, c: nat)
    requires p.Keys == p'.Keys
    ensures Below(p, c).Keys == Below(p', c).Keys
  {
    forall n ensures n in Below(p, c).Keys <==> n in Below(p', c).Keys {
      assert n in p.Keys <==> n in p'.Keys;
    }
  }

  lemma GaplessKeys(p: Items, p': Items, lo: nat, hi: nat)
    requires p.Keys == p'.Keys && Gapless(p, lo, hi)
    ensures Gapless(p', lo, hi)
  {
    forall n ensures n in p' <==> lo <= n < hi { assert n in p.Keys <==> n in p'.Keys; }
  }

  lemma GaplessBelow(p: Items, p': Items, lo: nat, hi: nat, c: nat)
    requires Gapless(p, lo, hi) && c in p && p'.Keys == Below(p, c).Keys
    ensures lo <= c < hi && Gapless(p', lo, c)
  {
    forall n ensures n in p' <==> lo <= n < c { assert n in p' <==> n in Below(p, c).Keys; }
  }

  /** Cutting keeps pending aligned with the virtual nonce. */
  lemma CutKeepsAligned(p: Items, next: nat, p': Items, next': nat, sn: nat)
    requires Cut(p, next, p', next') && Aligned(p, sn, next)
    ensures Aligned(p', sn, next')
  {
    if p'.Keys == p.Keys && next' == next {
      GaplessKeys(p, p', sn, next);
    } else {
      var c: nat :| CutAt(p, next, p', next', c);
      GaplessBelow(p, p', sn, next, c);
    }
  }

  lemma CutKeepsLoose(p: Items, next: nat, p': Items, next': nat, sn: nat)
    requires Cut(p, next, p', next') && Loose(p, sn, next)
    ensures Loose(p', sn, next')
  {
    var end: nat :| Gapless(p, sn, end) && (next == sn || next == end);
    if p'.Keys == p.Keys && next' == next {
      GaplessKeys(p, p', sn, end);
    } else {
      var c: nat :| CutAt(p, next, p', next', c);
      GaplessBelow(p, p', sn, end, c);
    }
  }

  /** When the chain moves on from state nonce `before` to `sn`, the virtual nonce restarts
      at `sn` and cuts may follow: the account is ready for promotion and demotion exactly
      if no cut went below the new state nonce. */
  lemma ResetThenCut(p: Items, before: nat, hi: nat, sn: nat, p': Items, next': nat, balance: nat, maxGas: nat)
    requires Gapless(p, before, hi) && before <= sn
    requires Cut(p, sn, p', next')
    ensures next' <= sn
    ensures Resetting(p', sn, next', balance, maxGas) <==> next' == sn
    ensures next' < sn ==> AtLeast(p', sn) == map[]
  {
    var end: nat;
    if p'.Keys == p.Keys && next' == sn {
      GaplessKeys(p, p', before, hi);
      end := if hi <= sn then sn else hi;
    } else {
      var c: nat :| CutAt(p, sn, p', next', c);
      GaplessBelow(p, p', before, hi, c);
      end := if c <= sn then sn else c;
    }
    assert Gapless(AtLeast(p', sn), sn, end);
    if next' == sn {
      assert ResettingTo(p', sn, next', balance, maxGas, end);
    }
  }

  /** What promotion takes from a queue of nonces at or above the state nonce. */
  lemma PromotesFromNext(p: Items, q: Items, sn: nat, next: nat, end: nat)
    requires Gapless(AtLeast(p, sn), sn, end) && (next == sn || next == end)
    requires p.Keys !! q.Keys && forall n :: n in q ==> sn <= n
    ensures ReadyItems(q, next) == map[]
      || (next == end && exists k: nat :: next < k && Gapless(ReadyItems(q, next), next, k))
  {
    if exists k :: k in q && k <= next {
      var lo, hi := TxLists.ReadyIsGapless(q, next);
      assert lo in q by { assert lo in ReadyItems(q, next); }
      forall n | sn <= n < end ensures n !in q { assert n in AtLeast(p, sn); assert n in p.Keys; }
      assert lo == next == end;
      assert Gapless(ReadyItems(q, next), next, hi);
    }
  }

  /** Nothing is promoted while the virtual nonce lags behind the state nonce. */
  lemma LaggingPromotesNothing(q: Items, sn: nat, next: nat)
    requires next < sn && forall n :: n in q ==> sn <= n
    ensures ReadyItems(q, next) == map[]
  {
  }

  /** The virtual nonce after promoting `r`: one past its last nonce. */
  ghost predicate NextAfter(r: Items, next: nat, next': nat) {
    if r == map[] then next' == next
    else next' > 0 && next' - 1 in r && forall n :: n in r ==> n < next'
  }

  /** Appending the promoted run keeps pending aligned. */
  lemma PromotionKeepsAligned(p: Items, q: Items, sn: nat, next: nat, next': nat)
    requires Aligned(p, sn, next) && p.Keys !! q.Keys && forall n :: n in q ==> sn <= n
    requires NextAfter(ReadyItems(q, next), next, next')
    ensures Aligned(p + ReadyItems(q, next), sn, next')
  {
    hide ReadyItems;
    var r := ReadyItems(q, next);
    assert AtLeast(p, sn) == p;
    PromotesFromNext(p, q, sn, next, next);
    if r == map[] {
      assert p + r == p;
    } else {
      var k: nat :| next < k && Gapless(r, next, k);
      NextIsEnd(r, next, k, next');
      assert Gapless(p + r, sn, next');
    }
  }

  lemma NextIsEnd(r: Items, lo: nat, k: nat, next': nat)
    requires lo < k && Gapless(r, lo, k) && r != map[] && next' > 0 && next' - 1 in r && forall n :: n in r ==>
      n < next'
    ensures next' == k
  {
    assert k - 1 in r;
  }

  lemma ReadyIsPart(q: Items, start: nat)
    ensures forall n :: n in ReadyItems(q, start) ==> n in q && ReadyItems(q, start)[n] == q[n]
  {
  }

  lemma PromotionKeepsResetting(p: Items, q: Items, sn: nat, next: nat, next': nat, balance: nat, maxGas: nat)
    requires Resetting(p, sn, next, balance, maxGas) && p.Keys !! q.Keys
    requires (forall n :: n in q ==> sn <= n) && Payable(q, balance, maxGas)
    requires NextAfter(ReadyItems(q, next), next, next')
    ensures Resetting(p + ReadyItems(q, next), sn, next', balance, maxGas)
  {
    hide ReadyItems;
    var end: nat :| ResettingTo(p, sn, next, balance, maxGas, end);
    var r := ReadyItems(q, next);
    PromotesFromNext(p, q, sn, next, end);
    ReadyIsPart(q, next);
    if r == map[] {
      assert p + r == p;
    } else {
      var k: nat :| next < k && Gapless(r, next, k);
      NextIsEnd(r, next, k, next');
      assert AtLeast(p + r, sn) == AtLeast(p, sn) + r;
      assert Gapless(AtLeast(p + r, sn), sn, k);
      assert ResettingTo(p + r, sn, next', balance, maxGas, k);
    }
  }

  /** Demotion ends a reset with a gapless list and a virtual nonce at one of its ends, and
      never finds a gap in front. */
  lemma DemotionSettles(l: List, sn: nat, next: nat, balance: nat, maxGas: nat)
    requires l.Valid() && l.strict && Resetting(l.items, sn, next, balance, maxGas)
    ensures var f := Filtered(l.(items := AtLeast(l.items, sn)), balance, maxGas).items;
      Loose(f, sn, next) && (f != map[] ==> sn in f)
  {
    var end: nat :| ResettingTo(l.items, sn, next, balance, maxGas, end);
    var l1 := l.(items := AtLeast(l.items, sn));
    var f := Filtered(l1, balance, maxGas).items;
    var e := TxLists.FilterStaysGapless(l1, balance, maxGas, sn, end);
    if next == end && next != sn {
      assert e == end;
    }
    assert Gapless(f, sn, e) && (next == sn || next == e);
  }

  /** A loose account is aligned once its virtual nonce is set past its last pending one. */
  lemma SettledIsAligned(p: Items, sn: nat, next: nat, next': nat)
    requires Loose(p, sn, next)
    requires if p == map[] then next' == next else next' > 0 && next' - 1 in p && forall n :: n in p ==> n < next'
    ensures Aligned(p, sn, next')
  {
    var end: nat :| Gapless(p, sn, end) && (next == sn || next == end);
    if p == map[] {
      assert sn !in p;
      assert end == sn;
    } else {
      assert sn < end by { var n :| n in p; }
      NextIsEnd(p, sn, end, next');
    }
  }

  /** The virtual nonce has fallen below the state nonce, and nothing pending is current. */
  ghost predicate Lagging(p: Items, sn: nat, next: nat) {
    next < sn && AtLeast(p, sn) == map[]
  }

  /** Nothing is pending and the virtual nonce is below the state nonce. */
  ghost predicate Behind(p: Items, sn: nat, next: nat) {
    p == map[] && next < sn
  }

  /** Pending is empty, or starts at the state nonce and ends right before the virtual one. */
  ghost predicate Anchored(p: Items, sn: nat, next: nat) {
    p != map[] ==> sn in p && sn < next && next - 1 in p && forall n :: n in p ==> sn <= n < next
  }

  /** Pending is the gapless run up to the virtual nonce, or empty with the virtual nonce behind. */
  ghost predicate InStep(p: Items, sn: nat, next: nat) {
    Aligned(p, sn, next) || Behind(p, sn, next)
  }

  /** An aligned account stays aligned, one that is behind stays behind. */
  ghost predicate KeepsStep(p: Items, next: nat, p': Items, next': nat, sn: nat) {
    && (Aligned(p, sn, next) ==> Aligned(p', sn, next'))
    && (Behind(p, sn, next) ==> Behind(p', sn, next'))
  }

  lemma CutKeepsStep(p: Items, next: nat, p': Items, next': nat, sn: nat)
    requires Cut(p, next, p', next')
    ensures KeepsStep(p, next, p', next', sn)
  {
    if Aligned(p, sn, next) { CutKeepsAligned(p, next, p', next', sn); }
    if Behind(p, sn, next) { assert p'.Keys == {}; }
  }

  /** What promoting an account may do to it. */
  ghost predicate Promotes(p: Items, next: nat, p': Items, next': nat, sn: nat, balance: nat, maxGas: nat) {
    && (Aligned(p, sn, next) ==> Aligned(p', sn, next'))
    && (Resetting(p, sn, next, balance, maxGas) ==> Resetting(p', sn, next', balance, maxGas))
    && (Lagging(p, sn, next) ==> p' == p && next' == next)
  }

  lemma PromotionPromotes(p: Items, q: Items, sn: nat, next: nat, next': nat, balance: nat, maxGas: nat)
    requires p.Keys !! q.Keys
    requires (forall n :: n in q ==> sn <= n) && Payable(q, balance, maxGas)
    requires NextAfter(ReadyItems(q, next), next, next')
    ensures Promotes(p, next, p + ReadyItems(q, next), next', sn, balance, maxGas)
  {
    hide Aligned, Resetting, ReadyItems, Payable;
    if Aligned(p, sn, next) { PromotionKeepsAligned(p, q, sn, next, next'); }
    if Resetting(p, sn, next, balance, maxGas) { PromotionKeepsResetting(p, q, sn, next, next', balance, maxGas); }
    if Lagging(p, sn, next) {
      LaggingPromotesNothing(q, sn, next);
      assert p + ReadyItems(q, next) == p;
    }
  }

  /** What demoting an account may do to it. */
  ghost predicate Demotes(p: Items, next: nat, p': Items, sn: nat, balance: nat, maxGas: nat) {
    && (Resetting(p, sn, next, balance, maxGas) ==> Loose(p', sn, next))
    && (Lagging(p, sn, next) ==> p' == map[])
  }

  lemma NothingToDemote(sn: nat, next: nat, balance: nat, maxGas: nat)
    ensures Demotes(map[], next, map[], sn, balance, maxGas)
  {
    var none: Items := map[];
    if Resetting(none, sn, next, balance, maxGas) {
      var end: nat :| ResettingTo(none, sn, next, balance, maxGas, end);
      assert sn !in AtLeast(none, sn);
      assert Gapless(none, sn, end);
    }
  }
}

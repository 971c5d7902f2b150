/** event/feed.go: one-to-many delivery over channels that come and go during a send. */
module Feeds {
  type Chan = nat

  /** The channel on which unsubscriptions reach a send in progress. */
  const REMOVE_SUB: Chan := 0

  ghost predicate NoDup(s: seq<Chan>) {
    forall i, j :: 0 <= i < j < |s| ==> s[i] != s[j]
  }

  /** Subscribing and unsubscribing channels that are still in the inbox. */
  datatype InboxEvent = Join(ch: Chan) | Leave(ch: Chan)

  /** What ends a blocking select: some active case can send, or an unsubscription comes in. */
  datatype Wake = Deliver(pick: nat) | Remove(ch: Chan)

  /** One round of the send loop: inbox traffic, the channels whose buffers have room, and
      what the select returns with. */
  datatype Round = Round(traffic: seq<InboxEvent>, ready: set<Chan>, wake: Wake)

  /** caseList.find */
  method Find(cs: seq<Chan>, ch: Chan) returns (index: int)
    ensures -1 <= index < |cs|
    ensures index >= 0 ==> cs[index] == ch && ch !in cs[..index]
    ensures index == -1 <==> ch !in cs
  {
    for i := 0 to |cs|
      invariant ch !in cs[..i]
    {
      if cs[i] == ch {
        return i;
      }
    }
    return -1;
  }

  /** caseList.delete */
  function Delete(cs: seq<Chan>, index: nat): (r: seq<Chan>)
    requires index < |cs|
    ensures NoDup(cs) ==> NoDup(r) && forall c :: c in r <==> c in cs && c != cs[index]
  {
    var r := cs[..index] + cs[index + 1..];
    assert NoDup(cs) ==> forall c :: c in r <==> c in cs && c != cs[index] by {
      if NoDup(cs) {
        forall c ensures c in r <==> c in cs && c != cs[index] {
          if c in cs && c != cs[index] {
            var i :| 0 <= i < |cs| && cs[i] == c;
            assert if i < index then r[i] == c else r[i - 1] == c;
          }
        }
      }
    }
    r
  }

  /** caseList.deactivate: the case moves to the end of the active prefix, which loses it. */
  function Deactivate(cs: seq<Chan>, index: nat, active: nat): (r: seq<Chan>)
    requires index < active <= |cs|
    ensures |r| == |cs| && multiset(r) == multiset(cs) && r[active - 1] == cs[index]
    ensures forall j :: 0 <= j < |cs| && j != index && j != active - 1 ==> r[j] == cs[j]
  {
    var last := active - 1;
    cs[index := cs[last]][last := cs[index]]
  }

  /** During a send: the held channels that were not removed, first the active ones, which
      have not had the value, then those that have. */
  ghost predicate Sending(held: set<Chan>, cs: seq<Chan>, active: nat, delivered: seq<Chan>, removed: set<Chan>) {
    && 1 <= active <= |cs| && cs[0] == REMOVE_SUB && NoDup(cs) && REMOVE_SUB !in held && removed <= held
    && (forall c :: c in cs <==> c == REMOVE_SUB || (c in held && c !in removed))
    && (forall i :: 1 <= i < active ==> cs[i] !in delivered)
    && (forall i :: active <= i < |cs| ==> cs[i] in delivered)
    && NoDup(delivered) && (forall c :: c in delivered ==> c in held)
  }

  lemma DeliverStep(held: set<Chan>, cs: seq<Chan>, active: nat, delivered: seq<Chan>, removed: set<Chan>, i: nat)
    requires Sending(held, cs, active, delivered, removed) && 1 <= i < active
    ensures Sending(held, Deactivate(cs, i, active), active - 1, delivered + [cs[i]], removed)
  {
    var r := Deactivate(cs, i, active);
    forall c ensures c in r <==> c in cs { assert c in multiset(r) <==> c in multiset(cs); }
    assert cs[i] in cs;
  }

  lemma RemoveStep(held: set<Chan>, cs: seq<Chan>, active: nat, delivered: seq<Chan>, removed: set<Chan>, k: nat)
    requires Sending(held, cs, active, delivered, removed) && 1 <= k < |cs|
    ensures Sending(held, Delete(cs, k), if k < active then active - 1 else active, delivered, removed + {cs[k]})
  {
    assert cs[k] in cs;
    var r := Delete(cs, k);
    forall c ensures c in r <==> c == REMOVE_SUB || (c in held && c !in removed + {cs[k]}) {
      assert c in r <==> c in cs && c != cs[k];
    }
  }

  /** What a finished send has done: every channel held at lock time and not removed got the
      value, none got it twice, and the remaining cases are the held ones less the removed. */
  ghost predicate Sent(held: set<Chan>, cs: seq<Chan>, delivered: seq<Chan>, removed: set<Chan>) {
    && NoDup(delivered) && (forall c :: c in delivered ==> c in held) && removed <= held
    && (forall c :: c in held && c !in removed ==> c in delivered)
    && NoDup(cs) && cs != [] && cs[0] == REMOVE_SUB
    && (forall c :: c in cs <==> c == REMOVE_SUB || (c in held && c !in removed))
  }

  lemma AllSent(held: set<Chan>, cs: seq<Chan>, delivered: seq<Chan>, removed: set<Chan>)
    requires Sending(held, cs, 1, delivered, removed)
    ensures Sent(held, cs, delivered, removed)
  {
    forall c | c in held && c !in removed ensures c in delivered {
      assert c in cs;
      var i :| 0 <= i < |cs| && cs[i] == c;
      assert i >= 1;
    }
  }

  /** The channels still waiting for the value. */
  ghost function Live(held: set<Chan>, delivered: seq<Chan>, removed: set<Chan>): set<Chan> {
    set c | c in held && c !in delivered && c !in removed
  }

  /** They are the active cases. */
  lemma ActiveAreLive(held: set<Chan>, cs: seq<Chan>, active: nat, delivered: seq<Chan>, removed: set<Chan>)
    requires Sending(held, cs, active, delivered, removed)
    ensures forall c :: c in Live(held, delivered, removed) <==> c in cs[1..active]
    ensures active == 1 <==> Live(held, delivered, removed) == {}
  {
    forall c ensures c in Live(held, delivered, removed) <==> c in cs[1..active] {
      if c in Live(held, delivered, removed) {
        assert c in cs;
        var i :| 0 <= i < |cs| && cs[i] == c;
        assert cs[1..active][i - 1] == c;
      }
      if c in cs[1..active] {
        var i :| 0 <= i < active - 1 && cs[1..active][i] == c;
        assert cs[i + 1] == c && c in cs;
      }
    }
    if active > 1 { assert cs[1..active][0] in Live(held, delivered, removed); }
  }

  lemma ActiveIsLive(held: set<Chan>, cs: seq<Chan>, active: nat, delivered: seq<Chan>, removed: set<Chan>, i: nat)
    requires Sending(held, cs, active, delivered, removed) && 1 <= i < active
    ensures i < |cs| && cs[i] in Live(held, delivered, removed)
  {
    assert cs[i] in cs;
  }

  lemma SendingShape(held: set<Chan>, cs: seq<Chan>, active: nat, delivered: seq<Chan>, removed: set<Chan>)
    requires Sending(held, cs, active, delivered, removed)
    ensures 1 <= active <= |cs| && cs[0] == REMOVE_SUB && NoDup(cs)
  {
  }

  lemma SameCases(cs: seq<Chan>, cs': seq<Chan>)
    requires multiset(cs) == multiset(cs')
    ensures forall c :: c in cs' <==> c in cs
  {
    forall c ensures c in cs' <==> c in cs { assert c in multiset(cs') <==> c in multiset(cs); }
  }

  /** A channel that is not found behind the first case is not held any more. */
  lemma FoundIsHeld(held: set<Chan>, cs: seq<Chan>, active: nat, delivered: seq<Chan>, removed: set<Chan>, index: int,
                    ch: Chan)
    requires Sending(held, cs, active, delivered, removed) && -1 <= index < |cs|
    requires (index >= 0 ==> cs[index] == ch) && (index == -1 <==> ch !in cs)
    ensures index >= 1 ==> ch in held && cs[index] == ch
    ensures index < 1 && ch in held ==> removed + {ch} == removed
  {
    if index >= 1 { assert cs[index] in cs && cs[0] != cs[index]; }
  }

  class Feed {
    var sendCases: seq<Chan>
    var inbox: seq<Chan>

    /** Distinct channels behind the unsubscription case, none both held and waiting. */
    ghost predicate Valid()
      reads this
    {
      && sendCases != [] && sendCases[0] == REMOVE_SUB && NoDup(sendCases) && NoDup(inbox)
      && forall c :: c in inbox ==> c !in sendCases
    }

    constructor ()
      ensures Valid() && sendCases == [REMOVE_SUB] && inbox == []
    {
      sendCases, inbox := [REMOVE_SUB], [];
    }

    /** Subscribe: a channel not subscribed already waits in the inbox. */
    method Subscribe(ch: Chan)
      requires Valid() && ch !in sendCases && ch !in inbox
      modifies this`inbox
      ensures Valid() && inbox == old(inbox) + [ch]
    {
      inbox := inbox + [ch];
    }

    /** remove, of a subscribed channel while no send is in progress. */
    method Unsubscribe(ch: Chan)
      requires Valid() && ch != REMOVE_SUB && (ch in inbox || ch in sendCases)
      modifies this
      ensures Valid()
      ensures forall c :: c in inbox <==> c in old(inbox) && c != ch
      ensures forall c :: c in sendCases <==> c in old(sendCases) && c != ch
    {
      var index := Find(inbox, ch);
      if index != -1 {
        inbox := Delete(inbox, index);
        return;
      }
      index := Find(sendCases, ch);
      sendCases := Delete(sendCases, index);
    }

    /** Inbox traffic of other goroutines; it never touches the send cases. A channel that is no
        send case waits afterwards if it joined and did not leave again, or was there and did
        not leave. */
    method Traffic(events: seq<InboxEvent>)
      requires Valid()
      modifies this`inbox
      ensures Valid()
      ensures forall c :: c in inbox <==>
        c !in sendCases && (JoinsForGood(events, c) || (c in old(inbox) && Leave(c) !in events))
    {
      hide JoinsForGood;
      NoTraffic(events);
      for i := 0 to |events|
        invariant Valid()
        invariant forall c :: c in inbox <==>
          c !in sendCases && (JoinsForGood(events[..i], c) || (c in old(inbox) && Leave(c) !in events[..i]))
      {
        OneMoreInbox(events, i);
        match events[i] {
          case Join(ch) =>
            if ch !in sendCases && ch !in inbox {
              Subscribe(ch);
            }
          case Leave(ch) =>
            var index := Find(inbox, ch);
            if index != -1 {
              inbox := Delete(inbox, index);
            }
        }
      }
    }

    /** The fast path: try every active channel once. */
    method TryAll(ready: set<Chan>, all: bool, active0: nat, ghost held: set<Chan>, ghost delivered0: seq<Chan>,
                  ghost removed: set<Chan>)
      returns (active: nat, n: nat, ghost delivered: seq<Chan>)
      requires Valid() && Sending(held, sendCases, active0, delivered0, removed)
      modifies this`sendCases
      ensures Valid() && Sending(held, sendCases, active, delivered, removed) && n == |delivered| - |delivered0|
      ensures all ==> active == 1
      ensures forall c :: c in delivered <==>
        c in delivered0 || (c in Live(held, delivered0, removed) && (all || c in ready))
    {
      hide Deactivate;
      active, n, delivered := active0, 0, delivered0;
      var i := 1;
      while i < active
        invariant 1 <= i <= active && n == |delivered| - |delivered0| && (all ==> i == 1)
        invariant Sending(held, sendCases, active, delivered, removed) && forall c :: c in inbox ==> c !in sendCases
        invariant forall c :: c in delivered ==>
          c in delivered0 || (c in Live(held, delivered0, removed) && (all || c in ready))
        invariant forall c :: c in delivered0 ==> c in delivered
        invariant forall j :: 1 <= j < i ==> sendCases[j] !in ready
        decreases active - i
      {
        if all || sendCases[i] in ready {
          DeliverStep(held, sendCases, active, delivered, removed, i);
          delivered := delivered + [sendCases[i]];
          n := n + 1;
          sendCases := Deactivate(sendCases, i, active);
          active := active - 1;
        } else {
          i := i + 1;
        }
      }
    }

    /** The slow path: what the select returned with. */
    method HandleWake(wake: Wake, active0: nat, ghost held: set<Chan>, ghost delivered0: seq<Chan>,
                      ghost removed0: set<Chan>)
      returns (active: nat, n: nat, ghost delivered: seq<Chan>, ghost removed: set<Chan>)
      requires Valid() && Sending(held, sendCases, active0, delivered0, removed0) && active0 > 1
      modifies this`sendCases
      ensures Valid() && Sending(held, sendCases, active, delivered, removed) && n == |delivered| - |delivered0|
      ensures removed == match wake
        case Deliver(_) => removed0
        case Remove(ch) => if ch in held then removed0 + {ch} else removed0
      ensures if wake.Deliver? then exists c :: c in Live(held, delivered0, removed0) && delivered == delivered0 + [c]
              else delivered == delivered0
    {
      hide Deactivate, Sending, Live;
      SendingShape(held, sendCases, active0, delivered0, removed0);
      active, n, delivered, removed := active0, 0, delivered0, removed0;
      match wake {
        case Deliver(pick) =>
          var chosen := 1 + pick % (active - 1);
          DeliverStep(held, sendCases, active, delivered, removed, chosen);
          ActiveIsLive(held, sendCases, active, delivered, removed, chosen);
          SameCases(sendCases, Deactivate(sendCases, chosen, active));
          SendingShape(held, Deactivate(sendCases, chosen, active), active - 1, delivered + [sendCases[chosen]],
                       removed);
          delivered := delivered + [sendCases[chosen]];
          sendCases := Deactivate(sendCases, chosen, active);
          active, n := active - 1, 1;
        case Remove(ch) =>
          // only channels among the send cases are still waiting to be removed
          var index := Find(sendCases, ch);
          FoundIsHeld(held, sendCases, active, delivered, removed, index, ch);
          if index >= 1 {
            RemoveStep(held, sendCases, active, delivered, removed, index);
            removed := removed + {ch};
            sendCases := Delete(sendCases, index);
            if index < active {
              active := active - 1;
            }
          }
      }
    }

    /** Send, for any schedule of readiness, wake-ups and inbox traffic; past its end every
        channel has room, so these are all the runs of Send that return. The select returned
        `wakes` times, `lives` are the channels waiting before each round, and the channels
        removed are exactly the held ones the select returned with. */
    method Send(schedule: seq<Round>)
      returns (nsent: nat, ghost delivered: seq<Chan>, ghost removed: set<Chan>, ghost rounds: nat, ghost wakes: nat,
               ghost lives: seq<set<Chan>>)
      requires Valid()
      modifies this
      ensures Valid() && nsent == |delivered| && wakes <= rounds <= |schedule| && rounds == Min(wakes + 1, |schedule|)
      ensures Waiting(schedule, rounds, (set c | c in old(sendCases) + old(inbox)), inbox)
      ensures Sent((set c | c in old(sendCases) + old(inbox)) - {REMOVE_SUB}, sendCases, delivered, removed)
      ensures forall c :: c in removed <==>
        c != REMOVE_SUB && c in old(sendCases) + old(inbox) && Removes(schedule[..wakes], c)
      ensures forall k, c :: 0 <= k < wakes && schedule[k].wake == Remove(c) && c != REMOVE_SUB ==> c !in sendCases
      ensures Rounds(schedule, wakes, (set c | c in old(sendCases) + old(inbox)) - {REMOVE_SUB}, lives)
      ensures wakes < |schedule| ==> lives[wakes] <= schedule[wakes].ready
      ensures forall c :: c in delivered <==>
        c != REMOVE_SUB && c in old(sendCases) + old(inbox) && !TooLate(schedule, wakes, lives, c)
    {
      hide FreeAt, JoinsForGood, Live, Rounds, Served, TooLate, Sending, Sent, Waiting, Removes;
      rounds := 0;
      ghost var members := set c | c in sendCases + inbox;
      NoneWaiting(schedule, members);
      ghost var held := (set c | c in sendCases + inbox) - {REMOVE_SUB};
      Start(held, sendCases, inbox);
      sendCases, inbox := sendCases + inbox, [];
      var active: nat := |sendCases|;
      nsent, delivered, removed := 0, [], {};
      NoneRemoved();
      lives := [held];
      NoRounds(schedule, held);
      var r := 0;
      while true
        invariant 0 <= r <= |schedule| + 1 && Valid() && nsent == |delivered|
          && Sending(held, sendCases, active, delivered, removed)
        invariant r <= |schedule| && rounds == r && Waiting(schedule, rounds, members, inbox)
        invariant forall c :: c in removed <==> c in held && Removes(schedule[..r], c)
        invariant Served(schedule, r, held, lives, delivered, removed)
        decreases |schedule| + 1 - r
      {
        var over := r == |schedule|;
        if !over {
          ghost var before := inbox;
          CasesAre(schedule, r, members, held, sendCases, active, delivered, removed);
          Traffic(schedule[r].traffic);
          StillWaiting(schedule, r, members, sendCases, before, inbox);
          rounds := r + 1;
        }
        var n;
        ghost var d0, rem0 := delivered, removed;
        active, n, delivered := TryAll(if over then {} else schedule[r].ready, over, active, held, delivered, removed);
        nsent := nsent + n;
        ActiveAreLive(held, sendCases, active, delivered, removed);
        if active == 1 {
          ServedEnd(schedule, r, held, lives, d0, delivered, removed);
          break;
        }
        ghost var d1 := delivered;
        AtLeastOne(held, sendCases, active, delivered, removed);
        active, n, delivered, removed := HandleWake(schedule[r].wake, active, held, delivered, removed);
        OneMoreWake(schedule, r);
        ServedStep(schedule, r, held, lives, d0, rem0, d1, delivered, removed);
        lives := lives + [Live(held, delivered, removed)];
        nsent := nsent + n;
        r := r + 1;
      }
      wakes := r;
      AllSent(held, sendCases, delivered, removed);
      RemovedAreGone(schedule, wakes, held, sendCases, delivered, removed);
    }
  }

  /** One round: whoever is ready gets the value, and since some are left, the select delivers
      to one of them or brings an unsubscription. */
  ghost predicate RoundStep(live: set<Chan>, round: Round, live': set<Chan>) {
    var left := live - round.ready;
    && left != {}
    && match round.wake
       case Deliver(_) => exists c :: c in left && live' == left - {c}
       case Remove(c) => live' == left - {c}
  }

  ghost predicate Rounds(schedule: seq<Round>, wakes: nat, held: set<Chan>, lives: seq<set<Chan>>) {
    && wakes <= |schedule| && |lives| == wakes + 1 && lives[0] == held
    && forall r :: 0 <= r < wakes ==> RoundStep(lives[r], schedule[r], lives[r + 1])
  }

  /** `c` was unsubscribed while it was still waiting. */
  ghost predicate TooLate(schedule: seq<Round>, wakes: nat, lives: seq<set<Chan>>, c: Chan) {
    exists k: nat :: k < wakes && k < |schedule| && k < |lives|
      && schedule[k].wake == Remove(c) && c in lives[k] && c !in schedule[k].ready
  }

  ghost predicate Served(schedule: seq<Round>, r: nat, held: set<Chan>, lives: seq<set<Chan>>, delivered: seq<Chan>,
                         removed: set<Chan>) {
    && Rounds(schedule, r, held, lives) && lives[r] == Live(held, delivered, removed)
    && (forall c :: c in delivered ==> c in held) && removed <= held
    && forall c :: c in removed && c !in delivered <==> TooLate(schedule, r, lives, c)
  }

  lemma NoRounds(schedule: seq<Round>, held: set<Chan>)
    ensures Served(schedule, 0, held, [held], [], {})
  {
  }

  lemma ServedStep(schedule: seq<Round>, r: nat, held: set<Chan>, lives: seq<set<Chan>>, d0: seq<Chan>,
                   rem0: set<Chan>, d1: seq<Chan>, d2: seq<Chan>, rem2: set<Chan>)
    requires r < |schedule| && Served(schedule, r, held, lives, d0, rem0) && Live(held, d1, rem0) != {}
    requires forall c :: c in d1 <==> c in d0 || (c in Live(held, d0, rem0) && c in schedule[r].ready)
    requires match schedule[r].wake
      case Deliver(_) => rem2 == rem0 && exists c :: c in Live(held, d1, rem0) && d2 == d1 + [c]
      case Remove(ch) => d2 == d1 && rem2 == if ch in held then rem0 + {ch} else rem0
    ensures Served(schedule, r + 1, held, lives + [Live(held, d2, rem2)], d2, rem2)
  {
    var live' := Live(held, d2, rem2);
    var lives' := lives + [live'];
    LivesStep(lives[r], schedule[r], held, d0, rem0, d1, d2, rem2);
    forall k | 0 <= k < r + 1 ensures RoundStep(lives'[k], schedule[k], lives'[k + 1]) {
      if k < r { assert RoundStep(lives[k], schedule[k], lives[k + 1]); }
    }
    forall c ensures c in rem2 && c !in d2 <==> TooLate(schedule, r + 1, lives', c) {
      LateStep(schedule, r, lives, live', c);
    }
  }

  lemma LivesStep(live: set<Chan>, round: Round, held: set<Chan>, d0: seq<Chan>, rem0: set<Chan>, d1: seq<Chan>,
                  d2: seq<Chan>, rem2: set<Chan>)
    requires live == Live(held, d0, rem0) && Live(held, d1, rem0) != {}
    requires forall c :: c in d1 <==> c in d0 || (c in live && c in round.ready)
    requires match round.wake
      case Deliver(_) => rem2 == rem0 && exists c :: c in Live(held, d1, rem0) && d2 == d1 + [c]
      case Remove(ch) => d2 == d1 && rem2 == if ch in held then rem0 + {ch} else rem0
    ensures Live(held, d1, rem0) == live - round.ready && RoundStep(live, round, Live(held, d2, rem2))
  {
    var left := live - round.ready;
    assert Live(held, d1, rem0) == left;
    match round.wake {
      case Deliver(_) =>
        var c :| c in left && d2 == d1 + [c];
        assert Live(held, d2, rem2) == left - {c};
      case Remove(ch) =>
        assert Live(held, d2, rem2) == left - {ch};
    }
  }

  lemma LateStep(schedule: seq<Round>, r: nat, lives: seq<set<Chan>>, live': set<Chan>, c: Chan)
    requires r < |schedule| && |lives| == r + 1
    ensures TooLate(schedule, r + 1, lives + [live'], c) <==>
      TooLate(schedule, r, lives, c) || (schedule[r].wake == Remove(c) && c in lives[r] && c !in schedule[r].ready)
  {
    var lives' := lives + [live'];
    if k: nat :| k < r && schedule[k].wake == Remove(c) && c in lives[k] && c !in schedule[k].ready {
      assert lives'[k] == lives[k];
    }
    assert lives'[r] == lives[r];
  }

  lemma ServedEnd(schedule: seq<Round>, r: nat, held: set<Chan>, lives: seq<set<Chan>>, d0: seq<Chan>, d1: seq<Chan>,
                  removed: set<Chan>)
    requires Served(schedule, r, held, lives, d0, removed) && Live(held, d1, removed) == {}
    requires forall c :: c in d1 <==>
      c in d0 || (c in Live(held, d0, removed) && (r == |schedule| || c in schedule[r].ready))
    ensures Rounds(schedule, r, held, lives) && (r < |schedule| ==> lives[r] <= schedule[r].ready)
    ensures forall c :: c in d1 <==> c in held && !TooLate(schedule, r, lives, c)
  {
    hide TooLate;
    forall c | c in lives[r] && r < |schedule| ensures c in schedule[r].ready {
      assert c !in Live(held, d1, removed);
    }
    forall c ensures c in d1 <==> c in held && !TooLate(schedule, r, lives, c) {
      assert c !in Live(held, d1, removed);
    }
  }

  /** The channel was ready in one of the first `fast` rounds, or one of the first `slow`
      selects delivered to somebody. */
  ghost predicate Offered(schedule: seq<Round>, fast: nat, slow: nat, c: Chan) {
    || (exists k: nat :: k < fast && k < |schedule| && c in schedule[k].ready)
    || (exists k: nat :: k < slow && k < |schedule| && schedule[k].wake.Deliver?)
  }

  /** Nobody leaves the waiting ones for any other reason. */
  lemma {:induction false} StillLive(schedule: seq<Round>, wakes: nat, held: set<Chan>, lives: seq<set<Chan>>, c: Chan,
                                     r: nat)
    requires Rounds(schedule, wakes, held, lives) && r <= wakes && c in held
    requires !TooLate(schedule, wakes, lives, c) && !Offered(schedule, wakes, wakes, c)
    ensures c in lives[r]
    decreases r
  {
    if r > 0 {
      StillLive(schedule, wakes, held, lives, c, r - 1);
      assert RoundStep(lives[r - 1], schedule[r - 1], lives[r]);
    }
  }

  /** A send that ends within its schedule delivers to no channel that was not offered to. */
  lemma DeliveredWereOffered(schedule: seq<Round>, wakes: nat, held: set<Chan>, lives: seq<set<Chan>>, c: Chan)
    requires Rounds(schedule, wakes, held, lives) && wakes < |schedule| && lives[wakes] <= schedule[wakes].ready
    requires c in held && !TooLate(schedule, wakes, lives, c)
    ensures Offered(schedule, wakes + 1, wakes, c)
  {
    if !Offered(schedule, wakes, wakes, c) {
      StillLive(schedule, wakes, held, lives, c, wakes);
      assert c in schedule[wakes].ready;
    }
  }

  function Min(a: nat, b: nat): nat { if a < b then a else b }

  /** One of these rounds ends with the removal of `c`. */
  ghost predicate Removes(rounds: seq<Round>, c: Chan) {
    exists r :: 0 <= r < |rounds| && rounds[r].wake == Remove(c)
  }

  lemma NoneRemoved()
    ensures forall c :: !Removes([], c)
  {
  }

  lemma OneMoreWake(schedule: seq<Round>, r: nat)
    requires r < |schedule|
    ensures forall c :: Removes(schedule[..r + 1], c) <==> Removes(schedule[..r], c) || schedule[r].wake == Remove(c)
  {
    var s, t := schedule[..r], schedule[..r + 1];
    assert t == s + [schedule[r]];
    forall c ensures Removes(t, c) <==> Removes(s, c) || schedule[r].wake == Remove(c) {
      if k :| 0 <= k < |s| && s[k].wake == Remove(c) { assert t[k].wake == Remove(c); }
      if schedule[r].wake == Remove(c) { assert t[r].wake == Remove(c); }
    }
  }

  /** A channel that the select returned with is no longer among the cases. */
  lemma RemovedAreGone(schedule: seq<Round>, wakes: nat, held: set<Chan>, cs: seq<Chan>, delivered: seq<Chan>,
                       removed: set<Chan>)
    requires wakes <= |schedule| && Sent(held, cs, delivered, removed)
    requires forall c :: c in removed <==> c in held && Removes(schedule[..wakes], c)
    ensures forall k, c :: 0 <= k < wakes && schedule[k].wake == Remove(c) && c != REMOVE_SUB ==> c !in cs
  {
    forall k, c | 0 <= k < wakes && schedule[k].wake == Remove(c) && c != REMOVE_SUB ensures c !in cs {
      assert schedule[..wakes][k].wake == Remove(c);
      assert Removes(schedule[..wakes], c);
    }
  }

  lemma Start(held: set<Chan>, cs: seq<Chan>, inbox: seq<Chan>)
    requires cs != [] && cs[0] == REMOVE_SUB && NoDup(cs) && NoDup(inbox) && (forall c :: c in inbox ==> c !in cs)
    requires held == (set c | c in cs + inbox) - {REMOVE_SUB}
    ensures Sending(held, cs + inbox, |cs + inbox|, [], {}) && NoDup(cs + inbox)
  {
    var all := cs + inbox;
    assert all[0] in all;
    forall i, j | 0 <= i < j < |all| ensures all[i] != all[j] {
      if i < |cs| <= j { assert all[j] in inbox; }
    }
  }

  // ---------------------------------------------------------------------
  // The inbox during a send

  /** `c` joins and does not leave afterwards. */
  ghost predicate JoinsForGood(events: seq<InboxEvent>, c: Chan) {
    exists i: nat :: JoinsAt(events, i, c)
  }

  ghost predicate JoinsAt(events: seq<InboxEvent>, i: nat, c: Chan) {
    i < |events| && events[i] == Join(c) && forall j :: i < j < |events| ==> events[j] != Leave(c)
  }

  lemma NoTraffic(events: seq<InboxEvent>)
    ensures events[..0] == [] && events[..|events|] == events && forall c :: !JoinsForGood([], c)
  {
  }

  lemma OneMoreInbox(events: seq<InboxEvent>, i: nat)
    requires i < |events|
    ensures forall e :: e in events[..i + 1] <==> e in events[..i] || e == events[i]
    ensures forall c :: JoinsForGood(events[..i + 1], c) <==>
      events[i] == Join(c) || (JoinsForGood(events[..i], c) && events[i] != Leave(c))
  {
    hide JoinsForGood;
    assert events[..i + 1] == events[..i] + [events[i]];
    forall c ensures JoinsForGood(events[..i + 1], c) <==>
      events[i] == Join(c) || (JoinsForGood(events[..i], c) && events[i] != Leave(c))
    {
      JoinsNext(events[..i], events[i], c);
    }
  }

  lemma JoinsNext(s: seq<InboxEvent>, e: InboxEvent, c: Chan)
    ensures JoinsForGood(s + [e], c) <==> e == Join(c) || (JoinsForGood(s, c) && e != Leave(c))
  {
    var t := s + [e];
    if e == Join(c) { assert JoinsAt(t, |s|, c); }
    if JoinsForGood(s, c) && e != Leave(c) {
      var k: nat :| JoinsAt(s, k, c);
      assert JoinsAt(t, k, c);
    }
    if JoinsForGood(t, c) && e != Join(c) {
      var k: nat :| JoinsAt(t, k, c);
      assert t[|s|] == e && k < |s|;
      forall j | k < j < |s| ensures s[j] != Leave(c) { assert t[j] == s[j]; }
      assert JoinsAt(s, k, c);
    }
  }

  /** `c` is no send case before round `r`: it was not held, or it has been removed. */
  ghost predicate FreeAt(schedule: seq<Round>, members: set<Chan>, r: nat, c: Chan)
    requires r <= |schedule|
  {
    c !in members || (c != REMOVE_SUB && Removes(schedule[..r], c))
  }

  /** `c` joins for good in round `r`. */
  ghost predicate StaysFrom(schedule: seq<Round>, rounds: nat, members: set<Chan>, r: nat, c: Chan) {
    && r < rounds <= |schedule| && FreeAt(schedule, members, r, c) && JoinsForGood(schedule[r].traffic, c)
    && forall q :: r < q < rounds ==> Leave(c) !in schedule[q].traffic
  }

  /** The inbox holds exactly the channels that joined for good in these rounds. */
  ghost predicate Waiting(schedule: seq<Round>, rounds: nat, members: set<Chan>, inbox: seq<Chan>) {
    forall c :: c in inbox <==> exists r: nat :: StaysFrom(schedule, rounds, members, r, c)
  }

  lemma NoneWaiting(schedule: seq<Round>, members: set<Chan>)
    ensures Waiting(schedule, 0, members, [])
  {
  }

  lemma StillWaiting(schedule: seq<Round>, r: nat, members: set<Chan>, cs: seq<Chan>, before: seq<Chan>,
                     after: seq<Chan>)
    requires r < |schedule| && Waiting(schedule, r, members, before)
    requires forall c :: c in cs <==> !FreeAt(schedule, members, r, c)
    requires forall c :: c in before ==> c !in cs
    requires forall c :: c in after <==>
      c !in cs && (JoinsForGood(schedule[r].traffic, c) || (c in before && Leave(c) !in schedule[r].traffic))
    ensures Waiting(schedule, r + 1, members, after)
  {
    hide JoinsForGood, FreeAt;
    var n := r + 1;
    forall c ensures c in after <==> exists q: nat :: StaysFrom(schedule, n, members, q, c) {
      if c in after {
        if JoinsForGood(schedule[r].traffic, c) {
          assert StaysFrom(schedule, n, members, r, c);
        } else {
          var q: nat :| StaysFrom(schedule, r, members, q, c);
          assert StaysFrom(schedule, n, members, q, c);
        }
      }
      if q: nat :| StaysFrom(schedule, n, members, q, c) {
        if q < r {
          assert StaysFrom(schedule, r, members, q, c);
          assert c in before;
        }
      }
    }
  }

  lemma CasesAre(schedule: seq<Round>, r: nat, members: set<Chan>, held: set<Chan>, cs: seq<Chan>, active: nat,
                 delivered: seq<Chan>, removed: set<Chan>)
    requires r <= |schedule| && Sending(held, cs, active, delivered, removed)
    requires REMOVE_SUB in members && held == members - {REMOVE_SUB}
    requires forall c :: c in removed <==> c in held && Removes(schedule[..r], c)
    ensures forall c :: c in cs <==> !FreeAt(schedule, members, r, c)
  {
    hide Removes;
  }

  lemma AtLeastOne(held: set<Chan>, cs: seq<Chan>, active: nat, delivered: seq<Chan>, removed: set<Chan>)
    requires Sending(held, cs, active, delivered, removed)
    ensures active >= 1
  {
  }
}

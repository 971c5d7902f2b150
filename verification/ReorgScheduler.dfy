/** core/tx_pool.go, scheduleReorgLoop: the event loop that batches reset and promotion
    requests into background runs, as a state machine over the events it selects on. */
module ReorgScheduler {
  import opened Transactions

  type Head = nat
  type Chan = nat

  datatype Reset = Reset(oldHead: Head, newHead: Head)

  /** The local variables of scheduleReorgLoop. */
  datatype Loop = Loop(curDone: Option<Chan>, nextDone: Chan, launchNextRun: bool,
                       reset: Option<Reset>, dirty: Option<set<Address>>)

  /** A launched run, with the positions in the head history that its reset spans. */
  datatype Run = Run(done: Chan, reset: Option<Reset>, dirty: set<Address>, lo: nat, hi: nat)

  /** A request, with the channel its requester was given to wait on. */
  datatype Request = HeadRequest(pos: nat, ch: Chan) | PromoteRequest(accounts: set<Address>, ch: Chan)

  /** The loop with its history: the heads announced to it (the first is where it started),
      the requests, the runs launched, the channels closed, and how far resets have got. */
  datatype World = World(loop: Loop, heads: seq<Head>, requests: seq<Request>, runs: seq<Run>,
                         closed: set<Chan>, sent: nat, stopped: bool)

  datatype Event = NewHead(head: Head)            // requestReset from the chain head loop
                 | Promote(accounts: set<Address>) // requestPromoteExecutables
                 | RunEnds                         // runReorg closes its done channel
                 | SeeDone                         // the loop receives from curDone
                 | Shutdown

  function Init(head: Head): World {
    World(Loop(None, 0, false, None, None), [head], [], [], {}, 0, false)
  }

  /** The check at the top of the loop: launch the next run if none is active. */
  function Launch(w: World): World
    requires w.heads != []
  {
    var l := w.loop;
    if l.curDone.None? && l.launchNextRun then
      var run := Run(l.nextDone, l.reset, if l.dirty.Some? then l.dirty.value else {}, w.sent,
                     if l.reset.Some? then |w.heads| - 1 else w.sent);
      w.(loop := Loop(Some(l.nextDone), l.nextDone + 1, false, None, None), runs := w.runs + [run], sent := run.hi)
    else w
  }

  /** The body of the select for one event; an event that cannot happen changes nothing. */
  function Select(w: World, e: Event): World
    requires w.heads != []
  {
    var l := w.loop;
    if w.stopped then w else
    match e
    case NewHead(head) =>
      var req := Reset(w.heads[|w.heads| - 1], head);
      w.(loop := l.(reset := Some(if l.reset.None? then req else l.reset.value.(newHead := req.newHead)),
                    launchNextRun := true),
         heads := w.heads + [head],
         requests := w.requests + [HeadRequest(|w.heads|, l.nextDone)])
    case Promote(accounts) =>
      w.(loop := l.(dirty := Some(if l.dirty.None? then accounts else l.dirty.value + accounts), launchNextRun := true),
         requests := w.requests + [PromoteRequest(accounts, l.nextDone)])
    case RunEnds =>
      if l.curDone.Some? then w.(closed := w.closed + {l.curDone.value}) else w
    case SeeDone =>
      if l.curDone.Some? && l.curDone.value in w.closed then w.(loop := l.(curDone := None)) else w
    case Shutdown =>
      if l.curDone.Some? && l.curDone.value !in w.closed then w
      else w.(closed := w.closed + {l.nextDone}, stopped := true)
  }

  function Step(w: World, e: Event): World
    requires w.heads != []
  {
    var v := Select(w, e);
    if v.stopped then v else Launch(v)
  }

  function Execute(head: Head, events: seq<Event>): (w: World)
    ensures w.heads != []
  {
    if events == [] then Init(head)
    else
      var w := Execute(head, events[..|events| - 1]);
      Step(w, events[|events| - 1])
  }

  // ---------------------------------------------------------------------
  // What holds in every run

  /** A request is served by a run that was handed its channel. */
  ghost predicate Carries(run: Run, r: Request) {
    && run.done == r.ch
    && match r
       case HeadRequest(pos, ch) => run.reset.Some? && run.lo < pos <= run.hi
       case PromoteRequest(accounts, ch) => accounts <= run.dirty
  }

  /** Some promotion request with channel `c` names account `a`. */
  ghost predicate Names(requests: seq<Request>, c: Chan, a: Address) {
    exists k :: 0 <= k < |requests| && requests[k].PromoteRequest? && requests[k].ch == c && a in requests[k].accounts
  }

  ghost predicate HeadAsked(requests: seq<Request>, c: Chan) {
    exists k :: 0 <= k < |requests| && requests[k].HeadRequest? && requests[k].ch == c
  }

  ghost predicate Asked(requests: seq<Request>, c: Chan) {
    exists k :: 0 <= k < |requests| && requests[k].ch == c
  }

  /** A run does what was asked for on its channel and nothing else. */
  ghost predicate DoesAsked(requests: seq<Request>, run: Run) {
    && Asked(requests, run.done)
    && (run.reset.Some? <==> HeadAsked(requests, run.done))
    && forall a: Address :: a in run.dirty <==> Names(requests, run.done, a)
  }

  ghost predicate RunsDoAsked(w: World) {
    forall i :: 0 <= i < |w.runs| ==> DoesAsked(w.requests, w.runs[i])
  }

  /** The loop stops only between runs, and then nobody is left waiting. */
  ghost predicate StopsIdle(w: World) {
    && (w.stopped ==> forall i: nat :: !Active(w, i))
    && (w.stopped ==> w.loop.nextDone in w.closed)
  }

  ghost predicate StopReleases(w: World) {
    w.stopped ==> forall k :: 0 <= k < |w.requests| ==> w.requests[k].ch in w.closed
  }

  /** The channel of a run that has been launched and has not finished. */
  ghost predicate Active(w: World, i: nat) {
    i < |w.runs| && w.runs[i].done !in w.closed
  }

  /** At most one run is active, and it is the last one launched. */
  ghost predicate AtMostOneActive(w: World) {
    forall i: nat :: Active(w, i) ==> i == |w.runs| - 1 && w.loop.curDone == Some(w.runs[i].done)
  }

  /** A requester whose channel is closed has been served by a run that has ended, unless the
      channel was closed by shutdown. */
  ghost predicate ClosedMeansServed(w: World) {
    forall k ::
      (0 <= k < |w.requests| && w.requests[k].ch in w.closed
       && !(w.stopped && w.requests[k].ch == w.loop.nextDone)) ==>
        exists i: nat :: Ended(w, i) && Carries(w.runs[i], w.requests[k])
  }

  ghost predicate Ended(w: World, i: nat) {
    i < |w.runs| && w.runs[i].done in w.closed
  }

  /** The resets of successive runs cover the head history without gap or overlap: each run
      picks up where the runs before it stopped, and the announced heads not yet covered are
      exactly those of the reset waiting for the next run. */
  ghost predicate ResetsChain(w: World) {
    && (forall i: nat :: i < |w.runs| ==> Linked(w.heads, w.runs, i))
    && w.sent == Covered(w.runs, |w.runs|) < |w.heads|
    && (if w.loop.reset.Some? then w.loop.reset.value == Reset(w.heads[w.sent], w.heads[|w.heads| - 1])
        && w.sent < |w.heads| - 1
        else w.sent == |w.heads| - 1)
  }

  /** How far the first `i` runs have taken the heads. */
  function Covered(runs: seq<Run>, i: nat): nat
    requires i <= |runs|
  {
    if i == 0 then 0 else runs[i - 1].hi
  }

  ghost predicate Linked(heads: seq<Head>, runs: seq<Run>, i: nat)
    requires i < |runs|
  {
    var r := runs[i];
    && r.lo == Covered(runs, i) && r.lo <= r.hi < |heads|
    && (if r.reset.Some? then r.reset.value == Reset(heads[r.lo], heads[r.hi]) && r.lo < r.hi else r.lo == r.hi)
  }

  // ---------------------------------------------------------------------
  // The inductive invariant

  /** Channels are handed out in order, one per run; only the last may still be open. */
  ghost predicate Channels(w: World) {
    && w.loop.nextDone == |w.runs|
    && (forall i :: 0 <= i < |w.runs| ==> w.runs[i].done == i)
    && (forall c :: c in w.closed ==> c < |w.runs| || (w.stopped && c == |w.runs|))
    && (forall i :: 0 <= i < |w.runs| - 1 ==> i in w.closed)
    && (match w.loop.curDone
        case Some(c) => |w.runs| > 0 && c == |w.runs| - 1
        case None => |w.runs| > 0 ==> |w.runs| - 1 in w.closed)
    && (w.stopped || w.loop.curDone.Some? || !w.loop.launchNextRun)
  }

  /** Every request is either carried by the run of its channel or still collected for the next. */
  ghost predicate Collected(w: World) {
    forall k :: 0 <= k < |w.requests| ==> Placed(w, w.requests[k])
  }

  ghost predicate Placed(w: World, r: Request) {
    if r.ch < |w.runs| then Carries(w.runs[r.ch], r)
    else
      && r.ch == |w.runs| && w.loop.launchNextRun
      && match r
         case HeadRequest(pos, ch) => w.loop.reset.Some? && w.sent < pos < |w.heads|
         case PromoteRequest(accounts, ch) => w.loop.dirty.Some? && accounts <= w.loop.dirty.value
  }

  /** What the loop has collected for the next run. */
  ghost predicate Collecting(w: World) {
    && (w.loop.launchNextRun <==> Asked(w.requests, |w.runs|))
    && (w.loop.reset.Some? <==> HeadAsked(w.requests, |w.runs|))
    && forall a: Address :: w.loop.dirty.Some? && a in w.loop.dirty.value <==> Names(w.requests, |w.runs|, a)
  }

  ghost predicate Exact(w: World) {
    && RunsDoAsked(w) && Collecting(w)
    && forall k :: 0 <= k < |w.requests| ==> w.requests[k].ch <= |w.runs|
  }

  lemma InitExact(head: Head)
    ensures Exact(Init(head))
  {
  }

  lemma OneMoreRequest(requests: seq<Request>, r: Request, c: Chan)
    ensures Asked(requests + [r], c) <==> Asked(requests, c) || r.ch == c
    ensures HeadAsked(requests + [r], c) <==> HeadAsked(requests, c) || (r.HeadRequest? && r.ch == c)
    ensures forall a: Address :: Names(requests + [r], c, a) <==>
      Names(requests, c, a) || (r.PromoteRequest? && r.ch == c && a in r.accounts)
  {
    var rs := requests + [r];
    assert rs[|requests|] == r && forall k :: 0 <= k < |requests| ==> rs[k] == requests[k];
    if Asked(requests, c) {
      var k :| 0 <= k < |requests| && requests[k].ch == c;
      assert rs[k].ch == c;
    }
    if HeadAsked(requests, c) {
      var k :| 0 <= k < |requests| && requests[k].HeadRequest? && requests[k].ch == c;
      assert rs[k].HeadRequest?;
    }
    forall a: Address | Names(requests, c, a) ensures Names(rs, c, a) {
      var k :| 0 <= k < |requests| && requests[k].PromoteRequest? && requests[k].ch == c && a in requests[k].accounts;
      assert rs[k].PromoteRequest?;
    }
  }

  lemma SelectExact(w: World, e: Event)
    requires w.heads != [] && !w.stopped && Exact(w) && w.loop.nextDone == |w.runs|
    requires forall i :: 0 <= i < |w.runs| ==> w.runs[i].done == i
    ensures Exact(Select(w, e))
  {
    hide Names, HeadAsked, Asked;
    var v := Select(w, e);
    if v.requests != w.requests {
      var r := v.requests[|w.requests|];
      assert v.requests == w.requests + [r];
      forall c: Chan
        ensures Asked(v.requests, c) <==> Asked(w.requests, c) || r.ch == c
        ensures HeadAsked(v.requests, c) <==> HeadAsked(w.requests, c) || (r.HeadRequest? && r.ch == c)
        ensures forall a: Address :: Names(v.requests, c, a) <==>
          Names(w.requests, c, a) || (r.PromoteRequest? && r.ch == c && a in r.accounts)
      {
        OneMoreRequest(w.requests, r, c);
      }
      forall i | 0 <= i < |v.runs| ensures DoesAsked(v.requests, v.runs[i]) {
        assert DoesAsked(w.requests, w.runs[i]);
      }
    }
  }

  lemma LaunchExact(w: World)
    requires w.heads != [] && Exact(w) && w.loop.nextDone == |w.runs|
    ensures Exact(Launch(w))
  {
    var v := Launch(w);
    if w.loop.curDone.None? && w.loop.launchNextRun {
      forall i | 0 <= i < |v.runs| ensures DoesAsked(v.requests, v.runs[i]) {
        if i < |w.runs| { assert DoesAsked(w.requests, w.runs[i]); }
      }
    }
  }

  ghost predicate Inv(w: World) {
    w.heads != [] && Channels(w) && Collected(w) && ResetsChain(w) && (w.loop.reset.Some? ==> w.loop.launchNextRun)
  }

  lemma InitInv(head: Head)
    ensures Inv(Init(head))
  {
  }

  /** Inv but for the launch check that the loop makes before it selects again. */
  ghost predicate MidInv(w: World) {
    && w.heads != [] && Collected(w) && ResetsChain(w) && (w.loop.reset.Some? ==> w.loop.launchNextRun)
    && Channels(w.(loop := w.loop.(launchNextRun := false)))
  }

  lemma SelectKeeps(w: World, e: Event)
    requires Inv(w) && !w.stopped
    ensures MidInv(Select(w, e))
    ensures Select(w, e).stopped ==> Inv(Select(w, e))
  {
    var v := Select(w, e);
    CollectedKept(w, e);
    ChainKept(w, e);
    assert Channels(v.(loop := v.loop.(launchNextRun := false)));
  }

  lemma CollectedKept(w: World, e: Event)
    requires Inv(w) && !w.stopped
    ensures Collected(Select(w, e))
  {
    var v := Select(w, e);
    forall k | 0 <= k < |v.requests| ensures Placed(v, v.requests[k]) {
      if k < |w.requests| { assert Placed(w, w.requests[k]); }
    }
  }

  lemma ChainKept(w: World, e: Event)
    requires ResetsChain(w) && w.heads != [] && !w.stopped
    ensures ResetsChain(Select(w, e))
  {
    var v := Select(w, e);
    forall i: nat | i < |v.runs| ensures Linked(v.heads, v.runs, i) {
      assert Linked(w.heads, w.runs, i);
    }
  }

  lemma LaunchKeeps(w: World)
    requires MidInv(w) && !w.stopped
    ensures Inv(Launch(w))
  {
    var l := w.loop;
    if l.curDone.None? && l.launchNextRun {
      LaunchCollected(w);
      LaunchChains(w);
      LaunchChannels(w);
    } else {
      assert Launch(w) == w;
    }
  }

  lemma LaunchCollected(w: World)
    requires MidInv(w) && !w.stopped && w.loop.curDone.None? && w.loop.launchNextRun
    ensures Collected(Launch(w))
  {
    var v := Launch(w);
    forall k | 0 <= k < |v.requests| ensures Placed(v, v.requests[k]) {
      assert Placed(w, w.requests[k]);
    }
  }

  lemma LaunchChannels(w: World)
    requires MidInv(w) && !w.stopped && w.loop.curDone.None? && w.loop.launchNextRun
    ensures Channels(Launch(w))
  {
    hide Collected, ResetsChain;
  }

  lemma LaunchChains(w: World)
    requires MidInv(w) && !w.stopped && w.loop.curDone.None? && w.loop.launchNextRun
    ensures ResetsChain(Launch(w))
  {
    hide Collected, Channels;
    var v := Launch(w);
    forall i: nat | i < |v.runs| ensures Linked(v.heads, v.runs, i) {
      if i < |w.runs| { assert Linked(w.heads, w.runs, i); }
    }
  }

  lemma StepKeeps(w: World, e: Event)
    requires Inv(w)
    ensures Inv(Step(w, e))
  {
    if !w.stopped {
      SelectKeeps(w, e);
      if !Select(w, e).stopped { LaunchKeeps(Select(w, e)); }
    }
  }

  lemma {:induction false} ExecuteKeeps(head: Head, events: seq<Event>)
    ensures Inv(Execute(head, events))
  {
    if events == [] {
      InitInv(head);
    } else {
      ExecuteKeeps(head, events[..|events| - 1]);
      StepKeeps(Execute(head, events[..|events| - 1]), events[|events| - 1]);
    }
  }

  lemma {:induction false} ExecuteExact(head: Head, events: seq<Event>)
    ensures Exact(Execute(head, events)) && StopsIdle(Execute(head, events))
  {
    hide Exact, Select, Launch;
    if events == [] {
      InitExact(head);
    } else {
      var before, e := events[..|events| - 1], events[|events| - 1];
      ExecuteExact(head, before);
      ExecuteKeeps(head, before);
      StepExact(Execute(head, before), e);
    }
  }

  lemma StepExact(w: World, e: Event)
    requires Inv(w) && Exact(w) && StopsIdle(w)
    ensures Exact(Step(w, e)) && StopsIdle(Step(w, e))
  {
    hide Exact, Collected, ResetsChain;
    if !w.stopped {
      SelectExact(w, e);
      if !Select(w, e).stopped { LaunchExact(Select(w, e)); }
    }
  }

  /** In every run of the scheduler at most one reorg is active and none when it stops, a closed
      channel means the request was served, resets chain from head to head without a gap, and
      each run does exactly what was asked for on its channel. */
  lemma EveryRun(head: Head, events: seq<Event>)
    ensures var w := Execute(head, events);
      && AtMostOneActive(w) && StopsIdle(w) && StopReleases(w)
      && ClosedMeansServed(w) && ResetsChain(w) && RunsDoAsked(w)
  {
    hide Execute;
    var w := Execute(head, events);
    ExecuteKeeps(head, events);
    ExecuteExact(head, events);
    OneActive(w);
    Served(w);
    Released(w);
  }

  lemma Released(w: World)
    requires Channels(w) && StopsIdle(w) && forall k :: 0 <= k < |w.requests| ==> w.requests[k].ch <= |w.runs|
    ensures StopReleases(w)
  {
    if w.stopped {
      forall k | 0 <= k < |w.requests| ensures w.requests[k].ch in w.closed {
        if w.requests[k].ch < |w.runs| { assert !Active(w, w.requests[k].ch); }
      }
    }
  }

  // ---------------------------------------------------------------------
  // Nothing is ignored

  /** The heads announced by the events, in order. */
  function Announced(events: seq<Event>): seq<Head> {
    if events == [] then []
    else
      var e := events[|events| - 1];
      Announced(events[..|events| - 1]) + if e.NewHead? then [e.head] else []
  }

  /** The requests made by the events, a head request as nothing. */
  function Made(events: seq<Event>): seq<Option<set<Address>>> {
    if events == [] then []
    else
      var e := events[|events| - 1];
      Made(events[..|events| - 1])
        + if e.NewHead? then [None] else if e.Promote? then [Some(e.accounts)] else []
  }

  ghost predicate Matches(requests: seq<Request>, made: seq<Option<set<Address>>>) {
    && |requests| == |made|
    && forall k :: 0 <= k < |made| ==>
         match made[k]
         case None => requests[k].HeadRequest?
         case Some(accounts) => requests[k].PromoteRequest? && requests[k].accounts == accounts
  }

  /** Until a shutdown takes effect every event is heard: heads and requests are those of the
      events. Afterwards nothing changes. */
  lemma {:induction false} EveryEventHeard(head: Head, events: seq<Event>) returns (n: nat)
    ensures n <= |events| && (n < |events| ==> events[n] == Shutdown)
    ensures var w := Execute(head, events);
      && w.heads == [head] + Announced(events[..n]) && Matches(w.requests, Made(events[..n]))
      && (w.stopped <==> n < |events|)
  {
    hide Launch;
    if events == [] {
      n := 0;
    } else {
      var k := |events| - 1;
      var before, w := events[..k], Execute(head, events[..k]);
      n := EveryEventHeard(head, before);
      assert before[..n] == events[..n];
      HeardStep(w, events[k]);
      if !w.stopped && !(events[k].Shutdown? && Step(w, events[k]).stopped) {
        n := |events|;
        assert events[..n] == events && before[..k] == before;
      }
    }
  }

  lemma HeardStep(w: World, e: Event)
    requires w.heads != []
    ensures var v := Step(w, e);
      && (w.stopped ==> v == w) && (v.stopped && !w.stopped ==> e == Shutdown)
      && v.heads == w.heads + (if !w.stopped && e.NewHead? then [e.head] else [])
      && |v.requests| == |w.requests| + (if !w.stopped && (e.NewHead? || e.Promote?) then 1 else 0)
      && (forall k :: 0 <= k < |w.requests| ==> v.requests[k] == w.requests[k])
      && (!w.stopped && e.NewHead? ==> v.requests[|w.requests|].HeadRequest?)
      && (!w.stopped && e.Promote? ==>
          v.requests[|w.requests|].PromoteRequest? && v.requests[|w.requests|].accounts == e.accounts)
  {
  }

  /** The loop moves on: once the active run has ended and that has been seen, every request
      made so far has been handed to a run. */
  lemma ServedNext(head: Head, events: seq<Event>)
    ensures var w, v := Execute(head, events), Execute(head, events + [RunEnds] + [SeeDone]);
      !w.stopped ==>
        v.requests == w.requests && forall k :: 0 <= k < |v.requests| ==>
          v.requests[k].ch < |v.runs| && Carries(v.runs[v.requests[k].ch], v.requests[k])
  {
    hide Execute, ResetsChain;
    var es1, es2 := events + [RunEnds], events + [RunEnds] + [SeeDone];
    var w, v1, v := Execute(head, events), Execute(head, es1), Execute(head, es2);
    OneMoreEvent(head, events, RunEnds);
    OneMoreEvent(head, es1, SeeDone);
    ExecuteKeeps(head, events);
    ExecuteKeeps(head, es1);
    ExecuteKeeps(head, es2);
    ExecuteExact(head, es2);
    if !w.stopped {
      HandedOver(w);
      forall k | 0 <= k < |v.requests| ensures v.requests[k].ch < |v.runs|
        && Carries(v.runs[v.requests[k].ch], v.requests[k]) {
        assert Placed(v, v.requests[k]);
      }
    }
  }

  lemma OneMoreEvent(head: Head, events: seq<Event>, e: Event)
    ensures Execute(head, events + [e]) == Step(Execute(head, events), e)
  {
    assert (events + [e])[..|events|] == events;
  }

  lemma HandedOver(w: World)
    requires Inv(w) && !w.stopped
    ensures var v := Step(Step(w, RunEnds), SeeDone); !v.loop.launchNextRun && v.requests == w.requests
  {
    hide Collected, ResetsChain;
  }

  lemma OneActive(w: World)
    requires Channels(w)
    ensures AtMostOneActive(w)
  {
  }

  lemma Served(w: World)
    requires Channels(w) && Collected(w)
    ensures ClosedMeansServed(w)
  {
    forall k | 0 <= k < |w.requests| && w.requests[k].ch in w.closed
      && !(w.stopped && w.requests[k].ch == w.loop.nextDone)
      ensures exists i: nat :: Ended(w, i) && Carries(w.runs[i], w.requests[k])
    {
      assert Placed(w, w.requests[k]);
      assert Ended(w, w.requests[k].ch);
    }
  }

  /** No request is lost: once the loop is idle, every request has been handed to a run and
      the resets have reached the latest head. */
  lemma IdleMeansServed(head: Head, events: seq<Event>)
    ensures var w := Execute(head, events);
      !w.stopped && w.loop.curDone.None? ==>
        && w.sent == |w.heads| - 1
        && forall k :: 0 <= k < |w.requests| ==>
           w.requests[k].ch < |w.runs| && Carries(w.runs[w.requests[k].ch], w.requests[k])
  {
    hide Execute, ResetsChain;
    var w := Execute(head, events);
    ExecuteKeeps(head, events);
    if !w.stopped && w.loop.curDone.None? {
      IdleReached(w);
      forall k | 0 <= k < |w.requests| ensures w.requests[k].ch < |w.runs|
        && Carries(w.runs[w.requests[k].ch], w.requests[k]) {
        assert Placed(w, w.requests[k]);
      }
    }
  }

  lemma IdleReached(w: World)
    requires ResetsChain(w) && Channels(w) && !w.stopped && w.loop.curDone.None?
      && (w.loop.reset.Some? ==> w.loop.launchNextRun)
    ensures w.sent == |w.heads| - 1
  {
  }
}

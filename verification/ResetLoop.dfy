/** The head-tracking event loop of mempool/txpool/txpool.go as a concurrent protocol.

    The loop receives chain heads, reset completions, sync requests and the quit request; reset
    goroutines run beside it. A schedule fixes one interleaving of all of these, and every claim is
    about every schedule. A header is known by its identity, which is what the source compares. */
module ResetLoop {
  import opened Common

  type Header = nat

  datatype Config = Config(subpools: nat, stateAvailable: Header -> bool)

  // A reset goroutine: the heads it was given, when it started, and how many subpools it has reset.
  datatype Job = Job(oldHead: Header, newHead: Header, started: nat, progress: nat)

  // A Sync call whose request the loop has received.
  datatype Waiter = Waiter(id: nat, asked: nat)

  // A Sync call answered with nil, and the reset whose completion answered it.
  datatype Answer = Answer(waiter: Waiter, job: Job)

  datatype Event =
    | NewHead(header: Header)
    | Work(job: nat)       // a goroutine resets its next subpool
    | ResetDone(job: nat)  // the loop receives a finished goroutine's message
    | Sync(id: nat)
    | Quit

  // The variables of the loop, the goroutines it has spawned, and the history of a run.
  datatype State = State(
    oldHead: Header, newHead: Header,
    busy: nat, jobs: seq<Job>,
    forced: bool, waiter: Option<Waiter>,
    stateHead: Header, closed: bool, clock: nat,
    started: seq<Job>, asked: seq<Waiter>,
    answered: seq<Answer>, refused: seq<Waiter>, overwritten: seq<Waiter>)

  const RESET_BUSY_CAPACITY: nat := 1

  function Initial(head: Header): State {
    State(head, head, 0, [], false, None, head, false, 0, [], [], [], [], [])
  }

  // The top of the loop body: start a reset when one is needed and the busy marker can be placed.
  function StartIfNeeded(s: State, c: Config): State {
    if (s.newHead == s.oldHead && !s.forced) || s.busy >= RESET_BUSY_CAPACITY then s
    else
      var job := Job(s.oldHead, s.newHead, s.clock, 0);
      s.(busy := s.busy + 1, jobs := s.jobs + [job], forced := false,
         stateHead := if c.stateAvailable(s.newHead) then s.newHead else s.stateHead,
         clock := s.clock + 1, started := s.started + [job])
  }

  predicate CanReceive(s: State, e: Event, c: Config) {
    match e
    case Work(_) => false
    case ResetDone(j) => j < |s.jobs| && s.jobs[j].progress == c.subpools && s.busy > 0
    case _ => true
  }

  // One case of the select statement.
  function Receive(s: State, e: Event, c: Config): State
    requires CanReceive(s, e, c)
  {
    match e
    case NewHead(h) => s.(newHead := h)
    case ResetDone(j) =>
      var s' := s.(oldHead := s.jobs[j].newHead, busy := s.busy - 1, jobs := s.jobs[..j] + s.jobs[j+1..]);
      if s.waiter.Some? && !s.forced
      then s'.(waiter := None, answered := s.answered + [Answer(s.waiter.value, s.jobs[j])])
      else s'
    case Sync(id) =>
      var w := Waiter(id, s.clock);
      s.(forced := true, waiter := Some(w), clock := s.clock + 1, asked := s.asked + [w],
         overwritten := if s.waiter.Some? then s.overwritten + [s.waiter.value] else s.overwritten)
    case Quit => s
  }

  // The deferred calls: a live waiter is told that the pool has terminated.
  function Close(s: State): State {
    if s.waiter.Some? then s.(closed := true, waiter := None, refused := s.refused + [s.waiter.value])
    else s.(closed := true)
  }

  function DoWork(s: State, j: nat, c: Config): State {
    if j < |s.jobs| && s.jobs[j].progress < c.subpools
    then s.(jobs := s.jobs[j := s.jobs[j].(progress := s.jobs[j].progress + 1)])
    else s
  }

  // From one wait of the loop to the next. An event that cannot happen yet changes nothing.
  function Step(s: State, e: Event, c: Config): State {
    if s.closed then s
    else if e.Work? then DoWork(s, e.job, c)
    else if !CanReceive(s, e, c) then s
    else if e.Quit? then Close(Receive(s, e, c))
    else StartIfNeeded(Receive(s, e, c), c)
  }

  function Steps(s: State, events: seq<Event>, c: Config): State {
    if events == [] then s
    else Step(Steps(s, events[..|events|-1], c), events[|events|-1], c)
  }

  function Run(head: Header, events: seq<Event>, c: Config): State {
    Steps(StartIfNeeded(Initial(head), c), events, c)
  }

  // ---------- The invariant of every reachable state ----------

  // Every reset starts from the head at which the one before it ended.
  ghost predicate Chained(head: Header, started: seq<Job>) {
    && (started != [] ==> started[0].oldHead == head)
    && forall k :: 0 < k < |started| ==> started[k].oldHead == started[k-1].newHead
  }

  function LastEnd(head: Header, started: seq<Job>): Header {
    if started == [] then head else started[|started|-1].newHead
  }

  ghost predicate OneResetAtATime(head: Header, s: State) {
    && s.busy == |s.jobs| <= 1
    && Chained(head, s.started)
    && (s.jobs == [] ==> s.oldHead == LastEnd(head, s.started))
    && (s.jobs != [] ==>
          && s.started != [] && s.jobs[0].(progress := 0) == s.started[|s.started|-1]
          && s.jobs[0].oldHead == s.oldHead)
  }

  // Nothing is left to do whenever the loop waits with no reset running.
  ghost predicate IdleIsCaughtUp(s: State) {
    !s.closed && s.jobs == [] ==> s.newHead == s.oldHead && !s.forced
  }

  // A waiter is waiting for a reset that will start later, or for one that started after it asked.
  ghost predicate WaiterIsServed(s: State) {
    && (s.forced ==> s.closed || s.waiter.Some?)
    && (s.waiter.Some? ==> s.waiter.value.asked < s.clock)
    && (s.waiter.Some? && !s.forced ==> s.jobs != [] && s.waiter.value.asked < s.jobs[0].started)
  }

  ghost predicate HonestAnswer(a: Answer, c: Config) {
    a.waiter.asked < a.job.started && a.job.progress == c.subpools
  }

  ghost predicate AnswersAreHonest(s: State, c: Config) {
    forall k :: 0 <= k < |s.answered| ==> HonestAnswer(s.answered[k], c)
  }

  ghost function AnsweredWaiters(answers: seq<Answer>): seq<Waiter> {
    seq(|answers|, i requires 0 <= i < |answers| => answers[i].waiter)
  }

  // Every received request is answered with nil, refused, overwritten by a later one, or still waiting.
  ghost predicate RequestsAccountedFor(s: State) {
    multiset(s.asked) == multiset(AnsweredWaiters(s.answered)) + multiset(s.refused) + multiset(s.overwritten)
                         + if s.waiter.Some? then multiset{s.waiter.value} else multiset{}
  }

  // Requests carry distinct receipt times, so the parts above are disjoint.
  ghost predicate RequestsAreDistinct(s: State) {
    && (forall k :: 0 <= k < |s.asked| ==> s.asked[k].asked < s.clock)
    && (forall i, k :: 0 <= i < k < |s.asked| ==> s.asked[i].asked < s.asked[k].asked)
  }

  ghost predicate Inv(head: Header, s: State, c: Config) {
    && OneResetAtATime(head, s)
    && WaiterIsServed(s)
    && AnswersAreHonest(s, c)
    && RequestsAccountedFor(s)
    && RequestsAreDistinct(s)
    && (s.jobs != [] ==> s.jobs[0].progress <= c.subpools)
  }

  lemma StartKeepsInv(head: Header, s: State, c: Config)
    requires Inv(head, s, c) && !s.closed
    ensures Inv(head, StartIfNeeded(s, c), c) && IdleIsCaughtUp(StartIfNeeded(s, c))
  {
  }

  lemma CompletionIsAccountedFor(s: State, j: nat, c: Config)
    requires RequestsAccountedFor(s) && CanReceive(s, ResetDone(j), c)
    ensures RequestsAccountedFor(Receive(s, ResetDone(j), c))
  {
    if s.waiter.Some? && !s.forced {
      var a := Answer(s.waiter.value, s.jobs[j]);
      assert AnsweredWaiters(s.answered + [a]) == AnsweredWaiters(s.answered) + [a.waiter];
    }
  }

  lemma CompletionKeepsInv(head: Header, s: State, j: nat, c: Config)
    requires Inv(head, s, c) && CanReceive(s, ResetDone(j), c)
    ensures Inv(head, Receive(s, ResetDone(j), c), c)
  {
    CompletionEndsTheReset(head, s, j, c);
    CompletionAnswersHonestly(head, s, j, c);
    CompletionIsAccountedFor(s, j, c);
    var t := Receive(s, ResetDone(j), c);
    assert t.asked == s.asked && t.clock == s.clock;
  }

  lemma CompletionEndsTheReset(head: Header, s: State, j: nat, c: Config)
    requires OneResetAtATime(head, s) && WaiterIsServed(s) && CanReceive(s, ResetDone(j), c)
    ensures var t := Receive(s, ResetDone(j), c);
            j == 0 && t.jobs == [] && OneResetAtATime(head, t) && WaiterIsServed(t)
  {
    assert j == 0;
  }

  lemma CompletionAnswersHonestly(head: Header, s: State, j: nat, c: Config)
    requires OneResetAtATime(head, s) && WaiterIsServed(s) && AnswersAreHonest(s, c) && CanReceive(s, ResetDone(j), c)
    ensures AnswersAreHonest(Receive(s, ResetDone(j), c), c)
  {
    assert j == 0;
  }

  lemma RequestIsAccountedFor(s: State, id: nat, c: Config)
    requires RequestsAccountedFor(s)
    ensures RequestsAccountedFor(Receive(s, Sync(id), c))
  {
    var w := Waiter(id, s.clock);
    assert multiset(s.asked + [w]) == multiset(s.asked) + multiset{w};
    if s.waiter.Some? {
      assert multiset(s.overwritten + [s.waiter.value]) == multiset(s.overwritten) + multiset{s.waiter.value};
    }
  }

  lemma RequestKeepsInv(head: Header, s: State, id: nat, c: Config)
    requires Inv(head, s, c) && !s.closed
    ensures Inv(head, Receive(s, Sync(id), c), c)
  {
    RequestIsAccountedFor(s, id, c);
  }

  lemma ReceiveKeepsInv(head: Header, s: State, e: Event, c: Config)
    requires Inv(head, s, c) && !s.closed && CanReceive(s, e, c)
    ensures Inv(head, Receive(s, e, c), c)
  {
    match e
    case ResetDone(j) => CompletionKeepsInv(head, s, j, c);
    case Sync(id) => RequestKeepsInv(head, s, id, c);
    case _ =>
  }

  lemma RefusalIsAccountedFor(s: State)
    requires RequestsAccountedFor(s)
    ensures RequestsAccountedFor(Close(s))
  {
    if s.waiter.Some? {
      assert multiset(s.refused + [s.waiter.value]) == multiset(s.refused) + multiset{s.waiter.value};
    }
  }

  lemma CloseKeepsInv(head: Header, s: State, c: Config)
    requires Inv(head, s, c)
    ensures Inv(head, Close(s), c)
  {
    RefusalIsAccountedFor(s);
  }

  lemma WorkKeepsInv(head: Header, s: State, j: nat, c: Config)
    requires Inv(head, s, c) && IdleIsCaughtUp(s)
    ensures Inv(head, DoWork(s, j, c), c) && IdleIsCaughtUp(DoWork(s, j, c))
  {
    var t := DoWork(s, j, c);
    assert t.started == s.started && t.answered == s.answered && t.asked == s.asked && t.waiter == s.waiter;
  }

  lemma StepKeepsInv(head: Header, s: State, e: Event, c: Config)
    requires Inv(head, s, c) && IdleIsCaughtUp(s)
    ensures Inv(head, Step(s, e, c), c) && IdleIsCaughtUp(Step(s, e, c))
  {
    if s.closed {
    } else if e.Work? {
      WorkKeepsInv(head, s, e.job, c);
    } else if CanReceive(s, e, c) {
      ReceiveKeepsInv(head, s, e, c);
      if e.Quit? {
        CloseKeepsInv(head, s, c);
      } else {
        StartKeepsInv(head, Receive(s, e, c), c);
      }
    }
  }

  lemma {:induction false} StepsKeepInv(head: Header, s: State, events: seq<Event>, c: Config)
    requires Inv(head, s, c) && IdleIsCaughtUp(s)
    ensures Inv(head, Steps(s, events, c), c) && IdleIsCaughtUp(Steps(s, events, c))
  {
    if events != [] {
      StepsKeepInv(head, s, events[..|events|-1], c);
      StepKeepsInv(head, Steps(s, events[..|events|-1], c), events[|events|-1], c);
    }
  }

  // ---------- What the loop has received ----------

  // The header of the last chain head that arrives before the pool quits, read off the schedule.
  function LastHead(head: Header, events: seq<Event>): Header {
    if events == [] then head
    else
      var init, e := events[..|events|-1], events[|events|-1];
      if e.NewHead? && Quit !in init then e.header else LastHead(head, init)
  }

  // The identities of the Sync calls that arrive before the pool quits.
  function SyncIds(events: seq<Event>): seq<nat> {
    if events == [] then []
    else
      var init, e := events[..|events|-1], events[|events|-1];
      SyncIds(init) + if e.Sync? && Quit !in init then [e.id] else []
  }

  ghost function Ids(waiters: seq<Waiter>): seq<nat> {
    seq(|waiters|, i requires 0 <= i < |waiters| => waiters[i].id)
  }

  // The newest reset whose head state was available, or the first head.
  function LastAvailable(head: Header, started: seq<Job>, c: Config): Header {
    if started == [] then head
    else
      var last := started[|started|-1].newHead;
      if c.stateAvailable(last) then last else LastAvailable(head, started[..|started|-1], c)
  }

  lemma StepReceives(s: State, e: Event, c: Config)
    ensures var t := Step(s, e, c);
            && t.newHead == (if e.NewHead? && !s.closed then e.header else s.newHead)
            && (t.closed <==> s.closed || e.Quit?)
            && Ids(t.asked) == Ids(s.asked) + if e.Sync? && !s.closed then [e.id] else []
  {
    if e.Sync? && !s.closed {
      assert Ids(s.asked + [Waiter(e.id, s.clock)]) == Ids(s.asked) + [e.id];
    }
  }

  // Over every interleaving the loop holds the last head received, has recorded every request received, and is
  // closed exactly when the pool was told to quit.
  lemma {:induction false} RunHoldsWhatItReceived(head: Header, events: seq<Event>, c: Config)
    ensures var s := Run(head, events, c);
            && s.newHead == LastHead(head, events) && Ids(s.asked) == SyncIds(events)
            && (s.closed <==> Quit in events)
  {
    if events == [] {
      assert Run(head, events, c) == StartIfNeeded(Initial(head), c);
    } else {
      var init, e := events[..|events|-1], events[|events|-1];
      RunHoldsWhatItReceived(head, init, c);
      StepReceives(Run(head, init, c), e, c);
      assert events == init + [e];
    }
  }

  // Event i brings the head in force when it comes before any quit and no later head does.
  lemma {:induction false} LastHeadIs(head: Header, events: seq<Event>, i: nat)
    requires i < |events| && events[i].NewHead? && Quit !in events[..i]
    requires forall k :: i < k < |events| && events[k].NewHead? ==> Quit in events[..k]
    ensures LastHead(head, events) == events[i].header
  {
    var n := |events| - 1;
    if i < n {
      var init := events[..n];
      forall k | i < k < n && init[k].NewHead? ensures Quit in init[..k] {
        assert init[..k] == events[..k] && events[k].NewHead?;
      }
      assert init[..i] == events[..i];
      LastHeadIs(head, init, i);
    }
  }

  lemma StepKeepsLastAvailable(head: Header, s: State, e: Event, c: Config)
    requires s.stateHead == LastAvailable(head, s.started, c)
    ensures var t := Step(s, e, c); t.stateHead == LastAvailable(head, t.started, c)
  {
    if !s.closed && !e.Work? && CanReceive(s, e, c) {
      ReceiveStartsNothing(s, e, c);
      if !e.Quit? {
        StartKeepsLastAvailable(head, Receive(s, e, c), c);
      }
    }
  }

  lemma ReceiveStartsNothing(s: State, e: Event, c: Config)
    requires CanReceive(s, e, c)
    ensures Receive(s, e, c).started == s.started && Receive(s, e, c).stateHead == s.stateHead
  {
  }

  lemma StartKeepsLastAvailable(head: Header, s: State, c: Config)
    requires s.stateHead == LastAvailable(head, s.started, c)
    ensures var t := StartIfNeeded(s, c); t.stateHead == LastAvailable(head, t.started, c)
  {
    var t := StartIfNeeded(s, c);
    assert t.started == s.started || t.started[..|t.started|-1] == s.started;
  }

  lemma {:induction false} StateIsLastAvailable(head: Header, s: State, events: seq<Event>, c: Config)
    requires s.stateHead == LastAvailable(head, s.started, c)
    ensures var t := Steps(s, events, c); t.stateHead == LastAvailable(head, t.started, c)
  {
    if events != [] {
      var init := events[..|events|-1];
      StateIsLastAvailable(head, s, init, c);
      StepKeepsLastAvailable(head, Steps(s, init, c), events[|events|-1], c);
    }
  }

  // Over every interleaving the pool's state is that of the newest reset whose head state was available.
  lemma RunHoldsLastAvailableState(head: Header, events: seq<Event>, c: Config)
    ensures var s := Run(head, events, c); s.stateHead == LastAvailable(head, s.started, c)
  {
    StateIsLastAvailable(head, StartIfNeeded(Initial(head), c), events, c);
  }

  // Over every interleaving: at most one reset in flight, resets chained head to tail, nil answers are honest,
  // every request is accounted for, and an open loop with no reset running has processed the last head received
  // and owes no forced reset.
  lemma EveryRunIsSafe(head: Header, events: seq<Event>, c: Config)
    ensures Inv(head, Run(head, events, c), c) && IdleIsCaughtUp(Run(head, events, c))
    ensures var s := Run(head, events, c);
            Quit !in events && s.jobs == [] ==>
              s.oldHead == LastEnd(head, s.started) == LastHead(head, events) && !s.forced
  {
    StartKeepsInv(head, Initial(head), c);
    StepsKeepInv(head, StartIfNeeded(Initial(head), c), events, c);
    RunHoldsWhatItReceived(head, events, c);
  }

  // No request has two fates: answered, refused, overwritten and still waiting exclude one another.
  lemma EachRequestHasOneFate(head: Header, events: seq<Event>, c: Config, w: Waiter)
    ensures var s := Run(head, events, c);
            w in s.asked ==>
            multiset(AnsweredWaiters(s.answered))[w] + multiset(s.refused)[w] + multiset(s.overwritten)[w]
            + (if s.waiter == Some(w) then 1 else 0) == 1
  {
    EveryRunIsSafe(head, events, c);
    var s := Run(head, events, c);
    if w in s.asked {
      var k :| 0 <= k < |s.asked| && s.asked[k] == w;
      assert s.asked == s.asked[..k] + [w] + s.asked[k+1..];
      assert w !in s.asked[..k] && w !in s.asked[k+1..];
      assert multiset(s.asked)[w] == 1;
    }
  }

  // After k events the loop is open and w waits.
  ghost predicate WaitsAt(head: Header, events: seq<Event>, k: nat, c: Config, w: Waiter) {
    k < |events| && !Run(head, events[..k], c).closed && Run(head, events[..k], c).waiter == Some(w)
  }

  // The event that seals a waiting request: a further request overwrites it, a quit refuses it, and a
  // completion answers it unless a forced reset is still owed.
  ghost predicate OverwrittenAt(head: Header, events: seq<Event>, k: nat, c: Config, w: Waiter) {
    WaitsAt(head, events, k, c, w) && events[k].Sync?
  }

  ghost predicate RefusedAt(head: Header, events: seq<Event>, k: nat, c: Config, w: Waiter) {
    WaitsAt(head, events, k, c, w) && events[k].Quit?
  }

  ghost predicate AnsweredAt(head: Header, events: seq<Event>, k: nat, c: Config, w: Waiter) {
    && WaitsAt(head, events, k, c, w) && events[k].ResetDone?
    && CanReceive(Run(head, events[..k], c), events[k], c) && !Run(head, events[..k], c).forced
  }

  lemma StepSealsFates(s: State, e: Event, c: Config, w: Waiter)
    ensures var t := Step(s, e, c);
            var waits := !s.closed && s.waiter == Some(w);
            && (w in t.overwritten <==> w in s.overwritten || (waits && e.Sync?))
            && (w in t.refused <==> w in s.refused || (waits && e.Quit?))
            && (w in AnsweredWaiters(t.answered) <==>
                  w in AnsweredWaiters(s.answered) || (waits && e.ResetDone? && CanReceive(s, e, c) && !s.forced))
  {
    if !s.closed && e.ResetDone? && CanReceive(s, e, c) && s.waiter.Some? && !s.forced {
      var a := Answer(s.waiter.value, s.jobs[e.job]);
      assert AnsweredWaiters(s.answered + [a]) == AnsweredWaiters(s.answered) + [a.waiter];
    }
  }

  lemma SamePrefixes(head: Header, events: seq<Event>, k: nat, c: Config, w: Waiter)
    requires k + 1 < |events|
    ensures var init := events[..|events|-1];
            && (OverwrittenAt(head, events, k, c, w) <==> OverwrittenAt(head, init, k, c, w))
            && (RefusedAt(head, events, k, c, w) <==> RefusedAt(head, init, k, c, w))
            && (AnsweredAt(head, events, k, c, w) <==> AnsweredAt(head, init, k, c, w))
  {
    assert events[..|events|-1][..k] == events[..k];
  }

  // A request is overwritten exactly when another arrives while it waits.
  lemma {:induction false} OverwrittenExactlyWhen(head: Header, events: seq<Event>, c: Config, w: Waiter)
    ensures w in Run(head, events, c).overwritten <==> exists k: nat :: OverwrittenAt(head, events, k, c, w)
  {
    if events != [] {
      var n := |events| - 1;
      var init := events[..n];
      OverwrittenExactlyWhen(head, init, c, w);
      StepSealsFates(Run(head, init, c), events[n], c, w);
      forall k: nat | k < n ensures OverwrittenAt(head, events, k, c, w) <==> OverwrittenAt(head, init, k, c, w) {
        SamePrefixes(head, events, k, c, w);
      }
      assert OverwrittenAt(head, events, n, c, w) <==>
        !Run(head, init, c).closed && Run(head, init, c).waiter == Some(w) && events[n].Sync?;
      if k: nat :| OverwrittenAt(head, init, k, c, w) {
        assert OverwrittenAt(head, events, k, c, w);
      }
      if k: nat :| OverwrittenAt(head, events, k, c, w) {
        assert k == n || OverwrittenAt(head, init, k, c, w);
      }
    }
  }

  // It is answered exactly when a completion arrives while it waits and no forced reset is owed.
  lemma {:induction false} AnsweredExactlyWhen(head: Header, events: seq<Event>, c: Config, w: Waiter)
    ensures w in AnsweredWaiters(Run(head, events, c).answered) <==> exists k: nat :: AnsweredAt(head, events, k, c, w)
  {
    if events == [] {
      assert Run(head, events, c) == StartIfNeeded(Initial(head), c);
    } else {
      var n := |events| - 1;
      var init := events[..n];
      AnsweredExactlyWhen(head, init, c, w);
      StepSealsFates(Run(head, init, c), events[n], c, w);
      forall k: nat | k < n ensures AnsweredAt(head, events, k, c, w) <==> AnsweredAt(head, init, k, c, w) {
        SamePrefixes(head, events, k, c, w);
      }
      assert AnsweredAt(head, events, n, c, w) <==>
        WaitsAt(head, events, n, c, w) && events[n].ResetDone?
        && CanReceive(Run(head, init, c), events[n], c) && !Run(head, init, c).forced;
      if k: nat :| AnsweredAt(head, init, k, c, w) {
        assert AnsweredAt(head, events, k, c, w);
      }
      if k: nat :| AnsweredAt(head, events, k, c, w) {
        assert k == n || AnsweredAt(head, init, k, c, w);
      }
    }
  }

  // It is refused exactly when the pool quits while it waits.
  lemma {:induction false} RefusedExactlyWhen(head: Header, events: seq<Event>, c: Config, w: Waiter)
    ensures w in Run(head, events, c).refused <==> exists k: nat :: RefusedAt(head, events, k, c, w)
  {
    if events != [] {
      var n := |events| - 1;
      var init := events[..n];
      RefusedExactlyWhen(head, init, c, w);
      StepSealsFates(Run(head, init, c), events[n], c, w);
      forall k: nat | k < n ensures RefusedAt(head, events, k, c, w) <==> RefusedAt(head, init, k, c, w) {
        SamePrefixes(head, events, k, c, w);
      }
      assert RefusedAt(head, events, n, c, w) <==>
        !Run(head, init, c).closed && Run(head, init, c).waiter == Some(w) && events[n].Quit?;
      if k: nat :| RefusedAt(head, init, k, c, w) {
        assert RefusedAt(head, events, k, c, w);
      }
      if k: nat :| RefusedAt(head, events, k, c, w) {
        assert k == n || RefusedAt(head, init, k, c, w);
      }
    }
  }

  lemma {:induction false} FatesOnlyGrow(s: State, events: seq<Event>, c: Config, w: Waiter)
    ensures var t := Steps(s, events, c);
            && (w in s.overwritten ==> w in t.overwritten) && (w in s.refused ==> w in t.refused)
            && (w in AnsweredWaiters(s.answered) ==> w in AnsweredWaiters(t.answered))
  {
    if events != [] {
      var init := events[..|events|-1];
      FatesOnlyGrow(s, init, c, w);
      StepSealsFates(Steps(s, init, c), events[|events|-1], c, w);
    }
  }

  // A sealed fate is final: a request that has been overwritten stays so and is answered or refused in no
  // later state, and likewise for the other two fates.
  lemma FatesAreFinal(head: Header, events: seq<Event>, more: seq<Event>, c: Config, w: Waiter)
    ensures var s, t := Run(head, events, c), Run(head, events + more, c);
            && (w in s.overwritten ==>
                  w in t.overwritten && w !in AnsweredWaiters(t.answered) && w !in t.refused && t.waiter != Some(w))
            && (w in s.refused ==>
                  w in t.refused && w !in AnsweredWaiters(t.answered) && w !in t.overwritten && t.waiter != Some(w))
            && (w in AnsweredWaiters(s.answered) ==>
                  w in AnsweredWaiters(t.answered) && w !in t.refused && w !in t.overwritten && t.waiter != Some(w))
  {
    StepsSplit(StartIfNeeded(Initial(head), c), events, more, c);
    FatesOnlyGrow(Run(head, events, c), more, c, w);
    EveryRunIsSafe(head, events + more, c);
    EachRequestHasOneFate(head, events + more, c, w);
    var t := Run(head, events + more, c);
    assert multiset(t.asked)[w] > 0 <==> w in t.asked;
  }

  // Two requests in a row: the first one is overwritten.
  lemma SecondRequestOverwritesFirst(c: Config)
    ensures Run(0, [Sync(0), Sync(1)], c).overwritten == [Waiter(0, 0)]
  {
    var events := [Sync(0), Sync(1)];
    assert events[..1] == [Sync(0)] && events[..1][..0] == [];
    var s := Steps(StartIfNeeded(Initial(0), c), [], c);
    assert s == Initial(0);
    assert Run(0, events[..1], c) == Step(s, Sync(0), c);
    assert Run(0, events, c) == Step(Run(0, events[..1], c), Sync(1), c);
  }

  // ---------- Progress ----------

  // How many completions of a schedule the loop receives.
  ghost function Completions(s: State, events: seq<Event>, c: Config): nat {
    if events == [] then 0
    else
      var init, e := events[..|events|-1], events[|events|-1];
      Completions(s, init, c) + if e.ResetDone? && CanReceive(Steps(s, init, c), e, c) then 1 else 0
  }

  // How many completions a waiting request still needs.
  ghost function Needs(s: State): nat {
    if s.forced then 2 else 1
  }

  lemma CompletionServes(head: Header, s: State, e: Event, c: Config, w: Waiter)
    requires Inv(head, s, c) && IdleIsCaughtUp(s) && !s.closed && s.waiter == Some(w) && !e.Sync? && !e.Quit?
    ensures var t := Step(s, e, c);
            var done := if e.ResetDone? && CanReceive(s, e, c) then 1 else 0;
            !t.closed && (w in AnsweredWaiters(t.answered) || (t.waiter == Some(w) && Needs(t) + done <= Needs(s)))
  {
    StepSealsFates(s, e, c, w);
  }

  lemma {:induction false} CompletionsServe(head: Header, s: State, events: seq<Event>, c: Config, w: Waiter)
    requires Inv(head, s, c) && IdleIsCaughtUp(s) && !s.closed && s.waiter == Some(w)
    requires forall k :: 0 <= k < |events| ==> !events[k].Sync? && !events[k].Quit?
    ensures var t := Steps(s, events, c);
            && !t.closed
            && (w in AnsweredWaiters(t.answered) ||
                  (t.waiter == Some(w) && Needs(t) + Completions(s, events, c) <= Needs(s)))
  {
    if events != [] {
      var init, e := events[..|events|-1], events[|events|-1];
      CompletionsServe(head, s, init, c, w);
      StepsKeepInv(head, s, init, c);
      var t := Steps(s, init, c);
      if w in AnsweredWaiters(t.answered) {
        StepSealsFates(t, e, c, w);
      } else {
        CompletionServes(head, t, e, c, w);
      }
    }
  }

  // In every schedule without further requests that completes two resets, heads arriving freely, the waiting
  // request is answered.
  lemma TwoCompletionsAnswer(head: Header, s: State, events: seq<Event>, c: Config, w: Waiter)
    requires Inv(head, s, c) && IdleIsCaughtUp(s) && !s.closed && s.waiter == Some(w)
    requires forall k :: 0 <= k < |events| ==> !events[k].Sync? && !events[k].Quit?
    requires Completions(s, events, c) >= 2
    ensures w in AnsweredWaiters(Steps(s, events, c).answered)
  {
    CompletionsServe(head, s, events, c, w);
  }

  // The goroutine in front does all its work and its message is received.
  function FinishSchedule(c: Config): seq<Event> {
    seq(c.subpools, i => Work(0)) + [ResetDone(0)]
  }

  lemma {:induction false} WorkFinishesJob(s: State, n: nat, c: Config)
    requires !s.closed && |s.jobs| == 1 && s.jobs[0].progress <= c.subpools
    ensures var t := Steps(s, seq(n, i => Work(0)), c);
            t == s.(jobs := t.jobs) && |t.jobs| == 1
            && t.jobs[0] == s.jobs[0].(progress := t.jobs[0].progress)
            && t.jobs[0].progress == if s.jobs[0].progress + n < c.subpools then s.jobs[0].progress + n else c.subpools
  {
    if n == 0 {
      assert seq(n, i => Work(0)) == [];
    } else {
      var works := seq(n, i => Work(0));
      assert works[..n-1] == seq(n - 1, i => Work(0));
      WorkFinishesJob(s, n - 1, c);
    }
  }

  lemma FinishEndsTheReset(head: Header, s: State, c: Config)
    requires Inv(head, s, c) && !s.closed && s.jobs != []
    ensures Steps(s, FinishSchedule(c), c) ==
            StartIfNeeded(Receive(s.(jobs := [s.jobs[0].(progress := c.subpools)]), ResetDone(0), c), c)
  {
    var works := seq(c.subpools, i => Work(0));
    assert FinishSchedule(c)[..|FinishSchedule(c)|-1] == works;
    WorkFinishesJob(s, c.subpools, c);
    var t := Steps(s, works, c);
    assert t.jobs == [s.jobs[0].(progress := c.subpools)];
  }

  lemma {:induction false} IdleStaysIdle(s: State, n: nat, c: Config)
    requires s.jobs == []
    ensures Steps(s, seq(n, i => Work(0)), c) == s
  {
    var works := seq(n, i => Work(0));
    if n > 0 {
      assert works[..n-1] == seq(n - 1, i => Work(0));
      IdleStaysIdle(s, n - 1, c);
    }
  }

  // Once the outside is quiet, finishing at most two resets answers the waiter and leaves the loop idle
  // at the last received head.
  lemma QuietLoopSettlesInTwoResets(head: Header, s: State, c: Config)
    requires Inv(head, s, c) && IdleIsCaughtUp(s) && !s.closed
    ensures var t := Steps(Steps(s, FinishSchedule(c), c), FinishSchedule(c), c);
            && t.jobs == [] && t.waiter.None? && !t.forced && t.oldHead == t.newHead == s.newHead
            && t.overwritten == s.overwritten && t.refused == s.refused
  {
    var t := Steps(s, FinishSchedule(c), c);
    FinishOnce(head, s, c);
    FinishOnce(head, t, c);
  }

  // So every run without a quit, left alone for two resets, comes to rest at the last head received with no one
  // waiting.
  lemma RunSettlesAtLastHead(head: Header, events: seq<Event>, c: Config)
    requires Quit !in events
    ensures var t := Run(head, events + FinishSchedule(c) + FinishSchedule(c), c);
            t.jobs == [] && t.waiter.None? && !t.forced && t.oldHead == t.newHead == LastHead(head, events)
  {
    var first, finish := StartIfNeeded(Initial(head), c), FinishSchedule(c);
    EveryRunIsSafe(head, events, c);
    RunHoldsWhatItReceived(head, events, c);
    StepsSplit(first, events + finish, finish, c);
    StepsSplit(first, events, finish, c);
    QuietLoopSettlesInTwoResets(head, Run(head, events, c), c);
  }

  lemma FinishOnce(head: Header, s: State, c: Config)
    requires Inv(head, s, c) && IdleIsCaughtUp(s) && !s.closed
    ensures var t := Steps(s, FinishSchedule(c), c);
            && Inv(head, t, c) && IdleIsCaughtUp(t) && !t.closed && !t.forced && t.newHead == s.newHead
            && t.overwritten == s.overwritten && t.refused == s.refused
            && (t.jobs != [] ==> t.jobs[0].newHead == t.newHead)
            && (!s.forced && (s.jobs != [] ==> s.jobs[0].newHead == s.newHead) ==> t.jobs == [])
  {
    StepsKeepInv(head, s, FinishSchedule(c), c);
    if s.jobs == [] {
      IdleStaysIdle(s, c.subpools, c);
      assert FinishSchedule(c)[..|FinishSchedule(c)|-1] == seq(c.subpools, i => Work(0));
    } else {
      FinishEndsTheReset(head, s, c);
    }
  }

  // ---------- The loop itself ----------

  lemma {:induction false} ClosedStays(s: State, events: seq<Event>, c: Config)
    requires s.closed
    ensures Steps(s, events, c) == s
  {
    if events != [] {
      ClosedStays(s, events[..|events|-1], c);
    }
  }

  lemma {:induction false} StepsSplit(s: State, a: seq<Event>, b: seq<Event>, c: Config)
    ensures Steps(s, a + b, c) == Steps(Steps(s, a, c), b, c)
  {
    if b == [] {
      assert a + b == a;
    } else {
      assert (a + b)[..|a + b|-1] == a + b[..|b|-1];
      StepsSplit(s, a, b[..|b|-1], c);
    }
  }

  method TryStart(now: State, c: Config) returns (s: State)
    ensures s == StartIfNeeded(now, c)
  {
    s := now;
    if s.newHead != s.oldHead || s.forced {
      if s.busy < RESET_BUSY_CAPACITY {
        if c.stateAvailable(s.newHead) {
          s := s.(stateHead := s.newHead);
        }
        var job := Job(s.oldHead, s.newHead, s.clock, 0);
        s := s.(busy := s.busy + 1, jobs := s.jobs + [job], started := s.started + [job], clock := s.clock + 1);
        s := s.(forced := false);
      }
    }
  }

  method Select(now: State, e: Event, c: Config) returns (s: State)
    requires CanReceive(now, e, c)
    ensures s == Receive(now, e, c)
  {
    s := now;
    match e {
      case NewHead(h) =>
        s := s.(newHead := h);
      case ResetDone(j) =>
        var job := s.jobs[j];
        s := s.(oldHead := job.newHead, busy := s.busy - 1, jobs := s.jobs[..j] + s.jobs[j+1..]);
        if s.waiter.Some? && !s.forced {
          s := s.(waiter := None, answered := s.answered + [Answer(s.waiter.value, job)]);
        }
      case Sync(id) =>
        var w := Waiter(id, s.clock);
        if s.waiter.Some? {
          s := s.(overwritten := s.overwritten + [s.waiter.value]);
        }
        s := s.(forced := true, waiter := Some(w), asked := s.asked + [w], clock := s.clock + 1);
      case Quit =>
    }
  }

  lemma OneMoreStep(s: State, schedule: seq<Event>, i: nat, c: Config)
    requires i < |schedule|
    ensures Steps(s, schedule[..i+1], c) == Step(Steps(s, schedule[..i], c), schedule[i], c)
  {
    assert schedule[..i+1][..i] == schedule[..i];
  }

  lemma NothingAfterQuit(first: State, schedule: seq<Event>, i: nat, s: State, c: Config)
    requires i <= |schedule| && Steps(first, schedule[..i], c) == Close(s)
    ensures Steps(first, schedule, c) == Close(s)
  {
    var before, rest := schedule[..i], schedule[i..];
    assert before + rest == schedule;
    StepsSplit(first, before, rest, c);
    ClosedStays(Close(s), rest, c);
  }

  // Goroutines work, and messages that are not ready stay unsent, until the loop can receive.
  method Await(s0: State, schedule: seq<Event>, i0: nat, c: Config, ghost first: State) returns (s: State, i: nat)
    requires i0 <= |schedule| && !s0.closed && s0 == Steps(first, schedule[..i0], c)
    ensures i0 <= i <= |schedule| && !s.closed && s == Steps(first, schedule[..i], c)
    ensures i < |schedule| ==> CanReceive(s, schedule[i], c)
  {
    s, i := s0, i0;
    while i < |schedule| && !CanReceive(s, schedule[i], c)
      invariant i0 <= i <= |schedule|
      invariant !s.closed && s == Steps(first, schedule[..i], c)
    {
      OneMoreStep(first, schedule, i, c);
      if schedule[i].Work? {
        s := DoWork(s, schedule[i].job, c);
      }
      i := i + 1;
    }
  }

  method Loop(head: Header, schedule: seq<Event>, c: Config) returns (s: State)
    ensures s == Run(head, schedule, c)
  {
    s := Initial(head);
    var i, quit := 0, false;
    ghost var first := StartIfNeeded(s, c);
    while !quit
      invariant 0 <= i <= |schedule|
      invariant !s.closed
      invariant Steps(first, schedule[..i], c) == if quit then Close(s) else StartIfNeeded(s, c)
      decreases |schedule| - i, !quit
    {
      s := TryStart(s, c);
      s, i := Await(s, schedule, i, c, first);
      if i == |schedule| {
        assert schedule[..i] == schedule;
        return;
      }
      OneMoreStep(first, schedule, i, c);
      s := Select(s, schedule[i], c);
      quit := schedule[i].Quit?;
      i := i + 1;
    }
    NothingAfterQuit(first, schedule, i, s, c);
    if s.waiter.Some? {
      s := s.(refused := s.refused + [s.waiter.value], waiter := None);
    }
    s := s.(closed := true);
  }
}

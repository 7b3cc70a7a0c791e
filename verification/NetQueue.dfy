/** The network pool's two-tier queue and the refreshes the decider puts on it
    (`runtime.rs`): one step function for the decider and the workers, what holds
    after every run of it, and the locked sections that carry it out. */
module NetQueue {
  type ObjectId = nat

  /** How many refreshes may wait for the pool. */
  const MAX_REFRESH_BACKLOG: nat := 64

  /** Where a job's result goes; one that goes nowhere is background work. */
  datatype Deliver = Flow | Detached | Beside(request: nat)

  datatype Dispatched = Dispatched(target: ObjectId, deliver: Deliver)

  /** A job somebody waits for. */
  type Awaited = d: Dispatched | !d.deliver.Detached? witness Dispatched(0, Flow)

  datatype Popped = Job(job: Dispatched) | Wait | EndOfStream

  // --- The queue as a value -------------------------------------------------------

  datatype Tiers = Tiers(interactive: seq<Dispatched>, background: seq<Dispatched>, closed: bool)

  function Next(q: Tiers): Popped {
    if q.interactive != [] then Job(q.interactive[0])
    else if q.background != [] then Job(q.background[0])
    else if q.closed then EndOfStream else Wait
  }

  function WithoutNext(q: Tiers): Tiers {
    if q.interactive != [] then q.(interactive := q.interactive[1..])
    else if q.background != [] then q.(background := q.background[1..])
    else q
  }

  function With(q: Tiers, d: Dispatched): Tiers {
    if q.closed then q
    else if d.deliver.Detached? then q.(background := q.background + [d])
    else q.(interactive := q.interactive + [d])
  }

  // --- The runs -------------------------------------------------------------------

  /** The queue, the objects being refreshed, the jobs in workers' hands, and the
      refreshes whose end the decider has yet to hear of. */
  datatype State = State(queue: Tiers, refreshing: set<ObjectId>, running: seq<Dispatched>, reports: seq<ObjectId>)

  datatype Event =
    /** a stale listing asks for a refresh; */
    | Refresh(o: ObjectId, busy: bool)
    /** work somebody waits for; */
    | Dispatch(d: Awaited)
    /** a worker looks for its next job; */
    | Take
    /** the worker with the `i`-th running job is done with it; */
    | Finish(i: nat)
    /** the decider hears of a finished refresh; */
    | Hear
    /** the decider goes. */
    | Close

  const IDLE: State := State(Tiers([], [], false), {}, [], [])

  /** A refresh starts unless one is under way, the object has real work running,
      the backlog is full or the decider gone. */
  predicate Starts(s: State, e: Event) {
    e.Refresh? && !s.queue.closed && e.o !in s.refreshing && !e.busy && |s.queue.background| < MAX_REFRESH_BACKLOG
  }

  predicate Hears(s: State, e: Event) {
    e.Hear? && !s.queue.closed && s.reports != []
  }

  function Step(s: State, e: Event): State {
    match e
    case Refresh(o, _) =>
      if Starts(s, e) then s.(queue := With(s.queue, Dispatched(o, Detached)), refreshing := s.refreshing + {o}) else s
    case Dispatch(d) => s.(queue := With(s.queue, d))
    case Take =>
      s.(queue := WithoutNext(s.queue),
         running := if Next(s.queue).Job? then s.running + [Next(s.queue).job] else s.running)
    case Finish(i) =>
      if i >= |s.running| then s
      else s.(running := s.running[..i] + s.running[i + 1..],
              reports := if s.running[i].deliver.Detached? && !s.queue.closed then s.reports + [s.running[i].target]
                         else s.reports)
    case Hear => if Hears(s, e) then s.(refreshing := s.refreshing - {s.reports[0]}, reports := s.reports[1..]) else s
    case Close => s.(queue := Tiers([], [], true))
  }

  function Run(events: seq<Event>): State {
    if events == [] then IDLE else Step(Run(events[..|events| - 1]), events[|events| - 1])
  }

  lemma RunOneMore(events: seq<Event>, e: Event)
    ensures Run(events + [e]) == Step(Run(events), e)
  {
    assert (events + [e])[..|events|] == events;
  }

  // --- When a refresh starts ----------------------------------------------------------

  /** A run goes on unchanged by a request for a refresh, unless the object is idle
      and not being refreshed, the backlog has room and the decider is there: then
      one job goes to the back of the background tier, and the object is marked. */
  lemma RefreshStartsExactly(events: seq<Event>, o: ObjectId, busy: bool)
    ensures var s, later := Run(events), Run(events + [Refresh(o, busy)]);
            if !busy && o !in s.refreshing && |s.queue.background| < MAX_REFRESH_BACKLOG && !s.queue.closed then
              && later.queue.background == s.queue.background + [Dispatched(o, Detached)]
              && later.queue.interactive == s.queue.interactive && !later.queue.closed
              && later.refreshing == s.refreshing + {o} && o !in s.refreshing
              && later.running == s.running && later.reports == s.reports
            else later == s
  {
    RunOneMore(events, Refresh(o, busy));
  }

  /** The run as it would be if nobody had asked for a refresh of an object with real
      work running. */
  function OnlyIdle(events: seq<Event>): seq<Event> {
    if events == [] then []
    else
      var last := events[|events| - 1];
      OnlyIdle(events[..|events| - 1]) + if last.Refresh? && last.busy then [] else [last]
  }

  /** A busy object is never refreshed: such requests leave no trace in any run. */
  lemma {:induction false} BusyObjectsAreNotRefreshed(events: seq<Event>)
    ensures Run(events) == Run(OnlyIdle(events))
    decreases |events|
  {
    if events != [] {
      var before, last := events[..|events| - 1], events[|events| - 1];
      BusyObjectsAreNotRefreshed(before);
      assert events == before + [last];
      if last.Refresh? && last.busy {
        RefreshStartsExactly(before, last.o, true);
        assert OnlyIdle(events) == OnlyIdle(before);
      } else {
        RunOneMore(before, last);
        RunOneMore(OnlyIdle(before), last);
      }
    }
  }

  datatype Tier = Interactive | Background

  function Waiting(q: Tiers, tier: Tier): seq<Dispatched> {
    match tier
    case Interactive => q.interactive
    case Background => q.background
  }

  predicate Belongs(d: Dispatched, tier: Tier) {
    d.deliver.Detached? <==> tier.Background?
  }

  /** What one event sends to a tier, and what it takes from it. */
  function SentBy(s: State, e: Event, tier: Tier): seq<Dispatched> {
    if tier.Background? && Starts(s, e) then [Dispatched(e.o, Detached)]
    else if tier.Interactive? && e.Dispatch? && !s.queue.closed then [e.d]
    else []
  }

  function TakenBy(s: State, e: Event, tier: Tier): seq<Dispatched> {
    if e.Take? && Next(s.queue).Job? && Belongs(Next(s.queue).job, tier) then [Next(s.queue).job] else []
  }

  function Sent(events: seq<Event>, tier: Tier): seq<Dispatched> {
    if events == [] then []
    else Sent(events[..|events| - 1], tier) + SentBy(Run(events[..|events| - 1]), events[|events| - 1], tier)
  }

  function Taken(events: seq<Event>, tier: Tier): seq<Dispatched> {
    if events == [] then []
    else Taken(events[..|events| - 1], tier) + TakenBy(Run(events[..|events| - 1]), events[|events| - 1], tier)
  }

  lemma {:induction false} EachInItsTier(events: seq<Event>)
    ensures forall tier, d :: d in Waiting(Run(events).queue, tier) ==> Belongs(d, tier)
    decreases |events|
  {
    if events != [] {
      var s, e := Run(events[..|events| - 1]), events[|events| - 1];
      EachInItsTier(events[..|events| - 1]);
      forall tier, d | d in Waiting(Step(s, e).queue, tier) ensures Belongs(d, tier) {
        assert forall d' :: d' in Waiting(s.queue, tier) ==> Belongs(d', tier);
      }
    }
  }

  lemma OneStepIsInOrder(s: State, e: Event, tier: Tier)
    requires forall t, d :: d in Waiting(s.queue, t) ==> Belongs(d, t)
    requires s.queue.closed ==> Waiting(s.queue, tier) == []
    ensures s.queue.closed ==> Step(s, e).queue.closed && SentBy(s, e, tier) == []
    ensures TakenBy(s, e, tier) <= Waiting(s.queue, tier)
    ensures if Step(s, e).queue.closed then Waiting(Step(s, e).queue, tier) == []
            else Waiting(s.queue, tier) + SentBy(s, e, tier) == TakenBy(s, e, tier) + Waiting(Step(s, e).queue, tier)
  {
    assert e.Take? && Next(s.queue).Job? ==>
        Next(s.queue).job in Waiting(s.queue, if s.queue.interactive != [] then Interactive else Background);
  }

  /** The jobs taken are the first of those sent, and until the queue is closed the
      rest waits. */
  ghost predicate InOrder(taken: seq<Dispatched>, waiting: seq<Dispatched>, sent: seq<Dispatched>, closed: bool) {
    taken <= sent && if closed then waiting == [] else taken + waiting == sent
  }

  lemma OrderGoesOn(taken: seq<Dispatched>, waiting: seq<Dispatched>, sent: seq<Dispatched>, closed: bool,
                    now: seq<Dispatched>, left: seq<Dispatched>, more: seq<Dispatched>, closedNow: bool)
    requires InOrder(taken, waiting, sent, closed) && now <= waiting
    requires closed ==> closedNow && more == []
    requires if closedNow then left == [] else waiting + more == now + left
    ensures InOrder(taken + now, left, sent + more, closedNow)
  {
    if !closed {
      assert sent + more == taken + (waiting + more);
      assert waiting == now + waiting[|now|..];
      assert sent + more == (taken + now) + (waiting[|now|..] + more);
    }
    if !closedNow {
      assert (taken + now) + left == taken + (now + left);
    }
  }

  /** After every run the jobs taken from a tier are those sent to it, in the order
      they were sent, each at most once; until the decider goes, the rest waits. */
  lemma {:induction false} FirstInFirstOut(events: seq<Event>, tier: Tier)
    ensures InOrder(Taken(events, tier), Waiting(Run(events).queue, tier), Sent(events, tier), Run(events).queue.closed)
    decreases |events|
  {
    if events != [] {
      var before, e := events[..|events| - 1], events[|events| - 1];
      FirstInFirstOut(before, tier);
      EachInItsTier(before);
      var s := Run(before);
      OneStepIsInOrder(s, e, tier);
      hide Step, SentBy, TakenBy, Waiting, Belongs, InOrder;
      OrderGoesOn(Taken(before, tier), Waiting(s.queue, tier), Sent(before, tier), s.queue.closed,
                  TakenBy(s, e, tier), Waiting(Step(s, e).queue, tier), SentBy(s, e, tier), Step(s, e).queue.closed);
    }
  }

  /** Whenever background work is taken, everything interactive that was sent
      before has been taken before. */
  lemma NobodyWaitsForBackgroundWork(events: seq<Event>, i: nat)
    requires i < |events| && TakenBy(Run(events[..i]), events[i], Background) != []
    ensures Taken(events[..i], Interactive) == Sent(events[..i], Interactive)
  {
    var s := Run(events[..i]);
    FirstInFirstOut(events[..i], Interactive);
    FirstInFirstOut(events[..i], Background);
    EachInItsTier(events[..i]);
    assert s.queue.interactive != [] ==> Belongs(s.queue.interactive[0], Interactive) by {
      if s.queue.interactive != [] {
        assert s.queue.interactive[0] in Waiting(s.queue, Interactive);
      }
    }
    assert Waiting(s.queue, Interactive) == [] && Waiting(s.queue, Background) != [];
  }

  // --- The refreshes on their way -------------------------------------------------

  function One(d: Dispatched, o: ObjectId): nat {
    if d == Dispatched(o, Detached) then 1 else 0
  }

  /** How many refreshes of `o` are among some jobs. */
  function Refreshes(jobs: seq<Dispatched>, o: ObjectId): nat {
    if jobs == [] then 0 else One(jobs[0], o) + Refreshes(jobs[1..], o)
  }

  lemma {:induction false} RefreshesOfConcat(a: seq<Dispatched>, b: seq<Dispatched>, o: ObjectId)
    ensures Refreshes(a + b, o) == Refreshes(a, o) + Refreshes(b, o)
  {
    if a == [] {
      assert a + b == b;
    } else {
      assert (a + b)[1..] == a[1..] + b;
      RefreshesOfConcat(a[1..], b, o);
    }
  }

  lemma RefreshesAnd(jobs: seq<Dispatched>, d: Dispatched, o: ObjectId)
    ensures Refreshes(jobs + [d], o) == Refreshes(jobs, o) + One(d, o)
  {
    RefreshesOfConcat(jobs, [d], o);
    assert [d][1..] == [];
  }

  lemma RefreshesWithout(jobs: seq<Dispatched>, i: nat, o: ObjectId)
    requires i < |jobs|
    ensures Refreshes(jobs, o) == One(jobs[i], o) + Refreshes(jobs[..i] + jobs[i + 1..], o)
  {
    var front, back := jobs[..i], jobs[i + 1..];
    RefreshesAnd(front, jobs[i], o);
    RefreshesOfConcat(front + [jobs[i]], back, o);
    RefreshesOfConcat(front, back, o);
    assert jobs == front + [jobs[i]] + back;
  }

  /** How many refreshes of `o` are queued, running or reporting back. */
  function OnTheWay(s: State, o: ObjectId): nat {
    Refreshes(s.queue.background, o) + Refreshes(s.running, o) + multiset(s.reports)[o]
  }

  function StartsOf(s: State, e: Event, o: ObjectId): nat {
    if Starts(s, e) && e.o == o then 1 else 0
  }

  function HearsOf(s: State, e: Event, o: ObjectId): nat {
    if Hears(s, e) && s.reports[0] == o then 1 else 0
  }

  /** One step starts one refresh, ends one, or moves one along; once the decider
      goes some are thrown away. */
  lemma OneStepMovesRefreshes(s: State, e: Event, o: ObjectId)
    requires forall d :: d in s.queue.interactive ==> Belongs(d, Interactive)
    ensures OnTheWay(Step(s, e), o) + HearsOf(s, e, o) <= OnTheWay(s, o) + StartsOf(s, e, o)
    ensures !Step(s, e).queue.closed ==>
              OnTheWay(Step(s, e), o) + HearsOf(s, e, o) == OnTheWay(s, o) + StartsOf(s, e, o)
  {
    match e
    case Refresh(r, busy) => RefreshMovesRefreshes(s, r, busy, o);
    case Dispatch(d) =>
    case Take => TakeMovesRefreshes(s, o);
    case Finish(i) => FinishMovesRefreshes(s, i, o);
    case Hear => HearMovesRefreshes(s, o);
    case Close =>
  }

  lemma RefreshMovesRefreshes(s: State, r: ObjectId, busy: bool, o: ObjectId)
    ensures OnTheWay(Step(s, Refresh(r, busy)), o) == OnTheWay(s, o) + StartsOf(s, Refresh(r, busy), o)
  {
    RefreshesAnd(s.queue.background, Dispatched(r, Detached), o);
  }

  lemma HearMovesRefreshes(s: State, o: ObjectId)
    ensures OnTheWay(Step(s, Hear), o) + HearsOf(s, Hear, o) == OnTheWay(s, o)
  {
    if s.reports != [] {
      assert s.reports == [s.reports[0]] + s.reports[1..];
    }
  }

  lemma TakeMovesRefreshes(s: State, o: ObjectId)
    requires forall d :: d in s.queue.interactive ==> Belongs(d, Interactive)
    ensures OnTheWay(Step(s, Take), o) == OnTheWay(s, o)
  {
    if Next(s.queue).Job? {
      RefreshesAnd(s.running, Next(s.queue).job, o);
      if s.queue.interactive != [] {
        assert Next(s.queue).job in s.queue.interactive;
      }
    }
  }

  lemma FinishMovesRefreshes(s: State, i: nat, o: ObjectId)
    ensures OnTheWay(Step(s, Finish(i)), o) <= OnTheWay(s, o)
    ensures !s.queue.closed ==> OnTheWay(Step(s, Finish(i)), o) == OnTheWay(s, o)
  {
    if i < |s.running| {
      RefreshesWithout(s.running, i, o);
    }
  }

  /** How often a refresh of `o` was started, and how often its end was heard of. */
  function Started(events: seq<Event>, o: ObjectId): nat {
    if events == [] then 0
    else
      Started(events[..|events| - 1], o) + StartsOf(Run(events[..|events| - 1]), events[|events| - 1], o)
  }

  function Heard(events: seq<Event>, o: ObjectId): nat {
    if events == [] then 0
    else
      Heard(events[..|events| - 1], o) + HearsOf(Run(events[..|events| - 1]), events[|events| - 1], o)
  }

  function Mark(s: State, o: ObjectId): nat {
    if o in s.refreshing then 1 else 0
  }

  lemma OneStepKeepsTheMark(s: State, e: Event, o: ObjectId)
    requires forall d :: d in s.queue.interactive ==> Belongs(d, Interactive)
    requires OnTheWay(s, o) <= Mark(s, o) && (!s.queue.closed ==> OnTheWay(s, o) == Mark(s, o))
    ensures Mark(Step(s, e), o) + HearsOf(s, e, o) == Mark(s, o) + StartsOf(s, e, o)
    ensures OnTheWay(Step(s, e), o) <= Mark(Step(s, e), o)
    ensures !Step(s, e).queue.closed ==> OnTheWay(Step(s, e), o) == Mark(Step(s, e), o)
  {
    OneStepMovesRefreshes(s, e, o);
    if HearsOf(s, e, o) == 1 {
      assert multiset(s.reports)[o] >= 1;
    }
    hide OnTheWay;
  }

  lemma {:induction false} BacklogIsBounded(events: seq<Event>)
    ensures |Run(events).queue.background| <= MAX_REFRESH_BACKLOG
    decreases |events|
  {
    if events != [] {
      BacklogIsBounded(events[..|events| - 1]);
    }
  }

  /** After every run: an object is marked iff one more refresh of it was started
      than was heard of, and until the decider goes exactly that one is queued,
      running or reporting back; of no other object is any, and never two. */
  lemma {:induction false} OneRefreshAtATime(events: seq<Event>, o: ObjectId)
    ensures Started(events, o) == Heard(events, o) + Mark(Run(events), o)
    ensures OnTheWay(Run(events), o) <= Mark(Run(events), o)
    ensures !Run(events).queue.closed ==> OnTheWay(Run(events), o) == Mark(Run(events), o)
    decreases |events|
  {
    if events != [] {
      var before, e := events[..|events| - 1], events[|events| - 1];
      OneRefreshAtATime(before, o);
      EachInItsTier(before);
      assert forall d :: d in Run(before).queue.interactive ==> d in Waiting(Run(before).queue, Interactive);
      hide OnTheWay, Step, Mark, HearsOf, StartsOf;
      OneStepKeepsTheMark(Run(before), e, o);
    }
  }

  // --- The locked sections --------------------------------------------------------

  class NetQueue {
    var interactive: seq<Dispatched>
    var background: seq<Dispatched>
    var closed: bool

    function Contents(): Tiers
      reads this
    {
      Tiers(interactive, background, closed)
    }

    constructor ()
      ensures Contents() == IDLE.queue
    {
      interactive, background, closed := [], [], false;
    }

    /** The next job. A background job leaves only when nobody is waiting for an
        interactive one. */
    method Pop() returns (r: Popped)
      modifies this
      ensures r == Next(old(Contents())) && Contents() == WithoutNext(old(Contents()))
      ensures r.Job? <==> old(interactive) != [] || old(background) != []
      ensures r.EndOfStream? <==> old(interactive) == [] && old(background) == [] && closed
      ensures closed == old(closed)
    {
      if interactive != [] {
        r := Job(interactive[0]);
        interactive := interactive[1..];
      } else if background != [] {
        r := Job(background[0]);
        background := background[1..];
      } else if closed {
        r := EndOfStream;
      } else {
        r := Wait;
      }
    }

    method Send(d: Dispatched) returns (accepted: bool)
      modifies this
      ensures accepted == !closed && Contents() == With(old(Contents()), d)
    {
      if closed {
        return false;
      }
      if d.deliver.Detached? {
        background := background + [d];
      } else {
        interactive := interactive + [d];
      }
      accepted := true;
    }

    /** The producer goes: what is still queued is discarded, not worked off. */
    method Close()
      modifies this
      ensures Contents() == Tiers([], [], true)
    {
      closed, interactive, background := true, [], [];
    }
  }

  /** The decider and the workers of the pool. */
  class Scheduler {
    const queue: NetQueue
    var refreshing: set<ObjectId>
    var running: seq<Dispatched>
    var reports: seq<ObjectId>
    /** Everything that has happened. */
    ghost var events: seq<Event>

    /** The state is the one its run leads to. */
    ghost predicate Valid()
      reads this, queue
    {
      Now() == Run(events)
    }

    function Now(): State
      reads this, queue
    {
      State(queue.Contents(), refreshing, running, reports)
    }

    constructor ()
      ensures Valid() && fresh(queue) && events == []
    {
      queue := new NetQueue();
      refreshing, running, reports, events := {}, [], [], [];
    }

    /** A stale listing asks for a refresh. */
    method Refresh(o: ObjectId, busy: bool) returns (started: bool)
      requires Valid() && !queue.closed
      modifies this, queue
      ensures Valid() && events == old(events) + [Event.Refresh(o, busy)]
      ensures started <==> !busy && o !in old(refreshing) && |old(queue.background)| < MAX_REFRESH_BACKLOG
      ensures refreshing == old(refreshing) + if started then {o} else {}
      ensures queue.background == old(queue.background) + if started then [Dispatched(o, Detached)] else []
      ensures queue.interactive == old(queue.interactive) && running == old(running) && reports == old(reports)
      ensures !queue.closed && |queue.background| <= MAX_REFRESH_BACKLOG
    {
      RunOneMore(events, Event.Refresh(o, busy));
      BacklogIsBounded(events + [Event.Refresh(o, busy)]);
      events := events + [Event.Refresh(o, busy)];
      if o in refreshing || busy || |queue.background| >= MAX_REFRESH_BACKLOG {
        return false;
      }
      refreshing := refreshing + {o};
      started := queue.Send(Dispatched(o, Detached));
    }

    /** Work somebody waits for. */
    method Dispatch(d: Awaited)
      requires Valid()
      modifies this, queue
      ensures Valid() && events == old(events) + [Event.Dispatch(d)]
    {
      RunOneMore(events, Event.Dispatch(d));
      events := events + [Event.Dispatch(d)];
      var accepted := queue.Send(d);
    }

    /** A worker takes its next job, if there is one. */
    method TakeJob() returns (r: Popped)
      requires Valid()
      modifies this, queue
      ensures Valid() && events == old(events) + [Take]
      ensures r == Next(old(queue.Contents()))
      // Background work is taken only after everything somebody waited for.
      ensures r.Job? && r.job.deliver.Detached? ==> Taken(old(events), Interactive) == Sent(old(events), Interactive)
    {
      RunOneMore(events, Take);
      EachInItsTier(events);
      if queue.interactive == [] && queue.background != [] {
        assert queue.background[0] in Waiting(queue.Contents(), Background);
        assert (events + [Take])[..|events|] == events;
        NobodyWaitsForBackgroundWork(events + [Take], |events|);
      } else if queue.interactive != [] {
        assert queue.interactive[0] in Waiting(queue.Contents(), Interactive);
      }
      events := events + [Take];
      r := queue.Pop();
      if r.Job? {
        running := running + [r.job];
      }
    }

    /** A worker is done with a job; the end of a refresh is reported. */
    method FinishJob(i: nat)
      requires Valid() && i < |running|
      modifies this
      ensures Valid() && events == old(events) + [Finish(i)]
    {
      RunOneMore(events, Finish(i));
      events := events + [Finish(i)];
      var d := running[i];
      running := running[..i] + running[i + 1..];
      if d.deliver.Detached? && !queue.closed {
        reports := reports + [d.target];
      }
    }

    /** The decider hears of a finished refresh. */
    method Refreshed()
      requires Valid() && !queue.closed && reports != []
      modifies this
      ensures Valid() && events == old(events) + [Hear]
      // It was marked, and is free to be refreshed again.
      ensures old(reports)[0] in old(refreshing) && old(reports)[0] !in refreshing
    {
      RunOneMore(events, Hear);
      OneRefreshAtATime(events, reports[0]);
      assert multiset(reports)[reports[0]] >= 1;
      events := events + [Hear];
      reports, refreshing := reports[1..], refreshing - {reports[0]};
    }

    /** The decider goes. */
    method Shutdown()
      requires Valid()
      modifies this, queue
      ensures Valid() && events == old(events) + [Event.Close]
    {
      RunOneMore(events, Event.Close);
      events := events + [Event.Close];
      queue.Close();
    }
  }
}

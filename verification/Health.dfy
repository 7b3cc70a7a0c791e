/** Whether the server can be used, and what the user is told about it
    (`health.rs`). Each locked section is one step. */
module Health {
  import opened Common

  datatype Fault = Unreachable | Refusing(status: nat)

  /** A request's outcome and when it came. A failure that is not the server's
      or the network's carries no fault. */
  datatype Event = Reached(at: nat) | Failed(at: nat, fault: Option<Fault>)

  datatype Message = Problem(fault: Fault) | Restored | ShowError | ShowIdle

  datatype Timings = Timings(confirmAfter: nat, quietAfterRestore: nat)

  datatype State = State(
    down: bool,
    everOk: bool,
    since: Option<nat>,
    announced: bool,
    marked: bool,
    fault: Option<Fault>,
    restoredAt: Option<nat>)

  function Fresh(): State {
    State(false, false, None, false, false, None, None)
  }

  // --- One step -------------------------------------------------------------------

  predicate Confirmed(t: Timings, s: State, now: nat) {
    s.since.Some? && now >= s.since.value + t.confirmAfter
  }

  predicate QuietTime(t: Timings, s: State, now: nat) {
    s.restoredAt.Some? && now < s.restoredAt.value + t.quietAfterRestore
  }

  function After(t: Timings, s: State, e: Event): (State, seq<Message>) {
    match e
    case Reached(now) =>
      if !s.down then (s.(everOk := true), [])
      else
        (State(false, true, None, false, false, None, if s.announced then Some(now) else s.restoredAt),
         (if s.announced then [Restored] else []) + (if s.marked then [ShowIdle] else []))
    case Failed(_, None) => (s, [])
    case Failed(now, Some(fault)) =>
      if s.since.None? then (s.(fault := Some(fault), since := Some(now), down := true), [])
      else
        var mark := Confirmed(t, s, now) && !s.marked;
        var announce := Confirmed(t, s, now) && !QuietTime(t, s, now) && !s.announced;
        (s.(fault := Some(fault), marked := s.marked || mark, announced := s.announced || announce),
         (if mark then [ShowError] else []) + (if announce then [Problem(fault)] else []))
  }

  class Reachability {
    const timings: Timings
    var down: bool
    var everOk: bool
    var since: Option<nat>
    var announced: bool
    var marked: bool
    var fault: Option<Fault>
    var restoredAt: Option<nat>
    /** What the desktop was told, in order. */
    var told: seq<Message>

    ghost function Now(): State
      reads this
    {
      State(down, everOk, since, announced, marked, fault, restoredAt)
    }

    constructor (timings: Timings)
      ensures this.timings == timings && Now() == Fresh() && told == []
    {
      this.timings := timings;
      down, everOk, since, announced, marked, fault, restoredAt, told :=
          false, false, None, false, false, None, None, [];
    }

    /** A request reached the server. */
    method Ok(now: nat)
      modifies this
      ensures (Now(), told) == var (s, m) := After(timings, old(Now()), Reached(now)); (s, old(told) + m)
    {
      everOk := true;
      if !down {
        assert told == told + [];
        return;
      }
      ghost var before := told;
      var wasAnnounced, wasMarked := announced, marked;
      restoredAt := if announced then Some(now) else restoredAt;
      since, announced, marked, fault := None, false, false, None;
      down := false;
      if wasAnnounced {
        told := told + [Restored];
      }
      if wasMarked {
        told := told + [ShowIdle];
      }
      assert told == before + ((if wasAnnounced then [Restored] else []) + if wasMarked then [ShowIdle] else []);
    }

    /** A request failed. */
    method Failed(now: nat, error: Option<Fault>)
      modifies this
      ensures (Now(), told) == var (s, m) := After(timings, old(Now()), Event.Failed(now, error)); (s, old(told) + m)
    {
      if error.None? {
        assert told == told + [];
        return;
      }
      ghost var before := told;
      fault := error;
      var mark, announce := false, false;
      if since.None? {
        since, down := Some(now), true;
      } else {
        var confirmed := now >= since.value + timings.confirmAfter;
        var quiet := restoredAt.Some? && now < restoredAt.value + timings.quietAfterRestore;
        mark := confirmed && !marked;
        announce := confirmed && !quiet && !announced;
        if mark {
          marked := true;
        }
        if announce {
          announced := true;
        }
      }
      if mark {
        told := told + [ShowError];
      }
      if announce {
        told := told + [Problem(error.value)];
      }
      assert told == before + ((if mark then [ShowError] else []) + if announce then [Problem(error.value)] else []);
    }

    predicate IsDown()
      reads this
    {
      down
    }

    predicate ReachableNow()
      reads this
    {
      everOk && !down
    }
  }

  // --- Runs -----------------------------------------------------------------------

  function Run(t: Timings, events: seq<Event>): State {
    if events == [] then Fresh() else After(t, Run(t, events[..|events| - 1]), events[|events| - 1]).0
  }

  /** What the last event made the desktop show. */
  function Sent(t: Timings, events: seq<Event>): seq<Message>
    requires events != []
  {
    After(t, Run(t, events[..|events| - 1]), events[|events| - 1]).1
  }

  predicate IsNotice(m: Message) {
    m.Problem? || m.Restored?
  }

  function Select(messages: seq<Message>, notices: bool): seq<Message> {
    if messages == [] then []
    else (if IsNotice(messages[0]) == notices then [messages[0]] else []) + Select(messages[1..], notices)
  }

  /** The notices, or the statuses, of a whole run. */
  function Shown(t: Timings, events: seq<Event>, notices: bool): seq<Message> {
    if events == [] then [] else Shown(t, events[..|events| - 1], notices) + Select(Sent(t, events), notices)
  }

  predicate InOrder(events: seq<Event>) {
    forall i, j :: 0 <= i < j < |events| ==> events[i].at <= events[j].at
  }

  predicate Counts(e: Event) {
    e.Failed? && e.fault.Some?
  }

  // --- The outage in force --------------------------------------------------------

  /** The failure the current outage began with. */
  function FirstFailure(events: seq<Event>): (r: Option<nat>)
    ensures r.Some? ==> r.value < |events|
  {
    if events == [] then None
    else
      var before := FirstFailure(events[..|events| - 1]);
      match events[|events| - 1]
      case Reached(_) => None
      case Failed(_, None) => before
      case Failed(_, Some(_)) => if before.Some? then before else Some(|events| - 1)
  }

  /** It counts, nothing was reached since, and no earlier failure can say so. */
  lemma {:induction false} FirstFailureIsTheFirst(events: seq<Event>)
    ensures FirstFailure(events).Some? ==>
              var a := FirstFailure(events).value;
              && Counts(events[a])
              && (forall j :: a <= j < |events| ==> !events[j].Reached?)
              && (forall j :: 0 <= j < a && Counts(events[j]) ==> exists k :: j < k < a && events[k].Reached?)
    ensures FirstFailure(events).None? ==>
              forall j :: 0 <= j < |events| && Counts(events[j]) ==> exists k :: j < k < |events| && events[k].Reached?
  {
    if events != [] {
      var init := events[..|events| - 1];
      FirstFailureIsTheFirst(init);
      if events[|events| - 1].Reached? {
        assert forall j :: 0 <= j < |events| && Counts(events[j]) ==>
            j < |events| - 1 < |events| && events[|events| - 1].Reached?;
      } else if FirstFailure(init).None? {
        forall j | 0 <= j < |init| && Counts(events[j]) ensures exists k :: j < k < |init| && events[k].Reached? {
          assert Counts(init[j]);
          var k :| j < k < |init| && init[k].Reached?;
          assert events[k].Reached?;
        }
      } else {
        forall j | 0 <= j < FirstFailure(init).value && Counts(events[j])
          ensures exists k :: j < k < FirstFailure(init).value && events[k].Reached?
        {
          assert Counts(init[j]);
          var k :| j < k < FirstFailure(init).value && init[k].Reached?;
          assert events[k].Reached?;
        }
      }
    }
  }

  /** When the last announced outage ended. */
  function LastRestored(t: Timings, events: seq<Event>): Option<nat> {
    if events == [] then None
    else if Restored in Sent(t, events) then Some(events[|events| - 1].at)
    else LastRestored(t, events[..|events| - 1])
  }

  /** A failure of the current outage, not its first, that came late enough. */
  predicate ConfirmedBy(t: Timings, events: seq<Event>, k: nat) {
    && FirstFailure(events).Some? && FirstFailure(events).value < k < |events| && Counts(events[k])
    && events[k].at >= events[FirstFailure(events).value].at + t.confirmAfter
  }

  predicate AfterQuiet(t: Timings, events: seq<Event>, k: nat)
    requires k < |events|
  {
    LastRestored(t, events).Some? ==> events[k].at >= LastRestored(t, events).value + t.quietAfterRestore
  }

  /** What the state says, in terms of the run: down since the first failure;
      marked once a later one confirmed it; announced once one did so outside
      the quiet time. */
  ghost predicate Tells(t: Timings, events: seq<Event>, s: State) {
    && (s.down <==> FirstFailure(events).Some?)
    && s.since == (if FirstFailure(events).Some? then Some(events[FirstFailure(events).value].at) else None)
    && s.restoredAt == LastRestored(t, events)
    && (s.everOk <==> exists i :: 0 <= i < |events| && events[i].Reached?)
    && (s.marked <==> exists k :: ConfirmedBy(t, events, k))
    && (s.announced <==> exists k :: ConfirmedBy(t, events, k) && AfterQuiet(t, events, k))
  }

  lemma {:induction false} StateTells(t: Timings, events: seq<Event>)
    ensures Tells(t, events, Run(t, events))
  {
    if events != [] {
      var init := events[..|events| - 1];
      StateTells(t, init);
      match events[|events| - 1]
      case Reached(_) => ReachedTells(t, events);
      case Failed(_, None) => OtherTells(t, events);
      case Failed(_, Some(_)) => FailedTells(t, events);
    }
  }

  lemma ReachedTells(t: Timings, events: seq<Event>)
    requires events != [] && events[|events| - 1].Reached?
               && Tells(t, events[..|events| - 1], Run(t, events[..|events| - 1]))
    ensures Tells(t, events, Run(t, events))
  {
    var init := events[..|events| - 1];
    var was := Run(t, init);
    assert was.announced ==> was.down;
    assert events[|events| - 1].Reached?;
  }

  /** The earlier failures of an outage that goes on confirm it as before. */
  lemma SameConfirmations(t: Timings, events: seq<Event>, k: nat)
    requires events != [] && !events[|events| - 1].Reached? && k < |events| - 1
    requires LastRestored(t, events) == LastRestored(t, events[..|events| - 1])
    ensures ConfirmedBy(t, events, k) <==> ConfirmedBy(t, events[..|events| - 1], k)
    ensures AfterQuiet(t, events, k) <==> AfterQuiet(t, events[..|events| - 1], k)
  {
  }

  lemma SameReached(init: seq<Event>, e: Event)
    requires !e.Reached?
    ensures (exists i :: 0 <= i < |init + [e]| && (init + [e])[i].Reached?) <==>
              (exists i :: 0 <= i < |init| && init[i].Reached?)
  {
    if i :| 0 <= i < |init| && init[i].Reached? {
      assert (init + [e])[i].Reached?;
    }
  }

  lemma OtherTells(t: Timings, events: seq<Event>)
    requires events != [] && events[|events| - 1].Failed? && !Counts(events[|events| - 1])
    requires Tells(t, events[..|events| - 1], Run(t, events[..|events| - 1]))
    ensures Tells(t, events, Run(t, events))
  {
    var init := events[..|events| - 1];
    assert events == init + [events[|events| - 1]];
    SameReached(init, events[|events| - 1]);
    forall k: nat ensures ConfirmedBy(t, events, k) <==> ConfirmedBy(t, init, k) {
      if k < |events| - 1 {
        SameConfirmations(t, events, k);
      }
    }
    forall k: nat | k < |init| ensures AfterQuiet(t, events, k) <==> AfterQuiet(t, init, k) {
      SameConfirmations(t, events, k);
    }
    assert Run(t, events) == Run(t, init);
    assert forall k: nat :: ConfirmedBy(t, events, k) ==> k < |init|;
  }

  lemma FailedTells(t: Timings, events: seq<Event>)
    requires events != [] && Counts(events[|events| - 1])
    requires Tells(t, events[..|events| - 1], Run(t, events[..|events| - 1]))
    ensures Tells(t, events, Run(t, events))
  {
    var init, last := events[..|events| - 1], |events| - 1;
    var was, now := Run(t, init), events[last].at;
    assert events == init + [events[last]];
    SameReached(init, events[last]);
    forall k: nat | k < last
      ensures ConfirmedBy(t, events, k) <==> ConfirmedBy(t, init, k)
      ensures AfterQuiet(t, events, k) <==> AfterQuiet(t, init, k)
    {
      SameConfirmations(t, events, k);
    }
    assert ConfirmedBy(t, events, last) <==> Confirmed(t, was, now);
    assert AfterQuiet(t, events, last) <==> !QuietTime(t, was, now);
  }

  /** The failure that came last, with nothing reached since. */
  predicate IsLatest(events: seq<Event>, k: nat) {
    k < |events| && Counts(events[k]) && forall j :: k < j < |events| ==> !Counts(events[j]) && !events[j].Reached?
  }

  /** There is a fault to name exactly during an outage, and it is that of the latest
      failure. */
  lemma {:induction false} FaultIsTheLatest(t: Timings, events: seq<Event>, k: nat)
    ensures Run(t, events).fault.Some? <==> Run(t, events).down
    ensures Run(t, events).down <==> Run(t, events).since.Some?
    ensures IsLatest(events, k) ==> Run(t, events).fault == events[k].fault
  {
    if events != [] {
      var init := events[..|events| - 1];
      FaultIsTheLatest(t, init, k);
      if IsLatest(events, k) && k < |init| {
        forall j | k < j < |init| ensures !Counts(init[j]) && !init[j].Reached? {
          assert events[j] == init[j];
        }
        assert IsLatest(init, k);
        assert !Counts(events[|events| - 1]) && !events[|events| - 1].Reached?;
      }
    }
  }

  // --- What the user sees ---------------------------------------------------------

  /** A problem is announced only for a stretch of failures, with nothing reached
      in between, that lasted at least as long as it takes to confirm one, and
      long enough after every earlier recovery that was announced. */
  lemma ProblemIsConfirmed(t: Timings, events: seq<Event>, fault: Fault, k: nat)
    requires InOrder(events) && events != [] && Problem(fault) in Sent(t, events)
    requires k < |events| - 1 && Restored in Sent(t, events[..k + 1])
    ensures events[|events| - 1].at >= events[k].at + t.quietAfterRestore
  {
    var init := events[..|events| - 1];
    assert events[..k + 1] == init[..k + 1];
    RestoredBefore(t, init, k);
    StateTells(t, init);
    hide Tells, Run, LastRestored;
    assert Run(t, init).restoredAt == LastRestored(t, init) by { RestoredAtIs(t, init); }
  }

  lemma ProblemFollowsFailures(t: Timings, events: seq<Event>, fault: Fault)
    requires events != [] && Problem(fault) in Sent(t, events)
    ensures FirstFailure(events).Some?
    ensures var a, last := FirstFailure(events).value, events[|events| - 1];
            && Counts(events[a]) && Counts(last) && last.fault == Some(fault)
            && last.at >= events[a].at + t.confirmAfter
            && forall j :: a <= j < |events| ==> !events[j].Reached?
  {
    StateTells(t, events[..|events| - 1]);
    FirstFailureIsTheFirst(events);
  }

  lemma RestoredAtIs(t: Timings, events: seq<Event>)
    ensures Run(t, events).restoredAt == LastRestored(t, events)
  {
    StateTells(t, events);
  }

  lemma {:induction false} RestoredBefore(t: Timings, events: seq<Event>, k: nat)
    requires InOrder(events) && k < |events| && Restored in Sent(t, events[..k + 1])
    ensures LastRestored(t, events).Some? && events[k].at <= LastRestored(t, events).value
  {
    if k == |events| - 1 {
      assert events[..k + 1] == events;
    } else if Restored !in Sent(t, events) {
      assert events[..|events| - 1][..k + 1] == events[..k + 1];
      RestoredBefore(t, events[..|events| - 1], k);
    }
  }

  /** A long outage is never lost: at any moment, the user has been told of the
      current one iff one of its failures came late enough and outside the
      quiet time. */
  lemma LongOutageIsTold(t: Timings, events: seq<Event>)
    ensures var s := Run(t, events);
            && (s.announced <==> exists k :: ConfirmedBy(t, events, k) && AfterQuiet(t, events, k))
            && (s.announced ==> s.marked) && (s.marked ==> s.down)
  {
    StateTells(t, events);
  }

  predicate Alternate(messages: seq<Message>, odd: bool) {
    && (forall i :: 0 <= i < |messages| ==> (messages[i].Problem? || messages[i].ShowError? <==> i % 2 == 0))
    && (|messages| % 2 == 1 <==> odd)
  }

  /** Notices tell of a problem and of its end in turn, and statuses show the
      error and its end in turn. */
  lemma {:induction false} MessagesAlternate(t: Timings, events: seq<Event>)
    ensures Alternate(Shown(t, events, true), Run(t, events).announced)
    ensures Alternate(Shown(t, events, false), Run(t, events).marked)
    ensures forall m :: m in Shown(t, events, true) ==> IsNotice(m)
    ensures forall m :: m in Shown(t, events, false) ==> !IsNotice(m)
  {
    if events != [] {
      var init := events[..|events| - 1];
      MessagesAlternate(t, init);
      LongOutageIsTold(t, init);
      var s := Run(t, init);
      SentIsInTurn(t, s, events[|events| - 1]);
      hide After, Select, Alternate, IsNotice;
      OneMoreInTurn(Shown(t, init, true), s.announced, Run(t, events).announced, Select(Sent(t, events), true), true);
      OneMoreInTurn(Shown(t, init, false), s.marked, Run(t, events).marked, Select(Sent(t, events), false), false);
    }
  }

  lemma OneMoreInTurn(shown: seq<Message>, was: bool, now: bool, more: seq<Message>, notices: bool)
    requires Alternate(shown, was) && forall m :: m in shown ==> IsNotice(m) == notices
    requires forall m :: m in more ==> IsNotice(m) == notices
    requires |more| == if was == now then 0 else 1
    requires more != [] ==> (more[0].Problem? || more[0].ShowError? <==> now)
    ensures Alternate(shown + more, now) && forall m :: m in shown + more ==> IsNotice(m) == notices
  {
  }

  /** One event adds at most one notice and one status, each the next in turn. */
  lemma SentIsInTurn(t: Timings, s: State, e: Event)
    requires (s.announced ==> s.down) && (s.marked ==> s.down)
    ensures var (n, m) := After(t, s, e);
            && Select(m, true) == (if s.announced && !n.announced then [Restored]
                                   else if !s.announced && n.announced then [Problem(e.fault.value)] else [])
            && Select(m, false) == (if s.marked && !n.marked then [ShowIdle]
                                    else if !s.marked && n.marked then [ShowError] else [])
            && (!s.announced && n.announced ==> Counts(e))
            && (forall x :: x in Select(m, true) ==> IsNotice(x))
                && (forall x :: x in Select(m, false) ==> !IsNotice(x))
  {
    match e
    case Reached(now) =>
      SelectPair(s.announced, Restored, s.marked, ShowIdle, true);
      SelectPair(s.announced, Restored, s.marked, ShowIdle, false);
      NothingToSelect();
      hide Select;
    case Failed(_, None) =>
    case Failed(now, Some(fault)) =>
      var mark, announce := Confirmed(t, s, now) && !s.marked, Confirmed(t, s, now) && !QuietTime(t, s, now)
          && !s.announced;
      SelectPair(mark, ShowError, announce, Problem(fault), true);
      SelectPair(mark, ShowError, announce, Problem(fault), false);
      NothingToSelect();
      hide Select, Confirmed, QuietTime;
  }

  lemma NothingToSelect()
    ensures forall notices :: Select([], notices) == []
  {
  }

  lemma SelectPair(a: bool, x: Message, b: bool, y: Message, notices: bool)
    ensures Select((if a then [x] else []) + (if b then [y] else []), notices)
            == (if a && IsNotice(x) == notices then [x] else []) + (if b && IsNotice(y) == notices then [y] else [])
  {
    var first, second := if a then [x] else [], if b then [y] else [];
    if b {
      SelectOne(y, notices);
    } else {
      NothingToSelect();
    }
    if a {
      assert (first + second)[1..] == second;
    } else {
      assert first + second == second;
    }
  }

  lemma SelectOne(m: Message, notices: bool)
    ensures Select([m], notices) == if IsNotice(m) == notices then [m] else []
  {
    assert [m][1..] == [];
  }
}

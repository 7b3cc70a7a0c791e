/** The pins file shared by processes (`Pins::change`, `with`, `write` and `Lock`
    in `pins.rs`), one file operation at a time. */
module PinFile {
  import opened Common
  import opened PinMap

  /** In milliseconds. */
  const STALE_AFTER: nat := 30000

  type Change = Pins -> Pins

  /** Where a change stands: waiting for the lock, about to remove a lock it
      found stale, holding it, and the steps under it; or refused, the lock never
      having been free. A process that crashed takes no more steps. */
  datatype Stage =
    | Waiting | Breaking | Holding | HasRead(pins: Pins) | Renamed(version: nat) | Adopted | Done | Refused

  datatype Writer = Writer(host: nat, change: Change, stage: Stage)

  /** What a process remembers: the contents, by version, and the stamp it goes
      by. Stamps are unique, so a stamp is the version it was taken of. */
  datatype Cache = Unread | Loaded(stamp: nat, version: nat)

  /** A question that took the file's stamp and may have been answered. */
  datatype Query = Query(host: nat, stamp: nat, answer: Option<nat>)

  /** `versions` are the contents the file went through, `log` the writers in
      the order of their renames, `lock` the time the lock was created. */
  datatype State = State(
    versions: seq<Pins>,
    lock: Option<nat>,
    now: nat,
    writers: seq<Writer>,
    log: seq<nat>,
    caches: map<nat, Cache>,
    queries: seq<Query>)

  datatype Step =
    | Tick(elapsed: nat)
    | Take(i: nat)
    | Look(i: nat)
    | Break(i: nat)
    | ReadFile(i: nat)
    | Rename(i: nat)
    | Adopt(i: nat)
    | Release(i: nat)
    | GiveUp(i: nat)
    | Ask(host: nat)
    | Answer(q: nat)

  function Current(s: State): nat
    requires s.versions != []
  {
    |s.versions| - 1
  }

  function CacheOf(s: State, host: nat): Cache {
    if host in s.caches then s.caches[host] else Unread
  }

  predicate Enabled(s: State, step: Step) {
    && s.versions != []
    && match step
       case Tick(_) => true
       case Take(i) => i < |s.writers| && s.writers[i].stage.Waiting? && s.lock.None?
       case Look(i) => i < |s.writers| && s.writers[i].stage.Waiting? && s.lock.Some?
       case Break(i) => i < |s.writers| && s.writers[i].stage.Breaking?
       case ReadFile(i) => i < |s.writers| && s.writers[i].stage.Holding?
       case Rename(i) => i < |s.writers| && s.writers[i].stage.HasRead?
       case Adopt(i) => i < |s.writers| && s.writers[i].stage.Renamed?
       case Release(i) => i < |s.writers| && s.writers[i].stage.Adopted?
       case GiveUp(i) => i < |s.writers| && s.writers[i].stage.Waiting?
       case Ask(_) => true
       case Answer(q) => q < |s.queries| && s.queries[q].answer.None?
  }

  function Staged(s: State, i: nat, stage: Stage): seq<Writer>
    requires i < |s.writers|
  {
    s.writers[i := s.writers[i].(stage := stage)]
  }

  function Answered(s: State, q: nat, version: nat): seq<Query>
    requires q < |s.queries|
  {
    s.queries[q := s.queries[q].(answer := Some(version))]
  }

  function After(s: State, step: Step): State
    requires Enabled(s, step)
  {
    match step
    case Tick(elapsed) => s.(now := s.now + elapsed)
    case Take(i) => s.(lock := Some(s.now), writers := Staged(s, i, Holding))
    case Look(i) =>
      if s.now > s.lock.value && s.now - s.lock.value > STALE_AFTER then s.(writers := Staged(s, i, Breaking)) else s
    case Break(i) => s.(lock := None, writers := Staged(s, i, Waiting))
    case ReadFile(i) => s.(writers := Staged(s, i, HasRead(s.versions[Current(s)])))
    case Rename(i) =>
      s.(versions := s.versions + [s.writers[i].change(s.writers[i].stage.pins)],
         log := s.log + [i],
         writers := Staged(s, i, Renamed(|s.versions|)))
    case Adopt(i) =>
      s.(caches := s.caches[s.writers[i].host := Loaded(Current(s), s.writers[i].stage.version)],
          writers := Staged(s, i, Adopted))
    case Release(i) => s.(lock := None, writers := Staged(s, i, Done))
    case GiveUp(i) => s.(writers := Staged(s, i, Refused))
    case Ask(host) => s.(queries := s.queries + [Query(host, Current(s), None)])
    case Answer(q) =>
      var ask := s.queries[q];
      var cache := CacheOf(s, ask.host);
      if cache.Loaded? && cache.stamp == ask.stamp then s.(queries := Answered(s, q, cache.version))
      else s.(caches := s.caches[ask.host := Loaded(ask.stamp, Current(s))], queries := Answered(s, q, Current(s)))
  }

  function Run(s: State, steps: seq<Step>): Option<State> {
    if steps == [] then Some(s)
    else
      match Run(s, steps[..|steps| - 1])
      case Some(m) =>
        var step := steps[|steps| - 1];
        if Enabled(m, step) then Some(After(m, step)) else None
      case None => None
  }

  predicate Initial(s: State) {
    && |s.versions| == 1 && s.lock.None? && s.log == [] && s.caches == map[] && s.queries == []
    && forall i :: 0 <= i < |s.writers| ==> s.writers[i].stage.Waiting?
  }

  /** No lock that anybody looks at is older than `limit`. */
  predicate LocksAreShort(s: State, steps: seq<Step>, limit: nat) {
    steps == [] ||
    var init, step := steps[..|steps| - 1], steps[|steps| - 1];
    && LocksAreShort(s, init, limit)
    && (Run(s, init).Some? && step.Look? && Run(s, init).value.lock.Some? ==>
          Run(s, init).value.now - Run(s, init).value.lock.value <= limit)
  }

  // --- No change is lost ----------------------------------------------------------

  /** Every version is the one before it with one writer's change made, in the
      order of the log. */
  predicate Lossless(s: State) {
    && |s.log| + 1 == |s.versions|
    && forall k :: 0 <= k < |s.log| ==>
         s.log[k] < |s.writers| && s.versions[k + 1] == s.writers[s.log[k]].change(s.versions[k])
  }

  predicate Critical(w: Writer) {
    w.stage.Holding? || w.stage.HasRead? || w.stage.Renamed? || w.stage.Adopted?
  }

  predicate UpToDate(s: State, w: Writer) {
    && !w.stage.Breaking?
    && (w.stage.HasRead? ==> s.versions != [] && w.stage.pins == s.versions[|s.versions| - 1])
    && (w.stage.Renamed? ==> w.stage.version + 1 == |s.versions|)
  }

  predicate CacheIsNew(s: State, cache: Cache) {
    cache.Loaded? ==> cache.stamp <= cache.version < |s.versions|
  }

  predicate AnswerIsNew(s: State, q: Query) {
    q.stamp < |s.versions| && (q.answer.Some? ==> q.stamp <= q.answer.value < |s.versions|)
  }

  predicate Inv(s: State) {
    && Lossless(s)
    && (forall i, j ::
          0 <= i < |s.writers| && 0 <= j < |s.writers| && Critical(s.writers[i]) && Critical(s.writers[j]) ==> i == j)
    && (forall i :: 0 <= i < |s.writers| ==> (Critical(s.writers[i]) ==> s.lock.Some?) && UpToDate(s, s.writers[i]))
    && (forall host :: host in s.caches ==> CacheIsNew(s, s.caches[host]))
    && (forall q :: 0 <= q < |s.queries| ==> AnswerIsNew(s, s.queries[q]))
  }

  lemma StepKeepsWriters(s: State, step: Step, i: nat)
    requires Inv(s) && Enabled(s, step) && i < |s.writers|
    requires step.Look? ==> s.now - s.lock.value <= STALE_AFTER
    ensures var n := After(s, step);
            |n.writers| == |s.writers| && n.writers[i].change == s.writers[i].change
            && (Critical(n.writers[i]) ==> n.lock.Some?) && UpToDate(n, n.writers[i])
  {
    assert UpToDate(s, s.writers[i]);
  }

  lemma StepKeepsAnswers(s: State, step: Step)
    requires Inv(s) && Enabled(s, step)
    ensures var n := After(s, step);
            && (forall host :: host in n.caches ==> CacheIsNew(n, n.caches[host]))
            && (forall q :: 0 <= q < |n.queries| ==> AnswerIsNew(n, n.queries[q]))
  {
    var n := After(s, step);
    hide Lossless;
    forall host | host in n.caches ensures CacheIsNew(n, n.caches[host]) {
      assert host in s.caches ==> CacheIsNew(s, s.caches[host]);
      assert step.Adopt? ==> UpToDate(s, s.writers[step.i]);
      assert step.Answer? ==> AnswerIsNew(s, s.queries[step.q]);
    }
    forall q | 0 <= q < |n.queries| ensures AnswerIsNew(n, n.queries[q]) {
      if q < |s.queries| {
        assert AnswerIsNew(s, s.queries[q]);
        assert CacheIsNew(s, CacheOf(s, s.queries[q].host));
      }
    }
  }

  lemma StepKeeps(s: State, step: Step)
    requires Inv(s) && Enabled(s, step)
    requires step.Look? ==> s.now - s.lock.value <= STALE_AFTER
    ensures Inv(After(s, step))
  {
    var n := After(s, step);
    StepKeepsAnswers(s, step);
    hide CacheIsNew, AnswerIsNew;
    forall i: nat | i < |n.writers|
      ensures n.writers[i].change == s.writers[i].change && (Critical(n.writers[i]) ==> n.lock.Some?)
                && UpToDate(n, n.writers[i])
    {
      StepKeepsWriters(s, step, i);
    }
    assert step.Rename? ==> UpToDate(s, s.writers[step.i]);
  }

  lemma {:induction false} EveryRunKeeps(s: State, steps: seq<Step>)
    requires Initial(s) && Run(s, steps).Some? && LocksAreShort(s, steps, STALE_AFTER)
    ensures Inv(Run(s, steps).value)
  {
    if steps != [] {
      EveryRunKeeps(s, steps[..|steps| - 1]);
      StepKeeps(Run(s, steps[..|steps| - 1]).value, steps[|steps| - 1]);
    }
  }

  /** A question is answered from contents no older than when it was asked. */
  lemma AnswersAreNeverOld(s: State, steps: seq<Step>, q: nat)
    requires Initial(s) && Run(s, steps).Some? && LocksAreShort(s, steps, STALE_AFTER)
    requires q < |Run(s, steps).value.queries| && Run(s, steps).value.queries[q].answer.Some?
    ensures var t := Run(s, steps).value;
            t.queries[q].stamp <= t.queries[q].answer.value < |t.versions|
  {
    EveryRunKeeps(s, steps);
    assert AnswerIsNew(Run(s, steps).value, Run(s, steps).value.queries[q]);
  }

  /** The change has been made. */
  predicate Made(w: Writer) {
    w.stage.Renamed? || w.stage.Adopted? || w.stage.Done?
  }

  predicate IsThere(versions: seq<Pins>, pins: Pins) {
    exists k :: 0 <= k < |versions| && versions[k] == pins
  }

  /** Every version is a change of some version before it, and a writer that has read
      holds one there was. */
  predicate Derived(s: State) {
    && |s.log| + 1 == |s.versions|
    && (forall k :: 0 <= k < |s.log| ==>
          s.log[k] < |s.writers|
          && exists j :: 0 <= j <= k && s.versions[k + 1] == s.writers[s.log[k]].change(s.versions[j]))
    && (forall i :: 0 <= i < |s.writers| && s.writers[i].stage.HasRead? ==>
          IsThere(s.versions, s.writers[i].stage.pins))
  }

  predicate MadeOnce(s: State, i: nat)
    requires i < |s.writers|
  {
    multiset(s.log)[i] == if Made(s.writers[i]) then 1 else 0
  }

  lemma StepMakesOnce(s: State, step: Step, i: nat)
    requires Enabled(s, step) && i < |s.writers| && MadeOnce(s, i)
    ensures |After(s, step).writers| == |s.writers| && MadeOnce(After(s, step), i)
  {
  }

  lemma StepDerives(s: State, step: Step)
    requires Enabled(s, step) && Derived(s)
    ensures Derived(After(s, step))
  {
    var n := After(s, step);
    assert s.versions <= n.versions;
    forall k | 0 <= k < |n.log|
      ensures n.log[k] < |n.writers|
              && exists j :: 0 <= j <= k && n.versions[k + 1] == n.writers[n.log[k]].change(n.versions[j])
    {
      if k < |s.log| {
        var j :| 0 <= j <= k && s.versions[k + 1] == s.writers[s.log[k]].change(s.versions[j]);
        assert n.versions[k + 1] == n.writers[n.log[k]].change(n.versions[j]);
      } else {
        var j :| 0 <= j < |s.versions| && s.versions[j] == s.writers[step.i].stage.pins;
        assert n.versions[k + 1] == n.writers[n.log[k]].change(n.versions[j]);
      }
    }
    forall i | 0 <= i < |n.writers| && n.writers[i].stage.HasRead?
      ensures IsThere(n.versions, n.writers[i].stage.pins)
    {
      StillThere(s, step, i);
    }
  }

  lemma StillThere(s: State, step: Step, i: nat)
    requires Enabled(s, step) && Derived(s) && i < |s.writers|
    requires After(s, step).writers[i].stage.HasRead?
    ensures IsThere(After(s, step).versions, After(s, step).writers[i].stage.pins)
  {
    var n := After(s, step);
    if s.writers[i].stage.HasRead? {
      var k :| 0 <= k < |s.versions| && s.versions[k] == s.writers[i].stage.pins;
      assert n.versions[k] == n.writers[i].stage.pins;
    } else {
      assert n.versions[Current(s)] == n.writers[i].stage.pins;
    }
  }

  /** However long locks are held: a change that was reported as done was made, in
      one version and no other; one that was refused, or has not come that far, in
      none; and every version is some earlier one so changed. */
  lemma {:induction false} EveryChangeIsMadeOnce(s: State, steps: seq<Step>, i: nat)
    requires Initial(s) && Run(s, steps).Some? && i < |s.writers|
    ensures var t := Run(s, steps).value;
            && |t.writers| == |s.writers| && Derived(t) && MadeOnce(t, i)
            && t.writers[i].change == s.writers[i].change
  {
    if steps != [] {
      EveryChangeIsMadeOnce(s, steps[..|steps| - 1], i);
      var m, step := Run(s, steps[..|steps| - 1]).value, steps[|steps| - 1];
      StepMakesOnce(m, step, i);
      StepDerives(m, step);
    }
  }

  // --- Exactly as long as locks are short -----------------------------------------

  ghost predicate Loses(s: State, steps: seq<Step>, limit: nat) {
    Initial(s) && LocksAreShort(s, steps, limit) && Run(s, steps).Some? && !Lossless(Run(s, steps).value)
  }

  /** No run loses a change iff no lock may grow older than the age at which it
      counts as abandoned. */
  lemma NothingIsLostExactly(limit: nat)
    ensures (forall s, steps :: !Loses(s, steps, limit)) <==> limit <= STALE_AFTER
  {
    if limit <= STALE_AFTER {
      forall s, steps ensures !Loses(s, steps, limit) {
        if Initial(s) && LocksAreShort(s, steps, limit) && Run(s, steps).Some? {
          ShorterIsShort(s, steps, limit);
          EveryRunKeeps(s, steps);
        }
      }
    } else {
      TakenOverWriterOverwrites(limit);
    }
  }

  lemma {:induction false} ShorterIsShort(s: State, steps: seq<Step>, limit: nat)
    requires LocksAreShort(s, steps, limit) && limit <= STALE_AFTER
    ensures LocksAreShort(s, steps, STALE_AFTER)
  {
    if steps != [] {
      ShorterIsShort(s, steps[..|steps| - 1], limit);
    }
  }

  function Pinning(path: string): Change {
    (pins: Pins) => pins[path := false]
  }

  /** Two writers on an empty file. */
  function Two(): State {
    State([map[]], None, 0, [Writer(0, Pinning("a"), Waiting), Writer(1, Pinning("b"), Waiting)], [], map[], [])
  }

  /** The first is slow between reading and renaming; the second finds its lock
      stale, takes over, and finishes; then the first goes on. */
  function TakeOver(): seq<Step> {
    [Take(0), ReadFile(0), Tick(STALE_AFTER + 1), Look(1), Break(1), Take(1), ReadFile(1), Rename(1), Rename(0)]
  }

  lemma RunPrefix(s: State, steps: seq<Step>, k: nat)
    requires k < |steps| && Run(s, steps[..k]).Some? && Enabled(Run(s, steps[..k]).value, steps[k])
    ensures Run(s, steps[..k + 1]) == Some(After(Run(s, steps[..k]).value, steps[k]))
  {
    assert steps[..k + 1][..k] == steps[..k];
  }

  lemma ShortPrefix(s: State, steps: seq<Step>, k: nat, limit: nat)
    requires k < |steps| && LocksAreShort(s, steps[..k], limit)
    requires Run(s, steps[..k]).Some? && steps[k].Look? && Run(s, steps[..k]).value.lock.Some? ==>
               Run(s, steps[..k]).value.now - Run(s, steps[..k]).value.lock.value <= limit
    ensures LocksAreShort(s, steps[..k + 1], limit)
  {
    assert steps[..k + 1][..k] == steps[..k];
  }

  /** The state after `k` steps of the takeover. */
  ghost predicate TakingOver(k: nat, s: State) {
    && s.caches == map[] && s.queries == [] && |s.writers| == 2
    && s.writers[0].change == Pinning("a") && s.writers[1].change == Pinning("b")
    && s.writers[0].stage == (if k == 0 then Waiting else if k == 1 then Holding else if k < 9 then HasRead(map[])
        else Renamed(2))
    && s.writers[1].stage == (if k < 4 then Waiting else if k == 4 then Breaking else if k == 5 then Waiting
                              else if k == 6 then Holding else if k == 7 then HasRead(map[]) else Renamed(1))
    && s.lock == (if k == 0 || k == 5 then None else if k < 5 then Some(0) else Some(STALE_AFTER + 1))
    && s.now == (if k < 3 then 0 else STALE_AFTER + 1)
    && s.versions == (if k < 8 then [map[]] else if k == 8 then [map[], map["b" := false]]
        else [map[], map["b" := false], map["a" := false]])
    && s.log == (if k < 8 then [] else if k == 8 then [1] else [1, 0])
  }

  lemma TakeOverGoesOn(k: nat, s: State)
    requires k < 9 && TakingOver(k, s)
    ensures Enabled(s, TakeOver()[k]) && TakingOver(k + 1, After(s, TakeOver()[k]))
    ensures TakeOver()[k].Look? && s.lock.Some? ==> s.now - s.lock.value <= STALE_AFTER + 1
  {
  }

  lemma TakeOverUpTo(k: nat, limit: nat) returns (s: State)
    requires k <= 9 && limit > STALE_AFTER
    ensures Run(Two(), TakeOver()[..k]) == Some(s) && LocksAreShort(Two(), TakeOver()[..k], limit)
    ensures TakingOver(k, s)
  {
    if k == 0 {
      s := Two();
    } else {
      var m := TakeOverUpTo(k - 1, limit);
      TakeOverGoesOn(k - 1, m);
      assert |TakeOver()| == 9;
      hide TakingOver, TakeOver, Enabled, After, Run, LocksAreShort;
      RunPrefix(Two(), TakeOver(), k - 1);
      ShortPrefix(Two(), TakeOver(), k - 1, limit);
      s := After(m, TakeOver()[k - 1]);
    }
  }

  lemma TakenOverWriterOverwrites(limit: nat)
    requires limit > STALE_AFTER
    ensures Loses(Two(), TakeOver(), limit)
  {
    var s := TakeOverUpTo(9, limit);
    assert TakeOver()[..9] == TakeOver();
    assert s.versions[2] == map["a" := false];
    assert s.writers[s.log[1]].change(s.versions[1]) == map["b" := false]["a" := false];
    assert "b" !in s.versions[2];
  }

  // --- The lock that was not its own ----------------------------------------------

  function BothTakeOver(i: nat, j: nat): seq<Step> {
    [Look(i), Look(j), Break(i), Take(i), Break(j), Take(j)]
  }

  /** The first has removed the stale lock, the second is about to. */
  lemma StaleLockRemoved(s: State, i: nat, j: nat) returns (freed: State)
    requires s.versions != [] && i < |s.writers| && j < |s.writers| && i != j
    requires s.writers[i].stage.Waiting? && s.writers[j].stage.Waiting?
    requires s.lock.Some? && s.now > s.lock.value && s.now - s.lock.value > STALE_AFTER
    ensures Run(s, BothTakeOver(i, j)[..3]) == Some(freed)
    ensures freed.versions != [] && |freed.writers| == |s.writers| && freed.writers[i].stage == Waiting
              && freed.writers[j].stage == Breaking && freed.lock == None
  {
    var steps := BothTakeOver(i, j);
    assert steps[..0] == [];
    RunPrefix(s, steps, 0);
    RunPrefix(s, steps, 1);
    RunPrefix(s, steps, 2);
    freed := Run(s, steps[..3]).value;
  }

  /** Two processes that both found an abandoned lock stale: the second removes
      the lock the first has just taken, and both hold it. */
  lemma TakeOverRemovesAFreshLock(s: State, i: nat, j: nat) returns (both: State)
    requires s.versions != [] && i < |s.writers| && j < |s.writers| && i != j
    requires s.writers[i].stage.Waiting? && s.writers[j].stage.Waiting?
    requires s.lock.Some? && s.now > s.lock.value && s.now - s.lock.value > STALE_AFTER
    ensures Run(s, [Look(i), Look(j), Break(i), Take(i), Break(j), Take(j)]) == Some(both)
    ensures |both.writers| == |s.writers| && both.writers[i].stage == Holding && both.writers[j].stage == Holding
  {
    var freed := StaleLockRemoved(s, i, j);
    var steps := BothTakeOver(i, j);
    SecondRemovesIt(freed, i, j);
    hide After, Enabled;
    RunPrefix(s, steps, 3);
    RunPrefix(s, steps, 4);
    RunPrefix(s, steps, 5);
    assert steps[..6] == steps;
    both := Run(s, steps).value;
  }

  lemma SecondRemovesIt(freed: State, i: nat, j: nat)
    requires i < |freed.writers| && j < |freed.writers| && i != j
    requires freed.versions != [] && freed.writers[i].stage == Waiting && freed.writers[j].stage == Breaking
               && freed.lock == None
    ensures Enabled(freed, Take(i)) && Enabled(After(freed, Take(i)), Break(j))
    ensures var again := After(After(freed, Take(i)), Break(j));
            && Enabled(again, Take(j))
            && var both := After(again, Take(j));
               |both.writers| == |freed.writers| && both.writers[i].stage == Holding && both.writers[j].stage == Holding
  {
  }
}

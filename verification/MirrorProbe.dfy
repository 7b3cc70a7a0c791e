/** The syncer's loop: probe the root's ETag, walk unless it is the one the last
    undisturbed walk vouches for, and remember it if this walk was undisturbed. */
module MirrorProbe {
  import opened Common
  import opened Activity
  import opened MirrorRows
  import opened MirrorStages
  import opened MirrorWalk
  import opened MirrorSync
  import opened MirrorTheorems
  import opened MirrorBusy
  import opened MirrorReload
  import MirrorBeside

  /** What one trigger came to: nothing is cached yet, the probe (made at version
      `at`) skipped the walk, or a walk ran with the outcome, the machine's busy
      set, the write epoch and the busy count as given, after a probe that read
      `root`, listing by listing, and came to its end or not. */
  datatype Trigger =
    | NothingCached
    | Probed(at: nat)
    | WalkRan(o: Outcome, busy: set<nat>, root: Option<Etag>, epoch: nat, since: nat, stages: seq<Stage>, ended: bool)

  /** Neither count has moved since the walk began. */
  ghost predicate Undisturbed(trigger: Trigger, world: World)
    requires trigger.WalkRan?
    reads world, world.activity
  {
    world.writeEpoch == trigger.epoch && |world.activity.history| == trigger.since + 1
  }

  /** However it was disturbed, the walk went through. */
  ghost predicate RanInStages(trigger: Trigger, world: World, db: StateDb, pinned: Path -> bool)
    requires trigger.WalkRan?
    reads world, world.activity, db
  {
    && trigger.since < |world.activity.history|
    && WentThrough(world, db, trigger.stages, [], trigger.o, trigger.epoch, world.activity.history[..trigger.since + 1],
           pinned, trigger.ended)
  }

  lemma StagesRan(trigger: Trigger, world: World, db: StateDb, pinned: Path -> bool, h: History)
    requires trigger.WalkRan? && h <= world.activity.history && trigger.since == |h| - 1
    requires WentThrough(world, db, trigger.stages, [], trigger.o, trigger.epoch, h, pinned, trigger.ended)
    ensures RanInStages(trigger, world, db, pinned)
  {
    hide WentThrough;
    assert world.activity.history[..trigger.since + 1] == h;
  }

  class Syncer {
    const db: StateDb
    const world: World
    const sink: Sink
    const pinned: Path -> bool
    /** What the last walk that nothing disturbed is remembered by. */
    var walkedRoot: Option<Etag>
    /** The version that ETag was read at. */
    ghost var probedAt: nat

    ghost predicate Valid()
      reads this, db, world, world.activity
    {
      world.Valid() && WellFormed(db.rows)
    }

    constructor (db: StateDb, world: World, sink: Sink, pinned: Path -> bool)
      requires world.Valid() && WellFormed(db.rows)
      ensures Valid() && walkedRoot == None
      ensures this.db == db && this.world == world && this.sink == sink && this.pinned == pinned
    {
      this.db, this.world, this.sink, this.pinned := db, world, sink, pinned;
      walkedRoot, probedAt := None, 0;
    }

    method OnTrigger() returns (ghost trigger: Trigger)
      requires Valid() && EtagLaw(world.versions)
      modifies this, db, world, world.activity, sink
      ensures Valid() && old(world.now) <= world.now
      // Nothing to keep in sync, exactly until the root was listed once.
      ensures trigger.NothingCached? <==> !old(db.rows)[[]].loaded
      ensures trigger.NothingCached? ==>
                db.rows == old(db.rows) && walkedRoot == old(walkedRoot) && sink.events == old(sink.events)
      // Otherwise the root is probed once, and the walk is skipped exactly if that
      // probe came back with the ETag the last undisturbed walk is remembered by.
      ensures trigger.NothingCached? ==> world.probes == old(world.probes)
      ensures !trigger.NothingCached? ==>
                && old(world.probes) < world.probes && |world.probes| == |old(world.probes)| + 1
                && var probe := world.probes[|old(world.probes)|];
                   && (trigger.Probed? <==> probe.Some? && probe == old(walkedRoot))
                   && (trigger.WalkRan? ==> trigger.root == probe)
      // A skipped walk: nothing moved, and if the remembered ETag was vouched
      // for, there was nothing to do.
      ensures trigger.Probed? ==>
                && db.rows == old(db.rows) && walkedRoot == old(walkedRoot) && probedAt == old(probedAt)
                && sink.events == old(sink.events)
                && old(world.now) <= trigger.at <= world.now
                && walkedRoot == Some(world.versions[trigger.at].etag)
                && (Vouched(db.rows, world.versions, probedAt, old(world.now), walkedRoot.value) ==>
                    Agrees(db.rows, world.versions[trigger.at]))
      // A walk is only taken when the probe was new or failed. The counts are
      // those at its beginning, and it is remembered exactly when it came to its
      // end with neither of them moved.
      ensures trigger.WalkRan? ==>
                && trigger.o.before == old(db.rows) && trigger.o.after == db.rows
                && old(world.now) <= trigger.o.from <= trigger.o.until == world.now
                && old(world.writeEpoch) <= trigger.epoch <= world.writeEpoch
                && |old(world.activity.history)| <= trigger.since + 1 <= |world.activity.history|
                && trigger.busy == world.activity.history[trigger.since]
                && (trigger.root.Some? ==> trigger.root != old(walkedRoot))
                && (trigger.ended <==> world.failures == old(world.failures))
                && walkedRoot == if trigger.ended && Undisturbed(trigger, world) then trigger.root else None
      // However it was disturbed, it listed what it was to list, each listing was used
      // exactly if no local change came in between, and that is what was reported.
      ensures trigger.WalkRan? ==>
                && RanInStages(trigger, world, db, pinned)
                && sink.events == old(sink.events) + trigger.o.events
                && sink.stale == old(sink.stale) + trigger.o.stale
      // A walk that nothing disturbed is one that the machine was busy with one
      // set of objects throughout.
      ensures trigger.WalkRan? && trigger.ended && Undisturbed(trigger, world) ==>
                Complete(world.versions, db.inodes, pinned, trigger.busy, [], trigger.o)
      // It is remembered under an ETag from before it.
      ensures trigger.WalkRan? && walkedRoot.Some? ==>
                && old(world.now) <= probedAt <= trigger.o.from
                && walkedRoot.value == world.versions[probedAt].etag
      // If nothing it could come to was busy or lies too deep, it vouches for that
      // ETag iff the rows' ETags could be trusted against the tree that has it.
      ensures trigger.WalkRan? && walkedRoot.Some? && Clear(old(db.rows), trigger.busy) && WithinDepth(old(db.rows)) ==>
                (Vouched(db.rows, world.versions, probedAt, world.now, walkedRoot.value) <==>
                 (world.versions[world.now].etag == walkedRoot.value ==>
                     Trusted(old(db.rows), world.versions[world.now])))
      // It is remembered all the same if the root was busy throughout, and then
      // it did nothing.
      ensures trigger.WalkRan? && walkedRoot.Some? && ROOT_INODE in trigger.busy ==> db.rows == old(db.rows)
    {
      if !db.ChildrenLoaded([]) {
        return NothingCached;
      }
      var root, at := world.RootEtag();
      if root.Some? && root == walkedRoot {
        return Probed(at);
      }
      hide *;
      trigger := Walk(root, at);
      WorldSpans(world, at);
      if trigger.ended && Undisturbed(trigger, world) {
        TrustedVouches(old(db.rows), db.rows, world.versions, trigger.busy, at, world.now);
      }
    }

    /** The walk, with the root's ETag as it was read at version `at`. */
    method Walk(root: Option<Etag>, ghost at: nat) returns (ghost trigger: Trigger)
      requires Valid() && EtagLaw(world.versions) && db.rows[[]].loaded
      requires at <= world.now && (root.Some? ==> root.value == world.versions[at].etag)
      modifies this, db, world, world.activity, sink
      ensures Valid() && old(world.now) <= world.now
      ensures trigger.WalkRan? && trigger.root == root && world.probes == old(world.probes)
      ensures trigger.o.before == old(db.rows) && trigger.o.after == db.rows
      ensures trigger.o.from == old(world.now) && trigger.o.until == world.now
      ensures trigger.epoch == old(world.writeEpoch) <= world.writeEpoch
      ensures trigger.since + 1 == |old(world.activity.history)| <= |world.activity.history|
      ensures trigger.busy == world.activity.history[trigger.since]
      ensures RanInStages(trigger, world, db, pinned)
      ensures sink.events == old(sink.events) + trigger.o.events && sink.stale == old(sink.stale) + trigger.o.stale
      ensures trigger.ended <==> world.failures == old(world.failures)
      ensures walkedRoot == if trigger.ended && Undisturbed(trigger, world) then root else None
      ensures walkedRoot.Some? ==> probedAt == at
      ensures trigger.ended && Undisturbed(trigger, world) ==>
                && Complete(world.versions, db.inodes, pinned, trigger.busy, [], trigger.o)
                && VouchesIfTrusted(old(db.rows), db.rows, world.versions, trigger.busy, at, world.now)
                && (ROOT_INODE in trigger.busy ==> db.rows == old(db.rows))
    {
      RootRow(db.rows);
      WorldSpans(world, at);
      hide *;
      var epoch := world.writeEpoch;
      WorldIsValid(world);
      var since := world.activity.Seq();
      ghost var h := world.activity.history;
      var ok, o, stages := WalkDir(db, world, sink, pinned, ROOT_INODE, [], 0);
      trigger := WalkRan(o, BusyNow(h), root, epoch, since, stages, ok);
      WorldIsValid(world);
      WorldSpans(world, o.from);
      if ok && world.writeEpoch == epoch && world.activity.Seq() == since {
        SameCountSameHistory(h, world.activity.history);
        walkedRoot, probedAt := root, at;
        RememberedVouches(world.versions, db.inodes, pinned, o, at, epoch, h);
        if ROOT_INODE in BusyNow(h) {
          BusyMeans(ROOT_INODE, h, h);
        }
      } else {
        walkedRoot := None;
      }
      DisturbedOrNot(trigger, world, h);
      StagesRan(trigger, world, db, pinned, h);
      Assembled(this);
    }
  }

  lemma DisturbedOrNot(trigger: Trigger, world: World, h: History)
    requires trigger.WalkRan? && h != [] && h <= world.activity.history
    requires trigger.since == |h| - 1 && trigger.busy == BusyNow(h)
    ensures Undisturbed(trigger, world) <==>
              world.writeEpoch == trigger.epoch && |world.activity.history| == trigger.since + 1
    ensures trigger.busy == world.activity.history[trigger.since]
  {
  }

  lemma RootRow(rows: Rows)
    requires WellFormed(rows)
    ensures [] in rows && rows[[]].inode == ROOT_INODE
  {
  }

  lemma Assembled(syncer: Syncer)
    requires syncer.world.Valid() && WellFormed(syncer.db.rows)
    ensures syncer.Valid()
  {
  }

  lemma SameCountSameHistory(h: History, later: History)
    requires h <= later && |h| == |later|
    ensures later == h
  {
  }

  /** A walk that was clear of everything busy or too deep vouches for the ETag it began
      with iff the rows' ETags could be trusted against the tree that has it. */
  ghost predicate VouchesIfTrusted(before: Rows, after: Rows, versions: seq<Node>, busy: set<nat>, at: nat, now: nat)
    requires at < |versions| && now < |versions|
  {
    Clear(before, busy) && WithinDepth(before) ==>
      (Vouched(after, versions, at, now, versions[at].etag) <==>
       (versions[now].etag == versions[at].etag ==> Trusted(before, versions[now])))
  }

  lemma TrustedVouches(before: Rows, after: Rows, versions: seq<Node>, busy: set<nat>, at: nat, now: nat)
    requires at < |versions| && now < |versions| && VouchesIfTrusted(before, after, versions, busy, at, now)
    ensures Clear(before, busy) && WithinDepth(before) ==>
              (Vouched(after, versions, at, now, versions[at].etag) <==>
               (versions[now].etag == versions[at].etag ==> Trusted(before, versions[now])))
  {
  }

  lemma RememberedVouches(versions: seq<Node>, inodes: Inodes, pinned: Path -> bool, o: Outcome, at: nat, epoch: nat,
                          h: History)
    requires EtagLaw(versions) && WellFormed(o.before) && [] in o.before && o.before[[]].loaded
    requires at <= o.from && at <= o.until < |versions|
    requires Calm(epoch, h, epoch, h) ==> Complete(versions, inodes, pinned, BusyNow(h), [], o)
    ensures Complete(versions, inodes, pinned, BusyNow(h), [], o)
    ensures VouchesIfTrusted(o.before, o.after, versions, BusyNow(h), at, o.until)
  {
    hide WellFormed, Complete, Clear, EtagLaw, WithinDepth, Vouched, Trusted;
    if Clear(o.before, BusyNow(h)) && WithinDepth(o.before) {
      ClearWalkVouchesExactly(versions, inodes, pinned, BusyNow(h), o, at, o.until);
    }
  }

  // --- Every run ---------------------------------------------------------------------

  /** The mirror between two events: its rows, the server's version, the ETag
      remembered and the version it was read at. */
  datatype Mirror = Mirror(rows: Rows, now: nat, walkedRoot: Option<Etag>, probed: nat)

  /** What may happen to the mirror: */
  datatype Event =
    /** other clients change the server, or a trigger is skipped; */
    | Time
    /** a remembered walk, the machine being busy with `busy` throughout; the
        root may have been probed any time before it; */
    | RememberedWalk(o: Outcome, pinned: Path -> bool, busy: set<nat>)
    /** a remembered walk beside an idle machine, with reloads in between; */
    | WalkBeside(moves: seq<MirrorBeside.Move>, w: MirrorBeside.Walking)
    /** a walk that was disturbed or aborted: anything may be left of it; */
    | ForgottenWalk
    /** a listing of a directory beside the walks, asked for at any version up to
        now, perhaps before walks that have long ended; */
    | Reload(dir: Path, at: nat, busy: set<nat>)
    /** rows committed by a flow that changed the server, at version `changed`,
        after the remembered ETag was read. */
    | Commit(changed: nat)

  ghost predicate Next(versions: seq<Node>, inodes: Inodes, m: Mirror, e: Event, m': Mirror) {
    && m.now <= m'.now < |versions|
    && WellFormed(m'.rows)
    && match e
       case Time => m' == m.(now := m'.now)
       case RememberedWalk(o, pinned, busy) =>
         && [] in m.rows && m.rows[[]].loaded
         && Complete(versions, inodes, pinned, busy, [], o)
         && o.before == m.rows && o.after == m'.rows
         && m'.probed <= o.from && m.now <= o.from && o.until <= m'.now
         && m'.walkedRoot == Some(versions[m'.probed].etag)
       case WalkBeside(moves, w) =>
         && [] in m.rows && m.rows[[]].loaded
         && MirrorBeside.Run(versions, inodes, m.rows, moves) == Some(w) && MirrorBeside.Finished(w)
         && w.rows == m'.rows
         && m'.probed <= m'.now
         && (forall i :: 0 <= i < |moves| && moves[i].List? ==> m'.probed <= moves[i].at <= m'.now)
         && m'.walkedRoot == Some(versions[m'.probed].etag)
       case ForgottenWalk => m'.walkedRoot == None
       case Reload(dir, at, busy) =>
         && at <= m'.now
         && At(versions[at], dir).Some? && At(versions[at], dir).value.Dir?
         && dir in m.rows && m.rows[dir].isDir
         && m'.rows == Merge(m.rows, dir, Answer(versions, dir, at), busy, inodes)
         && m'.walkedRoot == m.walkedRoot && m'.probed == m.probed
       case Commit(changed) =>
         && m'.walkedRoot == m.walkedRoot && m'.probed == m.probed
         && (m.walkedRoot.Some? ==> m.probed <= changed <= m'.now && versions[changed].etag != m.walkedRoot.value)
  }

  /** What a PROPFIND of `dir` is answered at version `at`. */
  function Answer(versions: seq<Node>, dir: Path, at: nat): Listing {
    if at < |versions| then
      match At(versions[at], dir)
      case Some(Dir(_, _, kids)) => ListingOf(kids)
      case _ => map[]
    else map[]
  }

  ghost predicate Kept(versions: seq<Node>, m: Mirror) {
    && m.now < |versions|
    && WellFormed(m.rows)
    && (m.walkedRoot.Some? ==> Vouched(m.rows, versions, m.probed, m.now, m.walkedRoot.value))
  }

  /** Unless the server has left the remembered ETag: a walk is in time if nothing
      it could come to was busy or lies too deep, the rows' ETags could be trusted
      and no reload did harm in between; a reload, if the answer is harmless to what
      the server has. */
  ghost predicate InTime(versions: seq<Node>, inodes: Inodes, m: Mirror, e: Event, m': Mirror)
    requires m'.now < |versions|
  {
    match e
    case RememberedWalk(_, _, busy) =>
      && Clear(m.rows, busy) && WithinDepth(m.rows)
      && (m'.walkedRoot == Some(versions[m'.now].etag) ==> Trusted(m.rows, versions[m'.now]))
    case WalkBeside(moves, _) =>
      && WithinDepth(m.rows)
      && (m'.walkedRoot == Some(versions[m'.now].etag) ==>
            && Trusted(m.rows, versions[m'.now])
            && MirrorBeside.AllBeside(versions, inodes, m.rows, moves, versions[m'.now]))
    case Reload(dir, at, busy) =>
      m.walkedRoot == Some(versions[m'.now].etag) ==>
          Harmless(m.rows, versions[m'.now], dir, Answer(versions, dir, at), busy)
    case _ => true
  }

  /** Every event in time keeps the promise; a reload, and a walk that could come
      to nothing busy or too deep, keeps it only then. */
  lemma EveryEventKeepsTheVouch(versions: seq<Node>, inodes: Inodes, m: Mirror, e: Event, m': Mirror)
    requires EtagLaw(versions) && Kept(versions, m) && Next(versions, inodes, m, e, m')
    ensures InTime(versions, inodes, m, e, m') ==> Kept(versions, m')
    ensures (e.Reload? || (e.RememberedWalk? && Clear(m.rows, e.busy) && WithinDepth(m.rows))) && Kept(versions, m') ==>
              InTime(versions, inodes, m, e, m')
  {
    hide WellFormed, Merge, Complete, Clear, WithinDepth, Agrees, EtagLaw, Harmless, Trusted, Answer;
    match e
    case Time =>
    case RememberedWalk(o, pinned, busy) =>
      if Clear(m.rows, busy) && WithinDepth(m.rows) {
        ClearWalkVouchesExactly(versions, inodes, pinned, busy, o, m'.probed, m'.now);
      }
    case WalkBeside(moves, w) =>
      if InTime(versions, inodes, m, e, m') {
        WalkBesideVouches(versions, inodes, m, moves, w, m');
      }
    case ForgottenWalk =>
    case Reload(dir, at, busy) =>
      if m.walkedRoot.Some? {
        ReloadKeepsTheVouchExactly(m.rows, versions, m.probed, m.now, m.walkedRoot.value, dir,
            Answer(versions, dir, at), m'.now, busy, inodes);
      }
    case Commit(changed) =>
      if m.walkedRoot.Some? {
        LocalCommitKeepsTheVouch(m.rows, m'.rows, versions, m.probed, m.now, m.walkedRoot.value, changed, m'.now);
      }
  }

  lemma WalkBesideVouches(versions: seq<Node>, inodes: Inodes, m: Mirror, moves: seq<MirrorBeside.Move>,
                          w: MirrorBeside.Walking, m': Mirror)
    requires EtagLaw(versions) && WellFormed(m.rows)
    requires Next(versions, inodes, m, WalkBeside(moves, w), m')
               && InTime(versions, inodes, m, WalkBeside(moves, w), m')
    ensures Vouched(m'.rows, versions, m'.probed, m'.now, versions[m'.probed].etag)
  {
    hide WellFormed, Agrees, Trusted, EtagLaw, WithinDepth, MirrorBeside.Run, MirrorBeside.Finished,
        MirrorBeside.AllBeside;
    var etag := versions[m'.probed].etag;
    PromiseIsAboutOneTree(m'.rows, versions, m'.probed, etag, m'.now);
    if versions[m'.now].etag == etag {
      forall i | 0 <= i < |moves| && moves[i].List? ensures versions[moves[i].at] == versions[m'.now] {
        SameTree(versions, m'.probed, moves[i].at, m'.now);
      }
      MirrorBeside.WalkBesideReloadsAgrees(versions, inodes, m.rows, moves, w, versions[m'.now]);
    }
  }

  /** A walk of a coherent mirror that could come to nothing busy or too deep is in
      time. */
  lemma CoherentWalkIsInTime(versions: seq<Node>, inodes: Inodes, m: Mirror, e: Event, m': Mirror)
    requires Next(versions, inodes, m, e, m')
    requires e.RememberedWalk? && Clear(m.rows, e.busy) && WithinDepth(m.rows) && Coherent(m.rows, versions, e.o.from)
    ensures InTime(versions, inodes, m, e, m')
  {
    hide WellFormed, Clear, WithinDepth, Complete, Trusted;
    WalkEnds(versions, inodes, e.pinned, e.busy, e.o);
    CoherentIsTrusted(m.rows, versions, e.o.from, m'.now);
  }

  lemma WalkEnds(versions: seq<Node>, inodes: Inodes, pinned: Path -> bool, busy: set<nat>, o: Outcome)
    requires Complete(versions, inodes, pinned, busy, [], o)
    ensures o.from <= o.until < |versions|
  {
  }

  lemma CoherentIsTrusted(rows: Rows, versions: seq<Node>, from: nat, now: nat)
    requires Coherent(rows, versions, from) && from <= now < |versions|
    ensures Trusted(rows, versions[now])
  {
    hide ShownIfCurrent;
    forall q | q != [] && q in rows && rows[q].loaded ensures ShownIfCurrent(rows, q, versions[now]) {
      assert CoherentAt(rows, versions, from, q);
    }
  }

  /** A reload answered no earlier than the probe is in time, in a directory
      listed before or where it had nothing to leave alone. */
  lemma FreshReloadIsInTime(versions: seq<Node>, inodes: Inodes, m: Mirror, e: Event, m': Mirror)
    requires EtagLaw(versions) && Kept(versions, m) && Next(versions, inodes, m, e, m')
    requires e.Reload? && m.probed <= e.at
    requires m.rows[e.dir].loaded || BusyOnesShow(m.rows, e.dir, Answer(versions, e.dir, e.at), e.busy)
    ensures InTime(versions, inodes, m, e, m')
  {
    if m.walkedRoot == Some(versions[m'.now].etag) {
      hide WellFormed, Merge, Agrees, EtagLaw, Harmless, BusyOnesShow;
      FreshReloadKeepsTheVouchExactly(m.rows, versions, m.probed, m.now, m.walkedRoot.value, e.dir, e.at, m'.now,
          e.busy, inodes);
      ReloadKeepsTheVouchExactly(m.rows, versions, m.probed, m.now, m.walkedRoot.value, e.dir,
          Answer(versions, e.dir, e.at), m'.now, e.busy, inodes);
    }
  }

  /** In every run that starts with nothing remembered and whose walks and reloads
      are in time: whenever the root's ETag is the remembered one, the mirror
      already agrees with the server. */
  lemma {:induction false} ProbeNeverSkipsNeededWork(versions: seq<Node>, inodes: Inodes, run: seq<Mirror>,
      events: seq<Event>)
    requires EtagLaw(versions)
    requires |run| == |events| + 1
    requires run[0].walkedRoot == None && run[0].now < |versions| && WellFormed(run[0].rows)
    requires forall i :: 0 <= i < |events| ==>
               && Next(versions, inodes, run[i], events[i], run[i + 1])
               && InTime(versions, inodes, run[i], events[i], run[i + 1])
    ensures forall i :: 0 <= i < |run| ==>
              && Kept(versions, run[i])
              && (run[i].walkedRoot == Some(versions[run[i].now].etag) ==> Agrees(run[i].rows, versions[run[i].now]))
    decreases |events|
  {
    hide Next, InTime, WellFormed, EtagLaw, Agrees;
    if |events| > 0 {
      var last := |events| - 1;
      ProbeNeverSkipsNeededWork(versions, inodes, run[..|run| - 1], events[..last]);
      assert run[..|run| - 1][last] == run[last];
      EveryEventKeepsTheVouch(versions, inodes, run[last], events[last], run[last + 1]);
      forall i | 0 <= i < |run|
        ensures Kept(versions, run[i])
        ensures run[i].walkedRoot == Some(versions[run[i].now].etag) ==> Agrees(run[i].rows, versions[run[i].now])
      {
        if i < |run| - 1 {
          assert run[..|run| - 1][i] == run[i];
        }
      }
    }
  }

  // --- What the hypotheses are needed for ------------------------------------------

  /** One directory `d` with one file. */
  const OLD_TREE: Node := Dir("r1", 1, map["d" := Dir("d1", 2, map["f" := File("f1", 3)])])

  /** The same after another client wrote the file. */
  const NEW_TREE: Node := Dir("r2", 1, map["d" := Dir("d2", 2, map["f" := File("f2", 3)])])

  /** The mirror of the one. */
  const OLD_ROWS: Rows := map[
    [] := Row(ROOT_INODE, true, "", None, true),
    ["d"] := Row(2, true, "d1", Some(2), true),
    ["d", "f"] := Row(3, false, "f1", Some(3), false)]

  /** The mirror of the other. */
  const NEW_ROWS: Rows := map[
    [] := Row(ROOT_INODE, true, "", None, true),
    ["d"] := Row(2, true, "d2", Some(2), true),
    ["d", "f"] := Row(3, false, "f2", Some(3), false)]

  lemma TreePaths()
    ensures At(OLD_TREE, ["d"]) == Some(Dir("d1", 2, map["f" := File("f1", 3)]))
    ensures At(OLD_TREE, ["d", "f"]) == Some(File("f1", 3))
    ensures At(NEW_TREE, ["d"]) == Some(Dir("d2", 2, map["f" := File("f2", 3)]))
    ensures At(NEW_TREE, ["d", "f"]) == Some(File("f2", 3))
    ensures WellFormed(OLD_ROWS) && WellFormed(NEW_ROWS)
  {
    assert Parent(["d"]) == [] && Parent(["d", "f"]) == ["d"];
    assert At(OLD_TREE, []) == Some(OLD_TREE) && At(NEW_TREE, []) == Some(NEW_TREE);
  }

  lemma PathCases(q: Path)
    requires q != []
    ensures q == ["d"] <==> Parent(q) == [] && Last(q) == "d"
    ensures q == ["d", "f"] <==> Parent(q) == ["d"] && Last(q) == "f"
  {
    assert q == Parent(q) + [Last(q)];
    assert Parent(["d"]) == [] && Parent(["d", "f"]) == ["d"];
  }

  lemma ChildCases(q: Path, n: Name)
    ensures q + [n] == ["d"] <==> q == [] && n == "d"
    ensures q + [n] == ["d", "f"] <==> q == ["d"] && n == "f"
  {
    PathCases(q + [n]);
    assert Parent(q + [n]) == q && Last(q + [n]) == n;
  }

  /** A machine busy with the root from before a walk until after it moves neither
      count the loop looks at, so the walk is remembered though it applied
      nothing: the rows it leaves, coherent as they are, need not agree. */
  lemma BusyRootIsVouchedForWrongly(inodes: Inodes, pinned: Path -> bool)
    ensures var versions, o := [NEW_TREE], Outcome(OLD_ROWS, OLD_ROWS, 0, 0, map[], [], []);
            && Remembered(versions, inodes, pinned, {ROOT_INODE}, o, 0)
            && Next(versions, inodes, Mirror(OLD_ROWS, 0, None, 0), RememberedWalk(o, pinned, {ROOT_INODE}),
                Mirror(OLD_ROWS, 0, Some("r2"), 0))
            && !VouchedAfter(versions, o, 0)
  {
    TreePaths();
    OneVersionObeysTheLaw(NEW_TREE);
    TrustedIsCoherent(OLD_ROWS, NEW_TREE) by {
      OldIsTrusted();
    }
    OldDoesNotAgree();
    hide Agrees, Coherent, EtagLaw, WellFormed;
    assert [NEW_TREE][0] == NEW_TREE;
  }

  lemma OldIsTrusted()
    ensures Trusted(OLD_ROWS, NEW_TREE)
  {
    TreePaths();
  }

  lemma OldDoesNotAgree()
    ensures !Agrees(OLD_ROWS, NEW_TREE)
  {
    var listing := ListingOf(NEW_TREE.kids);
    assert [] + ["d"] == ["d"] && "d" in listing && !RowIs(OLD_ROWS[["d"]], listing["d"]);
    assert [] in OLD_ROWS && OLD_ROWS[[]].loaded && !ShowsTree(OLD_ROWS, [], NEW_TREE);
  }

  /** A listing of the root alone gives `d` its new ETag while its file keeps the
      old one: the ETags can no longer be trusted, and no undisturbed walk that
      follows brings the mirror to agree. */
  lemma ReloadAloneBreaksTrust(inodes: Inodes, pinned: Path -> bool, o: Outcome)
    requires o.before == Merge(OLD_ROWS, [], ListingOf(NEW_TREE.kids), {}, inodes)
    requires Complete([NEW_TREE], inodes, pinned, {}, [], o)
    ensures Trusted(OLD_ROWS, NEW_TREE)
    ensures !Trusted(o.before, NEW_TREE) && !Agrees(o.after, NEW_TREE)
  {
    hide Trusted, Agrees, Complete, WellFormed, WithinDepth, Merge;
    StillAMirror(inodes);
    OldIsTrusted();
    RowsAfterTheReload(inodes);
    PrunedWalkIsAFullResync(NEW_TREE, inodes, pinned, o);
  }

  lemma RowsAfterTheReload(inodes: Inodes)
    ensures !Trusted(Merge(OLD_ROWS, [], ListingOf(NEW_TREE.kids), {}, inodes), NEW_TREE)
  {
    TreePaths();
    var rows := Merge(OLD_ROWS, [], ListingOf(NEW_TREE.kids), {}, inodes);
    MergePointwise(OLD_ROWS, [], ListingOf(NEW_TREE.kids), {}, inodes, ["d"]);
    MergePointwise(OLD_ROWS, [], ListingOf(NEW_TREE.kids), {}, inodes, ["d", "f"]);
    assert ["d"][..1] == ["d"] && ["d", "f"][..1] == ["d"];
    hide Merge, At;
    assert rows[["d"]] == Row(2, true, "d2", Some(2), true);
    assert rows[["d", "f"]] == Row(3, false, "f1", Some(3), false);
    StillTheOldFile(rows);
  }

  lemma StillAMirror(inodes: Inodes)
    ensures var rows := Merge(OLD_ROWS, [], ListingOf(NEW_TREE.kids), {}, inodes);
            WellFormed(rows) && rows[[]].loaded && WithinDepth(rows)
  {
    TreePaths();
    OldRowsAreShallow();
    var listing := ListingOf(NEW_TREE.kids);
    assert [] in OLD_ROWS && OLD_ROWS[[]].isDir && OLD_ROWS[[]].loaded;
    MergePointwise(OLD_ROWS, [], listing, {}, inodes, []);
    hide OLD_ROWS, NEW_TREE, ListingOf;
    MergeKeepsWellFormed(OLD_ROWS, [], listing, {}, inodes);
    MergeLoadsNothingElse(OLD_ROWS, [], listing, {}, inodes);
    hide Merge, WellFormed;
  }

  lemma OldRowsAreShallow()
    ensures WithinDepth(OLD_ROWS)
  {
  }

  lemma StillTheOldFile(rows: Rows)
    requires ["d"] in rows && rows[["d"]] == Row(2, true, "d2", Some(2), true)
    requires ["d", "f"] in rows && rows[["d", "f"]] == Row(3, false, "f1", Some(3), false)
    ensures !Trusted(rows, NEW_TREE)
  {
    TreePaths();
    var shown := ListingOf(At(NEW_TREE, ["d"]).value.kids);
    assert ["d"] + ["f"] == ["d", "f"] && "f" in shown && !RowIs(rows[["d", "f"]], shown["f"]);
    assert !Shows(rows, ["d"], shown);
    assert !ShownIfCurrent(rows, ["d"], NEW_TREE);
  }

  // --- A late answer -----------------------------------------------------------------

  /** What the walk from the old tree's mirror is shown of the new tree. */
  function SeenOfTheNew(): Visits {
    map[[] := Visit(ListingOf(NEW_TREE.kids), 1), ["d"] := Visit(map["f" := Entry(false, "f2", 3)], 1)]
  }

  function WalkToTheNew(pinned: Path -> bool): Outcome {
    Outcome(OLD_ROWS, NEW_ROWS, 1, 1, SeenOfTheNew(),
            [ContentChanged(["d", "f"])], if pinned(["d", "f"]) then [["d", "f"]] else [])
  }

  lemma NewIsSeen()
    ensures SeenOn([OLD_TREE, NEW_TREE], SeenOfTheNew(), 1, 1)
  {
    TreePaths();
    assert ListingOf(map["f" := File("f2", 3)]) == map["f" := Entry(false, "f2", 3)];
  }

  lemma NewFollowsTheRule()
    ensures VisitRule(OLD_ROWS, SeenOfTheNew(), {}, [])
  {
    assert ["d"] in OLD_ROWS && OLD_ROWS[["d"]] == Row(2, true, "d1", Some(2), true);
    hide OLD_ROWS;
    var seen := SeenOfTheNew();
    PathCases(["d"]);
    forall q, n | q in seen && n in seen[q].listing && Descends(OLD_ROWS, seen[q].listing, {}, q + [n])
      ensures q + [n] in seen
    {
      ChildCases(q, n);
    }
  }

  lemma NewIsWalked(inodes: Inodes)
    ensures Walked(OLD_ROWS, NEW_ROWS, SeenOfTheNew(), {}, inodes, [])
  {
    forall q: Path ensures Lookup(NEW_ROWS, q) == WalkedRow(OLD_ROWS, SeenOfTheNew(), {}, inodes, [], q) {
      if q != [] {
        PathCases(q);
      }
    }
  }

  lemma NewIsReported(event: Invalidation)
    ensures Owed(OLD_ROWS, SeenOfTheNew(), event) <==> event == ContentChanged(["d", "f"])
  {
    match event
    case EntryChanged(dir, name) => ChildCases(dir, name);
    case ContentChanged(path) =>
      if path != [] {
        PathCases(path);
      }
  }

  lemma WalkToTheNewIsComplete(inodes: Inodes, pinned: Path -> bool)
    ensures Complete([OLD_TREE, NEW_TREE], inodes, pinned, {}, [], WalkToTheNew(pinned))
  {
    NewIsSeen();
    NewFollowsTheRule();
    NewIsWalked(inodes);
    hide VisitRule, SeenOn, Walked, Owed, SeenOfTheNew;
    forall event ensures Owed(OLD_ROWS, SeenOfTheNew(), event) <==> event == ContentChanged(["d", "f"]) {
      NewIsReported(event);
    }
  }

  lemma {:induction false} NothingDeeper(tree: Node, q: Path)
    requires tree == OLD_TREE || tree == NEW_TREE
    ensures At(tree, q).Some? ==> q in {[], ["d"], ["d", "f"]}
    decreases |q|
  {
    TreePaths();
    if q != [] {
      NothingDeeper(tree, Parent(q));
      PathCases(q);
    }
  }

  lemma TwoTreesObeyTheLaw()
    ensures EtagLaw([OLD_TREE, NEW_TREE])
  {
    TreePaths();
    var versions := [OLD_TREE, NEW_TREE];
    forall q: Path, i: nat, j: nat, k: nat | i <= j <= k < |versions| ensures Unchanged(versions, q, i, j, k) {
      NothingDeeper(versions[i], q);
    }
  }

  /** The rows once the old answer is merged into the new mirror. */
  ghost function RowsAfterTheLateAnswer(inodes: Inodes): Rows {
    Merge(NEW_ROWS, ["d"], Answer([OLD_TREE, NEW_TREE], ["d"], 0), {}, inodes)
  }

  lemma LateAnswerHarms(inodes: Inodes)
    ensures WellFormed(RowsAfterTheLateAnswer(inodes))
    ensures !Harmless(NEW_ROWS, NEW_TREE, ["d"], Answer([OLD_TREE, NEW_TREE], ["d"], 0), {})
  {
    TreePaths();
    var answer := Answer([OLD_TREE, NEW_TREE], ["d"], 0);
    assert Parent(["d"]) == [];
    MergeKeepsWellFormed(NEW_ROWS, ["d"], answer, {}, inodes);
    assert ["d"] + ["f"] == ["d", "f"];
    assert SaidAfter(NEW_ROWS, ["d"], answer, {}, "f") == Some(Entry(false, "f1", 3));
  }

  /** What follows: the walk, in time, and then the late answer. */
  lemma WalkIsAStep(inodes: Inodes, pinned: Path -> bool)
    ensures var versions, m, e, m' := [OLD_TREE, NEW_TREE], Mirror(OLD_ROWS, 0, None, 0),
              RememberedWalk(WalkToTheNew(pinned), pinned, {}), Mirror(NEW_ROWS, 1, Some("r2"), 1);
            Next(versions, inodes, m, e, m') && Kept(versions, m) && InTime(versions, inodes, m, e, m')
  {
    TreePaths();
    WalkToTheNewIsComplete(inodes, pinned);
    OldIsTrusted();
    hide WellFormed, Complete, Trusted, At;
  }

  lemma LateAnswerIsAStep(inodes: Inodes)
    ensures var versions, m, e, m' := [OLD_TREE, NEW_TREE], Mirror(NEW_ROWS, 1, Some("r2"), 1), Reload(["d"], 0, {}),
              Mirror(RowsAfterTheLateAnswer(inodes), 1, Some("r2"), 1);
            Next(versions, inodes, m, e, m')
  {
    TreePaths();
    LateAnswerHarms(inodes);
    hide WellFormed, Merge, Harmless, At;
  }

  /** A refresh of `d` is answered, another client writes `d/f`, a walk brings the
      mirror up to date and is remembered for good reason, and then the refresh
      applies its answer. The file is back at its old version, the root's ETag is
      the remembered one, and no probe will ask for another walk. */
  lemma LateReloadIsNeverRepaired(inodes: Inodes, pinned: Path -> bool) returns (run: seq<Mirror>, events: seq<Event>)
    ensures EtagLaw([OLD_TREE, NEW_TREE]) && |run| == 3 && |events| == 2
    ensures run[0] == Mirror(OLD_ROWS, 0, None, 0) && events[0].RememberedWalk? && events[1] == Reload(["d"], 0, {})
    ensures forall i :: 0 <= i < 2 ==> Next([OLD_TREE, NEW_TREE], inodes, run[i], events[i], run[i + 1])
    ensures Kept([OLD_TREE, NEW_TREE], run[1])
    ensures run[2].now == 1 && run[2].walkedRoot == Some(NEW_TREE.etag) && !Agrees(run[2].rows, NEW_TREE)
  {
    hide *;
    var versions := [OLD_TREE, NEW_TREE];
    run := [Mirror(OLD_ROWS, 0, None, 0), Mirror(NEW_ROWS, 1, Some("r2"), 1),
        Mirror(RowsAfterTheLateAnswer(inodes), 1, Some("r2"), 1)];
    events := [RememberedWalk(WalkToTheNew(pinned), pinned, {}), Reload(["d"], 0, {})];
    TwoTreesObeyTheLaw();
    WalkIsAStep(inodes, pinned);
    LateAnswerIsAStep(inodes);
    EveryEventKeepsTheVouch(versions, inodes, run[0], events[0], run[1]);
    LateAnswerBreaksIt(inodes);
  }

  lemma LateAnswerBreaksIt(inodes: Inodes)
    requires Kept([OLD_TREE, NEW_TREE], Mirror(NEW_ROWS, 1, Some("r2"), 1))
    ensures NEW_TREE.etag == "r2" && !Agrees(RowsAfterTheLateAnswer(inodes), NEW_TREE)
  {
    assert [OLD_TREE, NEW_TREE][1] == NEW_TREE;
    LateAnswerHarms(inodes);
    hide WellFormed, Merge, Harmless, Agrees;
    AgreesAfterExactly(NEW_ROWS, NEW_TREE, ["d"], Answer([OLD_TREE, NEW_TREE], ["d"], 0), {}, inodes);
  }
}

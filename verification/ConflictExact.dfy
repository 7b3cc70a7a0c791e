/** Exactly when conflict resolution is safe whatever other clients do: the
    inputs on which it is not are the chunked uploads, whose check and whose
    MOVE are two requests, and the merges of a version that cannot be named. */
module ConflictExact {
  import opened Common
  import opened ConflictNames
  import opened ConflictWorld
  import opened ConflictSpec
  import opened ConflictTheorems

  ghost predicate Takes(plan: Plan, w: World, job: Job) {
    var (s, r) := Resolve(plan, w, job);
    Lawful(s.past) && !AllHarmless(job, w, s)
  }

  ghost predicate Claims(plan: Plan, w: World, job: Job) {
    var (s, r) := Resolve(plan, w, job);
    Lawful(s.past) && r.Ok? && !Delivered(job, w, s, r.value)
  }

  /** No run takes another client's data iff the buffer goes up in one request
      and no merge can be uploaded without naming what it was merged with. */
  lemma NothingIsTakenExactly(job: Job)
    ensures (forall plan: Plan, w: World :: !Takes(plan, w, job)) <==>
              |job.local| <= CHUNK_SIZE && !MergeDependsOnTheirs(job)
  {
    if |job.local| <= CHUNK_SIZE && !MergeDependsOnTheirs(job) {
      forall plan: Plan, w: World ensures !Takes(plan, w, job) {
        ResolveKeeps(plan, w, job);
      }
    } else if |job.local| > CHUNK_SIZE {
      MoveOverwrites(job);
      assert Takes(Interrupted(job, true), Empty(), job);
    } else {
      var t, o :| Differs(job, t, o);
      UnnamedMergeOverwrites(job, t, o);
      assert Takes(Unnamed(job, t, o), Empty(), job);
    }
  }

  /** Where every answer names its ETag, the size alone decides. */
  lemma NothingIsTakenWhenToldExactly(job: Job)
    ensures (forall plan: Plan, w: World | TellsEtags(plan) :: !Takes(plan, w, job)) <==> |job.local| <= CHUNK_SIZE
  {
    if |job.local| <= CHUNK_SIZE {
      forall plan: Plan, w: World | TellsEtags(plan) ensures !Takes(plan, w, job) {
        ResolveKeeps(plan, w, job);
      }
    } else {
      hide Takes, TellsEtags;
      MoveOverwrites(job);
      MomentsOfTheMerge(job, true);
      assert TellsEtags(Interrupted(job, true)) && Takes(Interrupted(job, true), Empty(), job);
    }
  }

  /** Every success means the bytes arrived iff the buffer goes up in one
      request. */
  lemma SuccessMeansDeliveredExactly(job: Job)
    ensures (forall plan: Plan, w: World :: !Claims(plan, w, job)) <==> |job.local| <= CHUNK_SIZE
  {
    if |job.local| <= CHUNK_SIZE {
      forall plan: Plan, w: World ensures !Claims(plan, w, job) {
        ResolveSucceeds(plan, w, job);
      }
    } else {
      SizeIsTakenForContent(job);
      assert Claims(Interrupted(job, false), Empty(), job);
    }
  }

  // --- The run into a copy --------------------------------------------------------

  function Empty(): World {
    World(map[], 0, [], [map[]])
  }

  function Quiet(): Moment {
    Moment(map[], true, true, true, "d")
  }

  /** The step at which a job whose file is not there comes to park its copy. */
  function ParkStep(job: Job): nat {
    if !job.textMerge || job.baseEtag == "" || job.base.None? then 1
    else if job.merge(job.base.value, job.local, []).None? then 2
    else 3
  }

  function Other(local: Bytes): Bytes {
    seq(|local|, i => if local != [] && local[0] == 0 then 1 else 0)
  }

  /** Another client writes the merge's file twice, and then the copy's name
      just before the MOVE; or, if the MOVE is to be lost, just after it. */
  function Interrupted(job: Job, arrives: bool): Plan {
    var n, copy := ParkStep(job), CopyName(job, 0);
    k =>
      if k == 1 && n > 1 then Quiet().(changes := map[job.path := Some(Version("a", []))])
      else if k == 2 && n > 2 then Quiet().(changes := map[job.path := Some(Version("b", []))])
      else if k == n + 2 then
        Quiet().(arrives := arrives,
                 changes := if arrives then map[copy := Some(Version("c", Other(job.local)))] else map[])
      else if k == n + 3 && !arrives then Quiet().(changes := map[copy := Some(Version("c", Other(job.local)))])
      else Quiet()
  }

  lemma MomentsOfTheCopy(job: Job, arrives: bool)
    ensures var plan, n, taken := Interrupted(job, arrives), ParkStep(job),
              map[CopyName(job, 0) := Some(Version("c", Other(job.local)))];
            && plan(n) == Quiet() && plan(n + 1) == Quiet() && plan(n + 4) == Quiet()
            && plan(n + 2) == Quiet().(arrives := arrives, changes := if arrives then taken else map[])
            && plan(n + 3) == Quiet().(changes := if arrives then map[] else taken)
  {
  }

  lemma MomentsOfTheMerge(job: Job, arrives: bool)
    ensures var plan, n := Interrupted(job, arrives), ParkStep(job);
            && plan(0) == Quiet()
            && (n > 1 ==> plan(1) == Quiet().(changes := map[job.path := Some(Version("a", []))]))
            && (n > 2 ==> plan(2) == Quiet().(changes := map[job.path := Some(Version("b", []))]))
            && TellsEtags(plan)
  {
  }

  /** What the server holds in those runs. */
  predicate Tame(files: Files, job: Job) {
    forall p :: p in files ==>
      || (p == job.path && files[p] in {Version("a", []), Version("b", [])})
      || (p == CopyName(job, 0) && files[p] in {Version("c", Other(job.local)), Version("d", job.local)})
  }

  predicate AllTame(past: seq<Files>, job: Job) {
    forall i :: 0 <= i < |past| ==> Tame(past[i], job)
  }

  lemma CopyIsAnother(job: Job)
    ensures CopyName(job, 0) != job.path
  {
    CopyIsASibling(job.path, job.clock(0), 0);
  }

  lemma TameIsLawful(past: seq<Files>, job: Job)
    requires AllTame(past, job)
    ensures Lawful(past)
  {
    CopyIsAnother(job);
    forall i, p | 0 <= i < |past| && p in past[i] ensures past[i][p].etag != "" {
      assert Tame(past[i], job);
    }
    forall i, j, p | 0 <= i < |past| && 0 <= j < |past| && p in past[i] && p in past[j]
           && past[i][p].etag == past[j][p].etag
      ensures past[i][p] == past[j][p]
    {
      assert Tame(past[i], job) && Tame(past[j], job);
    }
  }

  lemma Undisturbed(plan: Plan, w: World)
    requires plan(w.step).changes == map[]
    ensures Serve(plan, w) == World(w.files, w.step + 1, w.log, w.past + [w.files])
  {
    assert Changed(w.files, map[]) == w.files;
  }

  lemma OneChange(plan: Plan, w: World, path: string, v: Version)
    requires plan(w.step).changes == map[path := Some(v)]
    ensures Serve(plan, w) == World(w.files[path := v], w.step + 1, w.log, w.past + [w.files[path := v]])
  {
    assert Changed(w.files, map[path := Some(v)]) == w.files[path := v];
  }

  /** A file that is not there settles nothing. */
  lemma NothingToSettle(plan: Plan, job: Job)
    requires plan(0) == Quiet()
    ensures Settle(plan, Empty(), job) == (World(map[], 1, [], [map[], map[]]), Ok(None))
  {
    Undisturbed(plan, Empty());
    assert Empty().past + [Empty().files] == [map[], map[]];
  }

  /** The merge, if there is one, loses its race. */
  lemma MergeLoses(job: Job, arrives: bool, settled: World) returns (w: World)
    requires settled == World(map[], 1, [], [map[], map[]])
    ensures MergeAndUpload(Interrupted(job, arrives), settled, job) == (w, Ok(None))
    ensures w.step == ParkStep(job) && w.log == [] && AllTame(w.past, job) && Tame(w.files, job)
              && CopyName(job, 0) !in w.files
  {
    var plan := Interrupted(job, arrives);
    CopyIsAnother(job);
    MomentsOfTheMerge(job, arrives);
    hide CopyName, Serve, Interrupted;
    w := settled;
    if ParkStep(job) > 1 {
      OneChange(plan, settled, job.path, Version("a", []));
      var got := Get(plan, settled, job.path).0;
      w := got;
      if ParkStep(job) > 2 {
        OneChange(plan, got, job.path, Version("b", []));
        w := Serve(plan, got);
      }
    }
  }

  /** Up to the copy: nothing there to settle or to merge with for good. */
  lemma ComesToPark(job: Job, arrives: bool) returns (w: World)
    ensures Resolve(Interrupted(job, arrives), Empty(), job) == Park(Interrupted(job, arrives), w, job, 0)
    ensures w.step == ParkStep(job) && w.log == [] && AllTame(w.past, job) && Tame(w.files, job)
              && CopyName(job, 0) !in w.files
  {
    MomentsOfTheMerge(job, arrives);
    NothingToSettle(Interrupted(job, arrives), job);
    hide Park, CopyName, Settle, MergeAndUpload, Tame, Interrupted;
    w := MergeLoses(job, arrives, Settle(Interrupted(job, arrives), Empty(), job).0);
  }

  /** From there the check passes and the chunks go up. */
  lemma ComesToMove(job: Job, arrives: bool, w: World) returns (staged: World)
    requires |job.local| > CHUNK_SIZE
    requires w.step == ParkStep(job) && CopyName(job, 0) !in w.files && Tame(w.files, job) && AllTame(w.past, job)
    ensures Upload(Interrupted(job, arrives), w, CopyName(job, 0), job.local, MustNotExist)
            == Assemble(Interrupted(job, arrives), staged, CopyName(job, 0), job.local)
    ensures staged.step == ParkStep(job) + 2 && staged.log == w.log && staged.files == w.files
              && AllTame(staged.past, job)
    ensures w.past <= staged.past
  {
    MomentsOfTheCopy(job, arrives);
    hide Assemble, CopyName, Serve, Tame, Interrupted;
    var plan, copy := Interrupted(job, arrives), CopyName(job, 0);
    Undisturbed(plan, w);
    var checked := Preflight(plan, w, copy, MustNotExist).0;
    Undisturbed(plan, checked);
    staged := Serve(plan, checked);
  }

  /** The four worlds from the MOVE on, and what the resolution makes of them. */
  lemma MoveAndAfter(job: Job, arrives: bool, staged: World) returns (s: World)
    requires staged.step == ParkStep(job) + 2 && staged.log == [] && AllTame(staged.past, job)
               && Tame(staged.files, job)
    ensures var (assembled, r) := Assemble(Interrupted(job, arrives), staged, CopyName(job, 0), job.local);
            r.Ok? && r.value.Uploaded? && Relist(Interrupted(job, arrives), assembled) == (s, Ok(()))
    ensures AllTame(s.past, job)
    ensures s.log == if arrives
              then [Write(CopyName(job, 0), Some(Version("c", Other(job.local))), Version("d", job.local))] else []
  {
    var plan, copy := Interrupted(job, arrives), CopyName(job, 0);
    CopyIsAnother(job);
    MomentsOfTheCopy(job, arrives);
    hide CopyName, Serve, Interrupted;
    if arrives {
      OneChange(plan, staged, copy, Version("c", Other(job.local)));
    } else {
      Undisturbed(plan, staged);
    }
    var served := Serve(plan, staged);
    var moved := if arrives then Store(served, copy, Version("d", job.local)) else served;
    if arrives {
      Undisturbed(plan, moved);
    } else {
      OneChange(plan, moved, copy, Version("c", Other(job.local)));
    }
    var read := Serve(plan, moved);
    Undisturbed(plan, read);
    s := Serve(plan, read);
  }

  lemma ParkedAtOnce(job: Job, arrives: bool) returns (staged: World, s: World)
    requires |job.local| > CHUNK_SIZE
    ensures Resolve(Interrupted(job, arrives), Empty(), job) == (s, Ok(Copied(CopyName(job, 0))))
    ensures AllTame(s.past, job)
    ensures s.log == if arrives
              then [Write(CopyName(job, 0), Some(Version("c", Other(job.local))), Version("d", job.local))] else []
  {
    hide CopyName, Upload, Assemble, Relist, Resolve, Tame;
    var w := ComesToPark(job, arrives);
    staged := ComesToMove(job, arrives, w);
    s := MoveAndAfter(job, arrives, staged);
  }

  /** The MOVE replaces what another client put there since the check. */
  lemma MoveOverwrites(job: Job)
    requires |job.local| > CHUNK_SIZE
    ensures Takes(Interrupted(job, true), Empty(), job)
  {
    hide Resolve, Lawful, Tame, CopyName;
    var staged, s := ParkedAtOnce(job, true);
    TameIsLawful(s.past, job);
    CopyIsAnother(job);
    assert !Harmless(job, s.log[0]);
  }

  /** A MOVE that never arrived passes for done when another client's file has
      the right size: the success is reported, and nothing was ever written. */
  lemma SizeIsTakenForContent(job: Job)
    requires |job.local| > CHUNK_SIZE
    ensures Claims(Interrupted(job, false), Empty(), job)
    ensures Resolve(Interrupted(job, false), Empty(), job).0.log == []
  {
    hide Resolve, Lawful, Tame, CopyName;
    var staged, s := ParkedAtOnce(job, false);
    TameIsLawful(s.past, job);
  }

  // --- The merge that cannot be named ---------------------------------------------

  /** The merge reads one version without an ETag; the upload meets another. */
  function Unnamed(job: Job, theirs: Bytes, later: Bytes): Plan {
    k =>
      if k == 1 then Quiet().(told := false, changes := map[job.path := Some(Version("a", theirs))])
      else if k == 2 then Quiet().(changes := map[job.path := Some(Version("b", later))])
      else Quiet()
  }

  lemma UnnamedMergeOverwrites(job: Job, t: Bytes, o: Bytes)
    requires job.textMerge && job.baseEtag != "" && job.base.Some? && Differs(job, t, o)
    ensures Takes(Unnamed(job, t, o), Empty(), job)
  {
    var plan, merged := Unnamed(job, t, o), job.merge(job.base.value, job.local, t).value;
    NothingToSettle(plan, job);
    hide Settle, Park, Serve;
    var settled := Settle(plan, Empty(), job).0;
    OneChange(plan, settled, job.path, Version("a", t));
    var got := Get(plan, settled, job.path).0;
    OneChange(plan, got, job.path, Version("b", o));
    var (s, r) := PutConditional(plan, got, job.path, merged, Unconditional);
    assert s.log == [Write(job.path, Some(Version("b", o)), Version("d", merged))];
    assert Resolve(plan, Empty(), job).0 == s;
    assert s.past[0] == s.past[1] == map[];
    assert !Harmless(job, s.log[0]);
  }
}

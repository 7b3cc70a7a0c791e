/** Conflict resolution loses nothing, and exactly where it can. */
module ConflictTheorems {
  import opened Common
  import opened ConflictWorld
  import opened ConflictSpec

  // --- What may be overwritten ----------------------------------------------------

  /** A write that takes nothing from anybody: it replaced nothing, or an empty
      file we were creating, or the very content it was merged with. */
  ghost predicate Harmless(job: Job, wr: Write) {
    || wr.before.None?
    || (wr.path == job.path && job.creating && wr.before.value.bytes == [])
    || (wr.path == job.path && job.base.Some? && job.merge(job.base.value, job.local, wr.before.value.bytes) ==
        Some(wr.after.bytes))
  }

  ghost predicate AllHarmless(job: Job, w: World, s: World) {
    forall i :: |w.log| <= i < |s.log| ==> Harmless(job, s.log[i])
  }

  /** The writes of one conditional PUT. */
  lemma PutWrites(plan: Plan, w: World, path: string, bytes: Bytes, pre: Precondition)
    ensures var (s, r) := PutConditional(plan, w, path, bytes, pre);
            && Continues(w, s) && |s.log| <= |w.log| + 1
            && (|s.log| == |w.log| + 1 ==>
                  && Guarded(s.log[|w.log|], path, bytes, pre)
                  && (s.log[|w.log|].before.Some? ==>
                      |s.past| == |w.past| + 2 && path in s.past[|w.past|]
                          && s.past[|w.past|][path] == s.log[|w.log|].before.value)
                  && path in s.past[|s.past| - 1] && s.past[|s.past| - 1][path] == s.log[|w.log|].after)
            && (r.Ok? && r.value.Uploaded? ==>
                  && |s.log| == |w.log| + 1
                  && (r.value.etag.Some? ==> s.log[|w.log|].after.etag == r.value.etag.value))
            && (r.Ok? && r.value.Conflict? ==> s.log == w.log && !Holds(pre, Lookup(s.files, path)))
  {
  }

  /** A version seen in the past. */
  ghost predicate WasThere(past: seq<Files>, path: string, v: Version) {
    exists i :: 0 <= i < |past| && path in past[i] && past[i][path] == v
  }

  lemma StillThere(past: seq<Files>, later: seq<Files>, path: string, v: Version)
    requires WasThere(past, path, v) && past <= later
    ensures WasThere(later, path, v)
  {
    var i :| 0 <= i < |past| && path in past[i] && past[i][path] == v;
    assert later[i] == past[i];
  }

  /** An ETag that was read names exactly what was read with it. */
  lemma EtagNamesTheVersion(past: seq<Files>, path: string, a: Version, b: Version)
    requires Lawful(past) && WasThere(past, path, a) && WasThere(past, path, b) && a.etag == b.etag
    ensures a == b
  {
    var i :| 0 <= i < |past| && path in past[i] && past[i][path] == a;
    var j :| 0 <= j < |past| && path in past[j] && past[j][path] == b;
  }

  lemma LawfulBefore(past: seq<Files>, later: seq<Files>)
    requires Lawful(later) && past <= later
    ensures Lawful(past)
  {
    forall i | 0 <= i < |past| ensures past[i] == later[i] {
    }
  }

  // --- Step by step ---------------------------------------------------------------

  /** A read leaves our log alone. */
  predicate OnlyReads(w: World, s: World) {
    Continues(w, s) && s.log == w.log
  }

  lemma MetaReads(plan: Plan, w: World, path: string)
    ensures var (s, r) := RemoteMeta(plan, w, path);
            && OnlyReads(w, s)
            && (r.Ok? && r.value.Some? ==>
                  exists v :: WasThere(s.past, path, v) && |v.bytes| == r.value.value.size
                              && (r.value.value.etag != "" ==> v.etag == r.value.value.etag))
  {
    var (s, r) := RemoteMeta(plan, w, path);
    if r.Ok? && r.value.Some? {
      assert s.past[|s.past| - 1] == s.files;
      assert WasThere(s.past, path, s.files[path]);
    }
  }

  lemma GetReads(plan: Plan, w: World, path: string)
    ensures var (s, r) := Get(plan, w, path);
            && OnlyReads(w, s)
            && (r.Ok? ==> exists v :: WasThere(s.past, path, v) && v.bytes == r.value.0
                                      && (r.value.1.Some? ==> v.etag == r.value.1.value))
            && (r.Ok? ==> (r.value.1.Some? <==> plan(w.step).told))
  {
    var (s, r) := Get(plan, w, path);
    if r.Ok? {
      assert s.past[|s.past| - 1] == s.files;
      assert WasThere(s.past, path, s.files[path]);
    }
  }

  // --- What a return promises -----------------------------------------------------

  /** The buffer's bytes reached the server. */
  ghost predicate Delivered(job: Job, w: World, s: World, how: How) {
    match how
    case Settled(_) => |w.past| <= |s.past| && exists v ::
        WasThere(s.past[|w.past|..], job.path, v) && v.bytes == job.local
    case Merged(_) => exists i :: |w.log| <= i < |s.log| && IsMerge(job, s.log[i])
    case Copied(name) => exists i :: |w.log| <= i < |s.log| && IsCopy(job, s.log[i], name)
  }

  ghost predicate IsMerge(job: Job, wr: Write) {
    wr.path == job.path && job.base.Some? && exists theirs ::
        job.merge(job.base.value, job.local, theirs) == Some(wr.after.bytes)
  }

  predicate IsCopy(job: Job, wr: Write, name: string) {
    wr.path == name && wr.before.None? && wr.after.bytes == job.local
  }

  /** The ETag recorded with the row is one the server had for the path. */
  ghost predicate Known(job: Job, s: World, etag: Etag) {
    etag != "" ==> exists v :: WasThere(s.past, job.path, v) && v.etag == etag
  }

  ghost predicate KnownIfAny(job: Job, s: World, how: How) {
    match how
    case Settled(etag) => Known(job, s, etag)
    case Merged(etag) => Known(job, s, etag)
    case Copied(_) => true
  }

  /** A success is one: the bytes arrived, and the ETag was the server's. */
  ghost predicate Succeeds(job: Job, w: World, s: World, done: Option<How>) {
    && Continues(w, s)
    && (done.Some? ==> Delivered(job, w, s, done.value) && KnownIfAny(job, s, done.value))
  }

  /** All that one stage owes when the buffer is sent with one request. */
  ghost predicate Keeps(job: Job, w: World, s: World, done: Option<How>) {
    Succeeds(job, w, s, done) && (Lawful(s.past) ==> AllHarmless(job, w, s))
  }

  lemma SucceedsFromThere(job: Job, w: World, m: World, s: World, done: Option<How>)
    requires Continues(w, m) && Succeeds(job, m, s, done)
    ensures Succeeds(job, w, s, done)
  {
    if done.Some? && done.value.Settled? {
      var v :| WasThere(s.past[|m.past|..], job.path, v) && v.bytes == job.local;
      var i :| 0 <= i < |s.past| - |m.past| && job.path in s.past[|m.past|..][i]
          && s.past[|m.past|..][i][job.path] == v;
      assert s.past[|w.past|..][i + |m.past| - |w.past|] == s.past[|m.past|..][i];
      assert WasThere(s.past[|w.past|..], job.path, v);
    }
  }

  lemma KeepsFromThere(job: Job, w: World, m: World, s: World, done: Option<How>)
    requires Continues(w, m) && (Lawful(m.past) ==> AllHarmless(job, w, m))
    requires Keeps(job, m, s, done)
    ensures Keeps(job, w, s, done)
  {
    SucceedsFromThere(job, w, m, s, done);
    hide Succeeds, Lawful, Harmless;
    if Lawful(s.past) {
      ItContinues(job, m, s, done);
      LawfulBefore(m.past, s.past);
      forall i | |w.log| <= i < |s.log| ensures Harmless(job, s.log[i]) {
        if i < |m.log| {
          assert s.log[i] == m.log[i];
        }
      }
    }
  }

  lemma ItContinues(job: Job, w: World, s: World, done: Option<How>)
    requires Succeeds(job, w, s, done)
    ensures Continues(w, s)
  {
  }

  lemma RelistKeeps(job: Job, w: World, m: World, plan: Plan, done: Option<How>)
    requires Keeps(job, w, m, done)
    ensures Keeps(job, w, Relist(plan, m).0, done)
  {
    var s := Relist(plan, m).0;
    if Lawful(s.past) {
      LawfulBefore(m.past, s.past);
    }
    if done.Some? {
      match done.value
      case Settled(etag) =>
        var v :| WasThere(m.past[|w.past|..], job.path, v) && v.bytes == job.local;
        assert m.past[|w.past|..] <= s.past[|w.past|..];
        StillThere(m.past[|w.past|..], s.past[|w.past|..], job.path, v);
        KnownLater(job, m, s, etag);
      case Merged(etag) => KnownLater(job, m, s, etag);
      case Copied(_) =>
    }
  }

  lemma KnownLater(job: Job, m: World, s: World, etag: Etag)
    requires Known(job, m, etag) && m.past <= s.past
    ensures Known(job, s, etag)
  {
    if etag != "" {
      var v :| WasThere(m.past, job.path, v) && v.etag == etag;
      StillThere(m.past, s.past, job.path, v);
    }
  }

  // --- Settling -------------------------------------------------------------------

  function AsSettled(r: Result<Option<Etag>>): Option<How> {
    if r.Ok? && r.value.Some? then Some(Settled(r.value.value)) else None
  }

  function AsMerged(r: Result<Option<Etag>>): Option<How> {
    if r.Ok? && r.value.Some? then Some(Merged(r.value.value)) else None
  }

  function AsHow(r: Result<How>): Option<How> {
    if r.Ok? then Some(r.value) else None
  }

  /** Overwriting the very version that was seen empty. */
  lemma ReplaceEmptyKeeps(plan: Plan, w: World, job: Job, seen: Version, etag: Etag)
    requires |job.local| <= CHUNK_SIZE && job.creating
    requires WasThere(w.past, job.path, seen) && seen.bytes == [] && (etag != "" ==> seen.etag == etag)
    ensures var (s, r) := ReplaceEmpty(plan, w, job, etag); Keeps(job, w, s, AsSettled(r))
  {
    var (s, r) := PutConditional(plan, w, job.path, job.local, Match(etag));
    PutWrites(plan, w, job.path, job.local, Match(etag));
    hide PutConditional, Lawful;
    if Lawful(s.past) && |s.log| > |w.log| {
      EmptyWasReplaced(job, w, s, seen, etag);
    }
    if r.Ok? && r.value.Uploaded? {
      var wrote := s.log[|w.log|].after;
      assert s.past[|w.past|..][|s.past| - 1 - |w.past|] == s.past[|s.past| - 1];
      assert WasThere(s.past[|w.past|..], job.path, wrote) && WasThere(s.past, job.path, wrote);
      RelistKeeps(job, w, s, plan, Some(Settled(OrEmpty(r.value.etag))));
    }
  }

  lemma EmptyWasReplaced(job: Job, w: World, s: World, seen: Version, etag: Etag)
    requires Lawful(s.past) && w.past <= s.past && |w.log| < |s.log|
    requires WasThere(w.past, job.path, seen) && seen.bytes == [] && (etag != "" ==> seen.etag == etag)
    requires var wr := s.log[|w.log|];
             Guarded(wr, job.path, job.local, Match(etag)) && WasThere(s.past, job.path, wr.before.value)
    ensures s.log[|w.log|].before.value.bytes == []
  {
    StillThere(w.past, s.past, job.path, seen);
    EtagNamesTheVersion(s.past, job.path, s.log[|w.log|].before.value, seen);
  }

  lemma SettleKeeps(plan: Plan, w: World, job: Job)
    requires |job.local| <= CHUNK_SIZE
    ensures var (s, r) := Settle(plan, w, job); Keeps(job, w, s, AsSettled(r))
  {
    var (seen, meta) := RemoteMeta(plan, w, job.path);
    MetaReads(plan, w, job.path);
    if meta.Ok? && meta.value.Some? {
      var there := meta.value.value;
      var v :| WasThere(seen.past, job.path, v) && |v.bytes| == there.size
          && (there.etag != "" ==> v.etag == there.etag);
      if there.size == |job.local| {
        SettleCompares(plan, w, job, v);
      } else if job.creating && there.size == 0 {
        ReplaceEmptyKeeps(plan, seen, job, v, there.etag);
        KeepsFromThere(job, w, seen, ReplaceEmpty(plan, seen, job, there.etag).0,
            AsSettled(ReplaceEmpty(plan, seen, job, there.etag).1));
      }
    }
  }

  lemma SettleCompares(plan: Plan, w: World, job: Job, v: Version)
    requires |job.local| <= CHUNK_SIZE
    requires var (seen, meta) := RemoteMeta(plan, w, job.path);
             && meta.Ok? && meta.value.Some? && meta.value.value.size == |job.local|
             && WasThere(seen.past, job.path, v) && |v.bytes| == |job.local|
             && (meta.value.value.etag != "" ==> v.etag == meta.value.value.etag)
    ensures var (s, r) := Settle(plan, w, job); Keeps(job, w, s, AsSettled(r))
  {
    var (seen, meta) := RemoteMeta(plan, w, job.path);
    var there := meta.value.value;
    var (compared, got) := Get(plan, seen, job.path);
    if got.Ok? {
      StillThere(seen.past, compared.past, job.path, v);
      if got.value.0 == job.local {
        FoundTheSame(plan, w, compared, job, v, there.etag);
      } else if job.creating && there.size == 0 {
        hide Lawful, Delivered;
        ReplaceEmptyKeeps(plan, compared, job, v, there.etag);
        KeepsFromThere(job, w, compared, ReplaceEmpty(plan, compared, job, there.etag).0,
            AsSettled(ReplaceEmpty(plan, compared, job, there.etag).1));
      }
    }
  }

  lemma FoundTheSame(plan: Plan, w: World, compared: World, job: Job, v: Version, etag: Etag)
    requires OnlyReads(w, compared) && |w.past| < |compared.past|
    requires compared.past[|compared.past| - 1] == compared.files
    requires job.path in compared.files && compared.files[job.path].bytes == job.local
    requires WasThere(compared.past, job.path, v) && (etag != "" ==> v.etag == etag)
    ensures Keeps(job, w, Relist(plan, compared).0, Some(Settled(etag)))
  {
    assert compared.past[|w.past|..][|compared.past| - 1 - |w.past|] == compared.files;
    assert WasThere(compared.past[|w.past|..], job.path, compared.files[job.path]);
    RelistKeeps(job, w, compared, plan, Some(Settled(etag)));
  }

  // --- Merging --------------------------------------------------------------------

  /** The GET of every merge names the ETag of what it read. */
  ghost predicate TellsEtags(plan: Plan) {
    forall k: nat :: plan(k).told
  }

  /** Merging can go wrong only when the version read cannot be named: then the
      merged bytes replace whatever is there. */
  lemma MergeKeeps(plan: Plan, w: World, job: Job)
    requires TellsEtags(plan) || !MergeDependsOnTheirs(job)
    ensures var (s, r) := MergeAndUpload(plan, w, job); Keeps(job, w, s, AsMerged(r))
  {
    if job.textMerge && job.baseEtag != "" && job.base.Some? {
      var (got, r) := Get(plan, w, job.path);
      GetReads(plan, w, job.path);
      if r.Ok? && job.merge(job.base.value, job.local, r.value.0).Some? {
        var v :| WasThere(got.past, job.path, v) && v.bytes == r.value.0
            && (r.value.1.Some? ==> v.etag == r.value.1.value);
        MergePutIsHarmless(plan, w, got, job, v, ForUpload(OrEmpty(r.value.1), true));
      }
    }
    hide Succeeds, PutConditional, Lawful, Harmless;
    MergeSucceeds(plan, w, job);
  }

  /** What was merged arrived, named or not. */
  lemma MergeSucceeds(plan: Plan, w: World, job: Job)
    ensures var (s, r) := MergeAndUpload(plan, w, job); Succeeds(job, w, s, AsMerged(r))
  {
    if job.textMerge && job.baseEtag != "" && job.base.Some? {
      var (got, r) := Get(plan, w, job.path);
      GetReads(plan, w, job.path);
      if r.Ok? && job.merge(job.base.value, job.local, r.value.0).Some? {
        var merged, pre := job.merge(job.base.value, job.local, r.value.0).value, ForUpload(OrEmpty(r.value.1), true);
        var s := PutConditional(plan, got, job.path, merged, pre).0;
        PutWrites(plan, got, job.path, merged, pre);
        if |s.log| > |w.log| {
          assert IsMerge(job, s.log[|w.log|]);
          assert WasThere(s.past, job.path, s.log[|w.log|].after);
        }
      }
    }
  }

  /** A merge uploaded against the version it was made from. */
  ghost predicate Mergeable(job: Job, got: World, v: Version, pre: Precondition) {
    && job.textMerge && job.baseEtag != "" && job.base.Some?
    && WasThere(got.past, job.path, v)
    && job.merge(job.base.value, job.local, v.bytes).Some?
    && (pre == Match(v.etag) || (pre == Unconditional && (v.etag == "" || !MergeDependsOnTheirs(job))))
  }

  lemma MergeIsHarmless(job: Job, past: seq<Files>, v: Version, pre: Precondition, wr: Write)
    requires job.textMerge && job.baseEtag != "" && job.base.Some?
               && job.merge(job.base.value, job.local, v.bytes).Some?
    requires pre == Match(v.etag) || (pre == Unconditional && (v.etag == "" || !MergeDependsOnTheirs(job)))
    requires Lawful(past) && WasThere(past, job.path, v)
    requires Guarded(wr, job.path, job.merge(job.base.value, job.local, v.bytes).value, pre)
    requires wr.before.Some? ==> WasThere(past, job.path, wr.before.value)
    ensures Harmless(job, wr)
  {
    if wr.before.Some? {
      if pre == Match(v.etag) {
        EtagNamesTheVersion(past, job.path, wr.before.value, v);
      } else {
        assert v.etag != "";
        MergeIgnoresTheirs(job, v.bytes, wr.before.value.bytes);
      }
    }
  }

  lemma MergePutIsHarmless(plan: Plan, w: World, got: World, job: Job, v: Version, pre: Precondition)
    requires OnlyReads(w, got) && Mergeable(job, got, v, pre)
    ensures var s := PutConditional(plan, got, job.path, job.merge(job.base.value, job.local, v.bytes).value, pre).0;
            Lawful(s.past) ==> AllHarmless(job, w, s)
  {
    var merged := job.merge(job.base.value, job.local, v.bytes).value;
    var s := PutConditional(plan, got, job.path, merged, pre).0;
    PutWrites(plan, got, job.path, merged, pre);
    hide PutConditional, Lawful, Harmless, MergeDependsOnTheirs;
    if |s.log| > |w.log| && Lawful(s.past) {
      var wr := s.log[|w.log|];
      assert wr.before.Some? ==> WasThere(s.past, job.path, wr.before.value);
      StillThere(got.past, s.past, job.path, v);
      MergeIsHarmless(job, s.past, v, pre, wr);
    }
  }

  /** Some content of theirs merges, and another, which nobody may lose, would
      have come out differently. */
  ghost predicate MergeDependsOnTheirs(job: Job) {
    && job.textMerge && job.baseEtag != "" && job.base.Some?
    && exists t, o :: Differs(job, t, o)
  }

  ghost predicate Differs(job: Job, t: Bytes, o: Bytes)
    requires job.base.Some?
  {
    && job.merge(job.base.value, job.local, t).Some?
    && job.merge(job.base.value, job.local, o) != job.merge(job.base.value, job.local, t)
    && (job.creating ==> o != [])
  }

  lemma MergeIgnoresTheirs(job: Job, t: Bytes, o: Bytes)
    requires job.textMerge && job.baseEtag != "" && job.base.Some? && !MergeDependsOnTheirs(job)
    requires job.merge(job.base.value, job.local, t).Some?
    ensures (job.creating && o == []) || job.merge(job.base.value, job.local, o) ==
              job.merge(job.base.value, job.local, t)
  {
    assert !Differs(job, t, o);
  }

  // --- Parking --------------------------------------------------------------------

  lemma {:induction false} ParkKeeps(plan: Plan, w: World, job: Job, attempt: nat)
    requires |job.local| <= CHUNK_SIZE
    ensures var (s, r) := Park(plan, w, job, attempt); Keeps(job, w, s, AsHow(r))
    decreases MAX_COPY_ATTEMPTS - attempt
  {
    var copy := CopyName(job, attempt);
    var (s, r) := PutConditional(plan, w, copy, job.local, MustNotExist);
    PutWrites(plan, w, copy, job.local, MustNotExist);
    if r.Ok? {
      match r.value
      case Uploaded(_) =>
        assert IsCopy(job, s.log[|w.log|], copy);
        RelistKeeps(job, w, s, plan, Some(Copied(copy)));
      case Conflict =>
        if attempt + 1 < MAX_COPY_ATTEMPTS {
          ParkKeeps(plan, s, job, attempt + 1);
          KeepsFromThere(job, w, s, Park(plan, s, job, attempt + 1).0, AsHow(Park(plan, s, job, attempt + 1).1));
        }
    }
  }

  // --- The whole resolution -------------------------------------------------------

  lemma ResolveKeeps(plan: Plan, w: World, job: Job)
    requires |job.local| <= CHUNK_SIZE
    requires TellsEtags(plan) || !MergeDependsOnTheirs(job)
    ensures var (s, r) := Resolve(plan, w, job); Keeps(job, w, s, AsHow(r))
  {
    hide Settle, MergeAndUpload, Park, Keeps;
    SettleKeeps(plan, w, job);
    var (settled, done) := Settle(plan, w, job);
    if done.Ok? && done.value.None? {
      MergeKeeps(plan, settled, job);
      var (merged, kept) := MergeAndUpload(plan, settled, job);
      FirstThen(job, w, settled, merged, AsSettled(done), AsMerged(kept));
      if kept.Ok? && kept.value.None? {
        ParkKeeps(plan, merged, job, 0);
        FirstThen(job, w, merged, Park(plan, merged, job, 0).0, AsMerged(kept), AsHow(Park(plan, merged, job, 0).1));
      }
    }
  }

  /** Whatever the answers name, a success is one. */
  lemma ResolveSucceeds(plan: Plan, w: World, job: Job)
    requires |job.local| <= CHUNK_SIZE
    ensures var (s, r) := Resolve(plan, w, job); Succeeds(job, w, s, AsHow(r))
  {
    hide Settle, MergeAndUpload, Park, Succeeds, Lawful, AllHarmless;
    SettleKeeps(plan, w, job);
    var (settled, done) := Settle(plan, w, job);
    ItContinues(job, w, settled, AsSettled(done));
    if done.Ok? && done.value.None? {
      MergeSucceeds(plan, settled, job);
      var (merged, kept) := MergeAndUpload(plan, settled, job);
      ItContinues(job, settled, merged, AsMerged(kept));
      SucceedsFromThere(job, w, settled, merged, AsMerged(kept));
      if kept.Ok? && kept.value.None? {
        ParkKeeps(plan, merged, job, 0);
        SucceedsFromThere(job, w, merged, Park(plan, merged, job, 0).0, AsHow(Park(plan, merged, job, 0).1));
      }
    }
  }

  lemma FirstThen(job: Job, w: World, m: World, s: World, first: Option<How>, done: Option<How>)
    requires Keeps(job, w, m, first) && Keeps(job, m, s, done)
    ensures Keeps(job, w, s, done)
  {
    KeepsFromThere(job, w, m, s, done);
  }
}

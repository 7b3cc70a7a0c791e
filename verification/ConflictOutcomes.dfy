/** What a conflict comes to when the connection holds and nobody interferes:
    which of the three ways out is taken, and what is then on the server. */
module ConflictOutcomes {
  import opened Common
  import opened ConflictNames
  import opened ConflictWorld
  import opened ConflictSpec
  import opened ConflictRetry

  /** Somebody else's version: neither our bytes, nor the empty file of our own
      create. */
  predicate IsTheirs(job: Job, v: Version) {
    v.etag != "" && v.bytes != job.local && !(job.creating && v.bytes == [])
  }

  predicate CanMerge(job: Job, theirs: Bytes) {
    job.textMerge && job.baseEtag != "" && job.base.Some? && job.merge(job.base.value, job.local, theirs).Some?
  }

  /** Theirs settles nothing and stays as it is. */
  lemma TheirsIsNotSettled(plan: Plan, w: World, job: Job)
    requires Untouched(plan, job.path) && Reliable(plan, w.step)
    requires job.path in w.files && IsTheirs(job, w.files[job.path])
    ensures var (s, r) := Settle(plan, w, job);
            r == Ok(None) && s.log == w.log && w.step <= s.step
                && Lookup(s.files, job.path) == Lookup(w.files, job.path)
  {
    hide Serve;
    AnswersAt(plan, w.step, w.step);
    StaysThere(plan, w, job.path);
    var seen := Serve(plan, w);
    AnswersAt(plan, w.step, seen.step);
    StaysThere(plan, seen, job.path);
  }

  /** What merges is merged, in place, and nothing else is written. */
  lemma MergeableConflictMerges(plan: Plan, w: World, job: Job)
    requires Untouched(plan, job.path) && Reliable(plan, w.step)
    requires job.path in w.files && IsTheirs(job, w.files[job.path]) && CanMerge(job, w.files[job.path].bytes)
    ensures var (s, r) := Resolve(plan, w, job);
            && job.path in s.files && job.merge(job.base.value, job.local, w.files[job.path].bytes) ==
                Some(s.files[job.path].bytes)
            && r == Ok(Merged(s.files[job.path].etag))
            && s.log == w.log + [Write(job.path, Some(w.files[job.path]), s.files[job.path])]
  {
    TheirsIsNotSettled(plan, w, job);
    hide Serve, Settle, Park;
    var settled := Settle(plan, w, job).0;
    AnswersAt(plan, w.step, settled.step);
    StaysThere(plan, settled, job.path);
    var got := Serve(plan, settled);
    AnswersAt(plan, w.step, got.step);
    StaysThere(plan, got, job.path);
  }

  /** What does not merge stays as it is, and the buffer is beside it, under the
      first name that is asked for if that is free. */
  lemma RealConflictParksACopy(plan: Plan, w: World, job: Job)
    requires Untouched(plan, job.path) && Untouched(plan, CopyName(job, 0)) && Reliable(plan, w.step)
    requires job.path in w.files && IsTheirs(job, w.files[job.path]) && !CanMerge(job, w.files[job.path].bytes)
    requires CopyName(job, 0) !in w.files
    ensures var (s, r) := Resolve(plan, w, job);
            && r == Ok(Copied(CopyName(job, 0)))
            && Lookup(s.files, job.path) == Some(w.files[job.path])
            && CopyName(job, 0) in s.files && s.files[CopyName(job, 0)].bytes == job.local
            && s.log == w.log + [Write(CopyName(job, 0), None, s.files[CopyName(job, 0)])]
  {
    var copy := CopyName(job, 0);
    CopyIsASibling(job.path, job.clock(0), 0);
    TheirsIsNotSettled(plan, w, job);
    SettleLeavesOthers(plan, w, job, copy);
    hide CopyName, Serve, Upload, Settle;
    var settled := Settle(plan, w, job).0;
    var merged := MergeAndUpload(plan, settled, job).0;
    NothingMerges(plan, settled, job, copy);
    AnswersLater(plan, w.step, merged.step);
    UploadArrives(plan, merged, copy, job.local, MustNotExist);
    UploadLeavesOthers(plan, merged, copy, job.local, MustNotExist, job.path);
    var stored := Upload(plan, merged, copy, job.local, MustNotExist).0;
    AnswersAt(plan, merged.step, stored.step);
    StaysThere(plan, stored, copy);
    StaysThere(plan, stored, job.path);
  }

  lemma AnswersLater(plan: Plan, from: nat, later: nat)
    requires Reliable(plan, from) && from <= later
    ensures Reliable(plan, later)
  {
  }

  lemma SettleLeavesOthers(plan: Plan, w: World, job: Job, other: string)
    requires Untouched(plan, job.path) && Untouched(plan, other) && Reliable(plan, w.step) && other != job.path
    requires job.path in w.files && IsTheirs(job, w.files[job.path])
    ensures Lookup(Settle(plan, w, job).0.files, other) == Lookup(w.files, other)
  {
    hide Serve;
    AnswersAt(plan, w.step, w.step);
    StaysThere(plan, w, job.path);
    StaysThere(plan, w, other);
    var seen := Serve(plan, w);
    AnswersAt(plan, w.step, seen.step);
    StaysThere(plan, seen, job.path);
    StaysThere(plan, seen, other);
  }

  lemma NothingMerges(plan: Plan, w: World, job: Job, other: string)
    requires Untouched(plan, job.path) && Untouched(plan, other) && Reliable(plan, w.step)
    requires job.path in w.files && !CanMerge(job, w.files[job.path].bytes)
    ensures var (s, r) := MergeAndUpload(plan, w, job);
            && r == Ok(None) && s.log == w.log && w.step <= s.step
            && Lookup(s.files, job.path) == Lookup(w.files, job.path)
            && Lookup(s.files, other) == Lookup(w.files, other)
  {
    hide Serve;
    AnswersAt(plan, w.step, w.step);
    StaysThere(plan, w, job.path);
    StaysThere(plan, w, other);
  }

  /** An upload touches no path but its own. */
  lemma UploadLeavesOthers(plan: Plan, w: World, path: string, bytes: Bytes, pre: Precondition, other: string)
    requires Untouched(plan, other) && other != path
    ensures Lookup(Upload(plan, w, path, bytes, pre).0.files, other) == Lookup(w.files, other)
  {
    hide Serve;
    StaysThere(plan, w, other);
    if |bytes| > CHUNK_SIZE {
      var checked := Preflight(plan, w, path, pre).0;
      StaysThere(plan, checked, other);
      var staged := Serve(plan, checked);
      StaysThere(plan, staged, other);
      var m, served := plan(staged.step), Serve(plan, staged);
      StaysThere(plan, served, other);
      StaysThere(plan, Store(served, path, Version(m.etag, bytes)), other);
    }
  }
}

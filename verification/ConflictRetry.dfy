/** An upload whose answer was lost is not taken for somebody else's. */
module ConflictRetry {
  import opened Common
  import opened ConflictWorld
  import opened ConflictSpec

  /** No other client touches the path. */
  ghost predicate Untouched(plan: Plan, path: string) {
    forall k: nat :: path !in plan(k).changes
  }

  /** From here on the connection holds. */
  ghost predicate Reliable(plan: Plan, from: nat) {
    forall k: nat :: from <= k ==> Heard(plan(k)) && plan(k).told
  }

  lemma StaysThere(plan: Plan, w: World, path: string)
    requires Untouched(plan, path)
    ensures Lookup(Serve(plan, w).files, path) == Lookup(w.files, path)
    ensures Serve(plan, w).log == w.log && Serve(plan, w).step == w.step + 1
  {
    assert path !in plan(w.step).changes;
  }

  lemma AnswersAt(plan: Plan, from: nat, k: nat)
    requires Reliable(plan, from) && from <= k
    ensures Heard(plan(k)) && plan(k).told
  {
  }

  /** On a connection that holds, an upload whose precondition is met arrives. */
  lemma UploadArrives(plan: Plan, w: World, path: string, bytes: Bytes, pre: Precondition)
    requires Untouched(plan, path) && Reliable(plan, w.step)
    requires Holds(pre, Lookup(w.files, path))
    requires path in w.files ==> w.files[path].etag != ""
    ensures var (s, r) := Upload(plan, w, path, bytes, pre);
            && r.Ok? && r.value.Uploaded?
            && path in s.files && s.files[path].bytes == bytes && OrEmpty(r.value.etag) == s.files[path].etag
            && s.log == w.log + [Write(path, Lookup(w.files, path), s.files[path])]
            && w.step <= s.step
  {
    hide Serve;
    AnswersAt(plan, w.step, w.step);
    StaysThere(plan, w, path);
    if |bytes| > CHUNK_SIZE {
      var checked := Preflight(plan, w, path, pre).0;
      AnswersAt(plan, w.step, checked.step);
      StaysThere(plan, checked, path);
      AssembleArrives(plan, Serve(plan, checked), path, bytes);
    }
  }

  lemma AssembleArrives(plan: Plan, w: World, path: string, bytes: Bytes)
    requires Untouched(plan, path) && Reliable(plan, w.step)
    ensures var (s, r) := Assemble(plan, w, path, bytes);
            && r.Ok? && r.value.Uploaded?
            && path in s.files && s.files[path].bytes == bytes && OrEmpty(r.value.etag) == s.files[path].etag
            && s.log == w.log + [Write(path, Lookup(w.files, path), s.files[path])]
            && w.step <= s.step
  {
    AnswersAt(plan, w.step, w.step);
    StaysThere(plan, w, path);
    var m, served := plan(w.step), Serve(plan, w);
    var moved := Store(served, path, Version(m.etag, bytes));
    AnswersAt(plan, w.step, moved.step);
    StaysThere(plan, moved, path);
  }

  /** Our own earlier upload, or the empty file it left, settles the refusal. */
  lemma OwnUploadSettles(plan: Plan, w: World, job: Job)
    requires Untouched(plan, job.path) && Reliable(plan, w.step)
    requires job.path in w.files && w.files[job.path].etag != ""
    requires w.files[job.path].bytes == job.local || (job.creating && w.files[job.path].bytes == [])
    ensures var (s, r) := Resolve(plan, w, job);
            && job.path in s.files && s.files[job.path].bytes == job.local
            && r == Ok(Settled(s.files[job.path].etag))
            && s.log == if w.files[job.path].bytes == job.local then w.log
                        else w.log + [Write(job.path, Some(w.files[job.path]), s.files[job.path])]
  {
    hide Serve, MergeAndUpload, Park, Upload;
    var v := w.files[job.path];
    AnswersAt(plan, w.step, w.step);
    StaysThere(plan, w, job.path);
    var seen := Serve(plan, w);
    AnswersAt(plan, w.step, seen.step);
    if v.bytes == job.local {
      StaysThere(plan, seen, job.path);
      var compared := Serve(plan, seen);
      StaysThere(plan, compared, job.path);
    } else {
      UploadArrives(plan, seen, job.path, job.local, Match(v.etag));
      var stored := Upload(plan, seen, job.path, job.local, Match(v.etag)).0;
      StaysThere(plan, stored, job.path);
    }
  }

  /** What landed although its answer did not is what was sent. */
  lemma LandedIsWhatWasSent(plan: Plan, w: World, path: string, sent: Bytes)
    requires Untouched(plan, path) && path !in w.files
    ensures var (s, r) := Upload(plan, w, path, sent, MustNotExist);
            path in s.files ==> s.files[path].bytes == sent
  {
    hide Serve;
    StaysThere(plan, w, path);
    if |sent| > CHUNK_SIZE {
      var checked := Preflight(plan, w, path, MustNotExist).0;
      StaysThere(plan, checked, path);
      var staged := Serve(plan, checked);
      StaysThere(plan, staged, path);
      var m, served := plan(staged.step), Serve(plan, staged);
      StaysThere(plan, served, path);
      StaysThere(plan, Store(served, path, Version(m.etag, sent)), path);
    }
  }

  /** A create whose upload landed unanswered, with these bytes or still empty,
      is refused when it is tried again, and settled without a copy. */
  lemma LostAnswerMakesNoCopy(plan: Plan, w: World, job: Job, sent: Bytes, landed: World)
    requires Untouched(plan, job.path) && job.path !in w.files && job.creating
    requires sent == job.local || sent == []
    requires Upload(plan, w, job.path, sent, MustNotExist) == (landed, Err)
    requires job.path in landed.files && landed.files[job.path].etag != ""
    requires Reliable(plan, landed.step)
    ensures var (refused, r) := Upload(plan, landed, job.path, job.local, MustNotExist);
            && r == Ok(Conflict)
            && var (s, how) := Resolve(plan, refused, job);
               && job.path in s.files && s.files[job.path].bytes == job.local
               && how == Ok(Settled(s.files[job.path].etag))
               && s.log == if sent == job.local then landed.log
                           else landed.log + [Write(job.path, Some(landed.files[job.path]), s.files[job.path])]
  {
    LandedIsWhatWasSent(plan, w, job.path, sent);
    AnswersAt(plan, landed.step, landed.step);
    StaysThere(plan, landed, job.path);
    var refused := Upload(plan, landed, job.path, job.local, MustNotExist).0;
    hide Resolve, Serve;
    assert refused.log == landed.log && Lookup(refused.files, job.path) == Lookup(landed.files, job.path);
    OwnUploadSettles(plan, refused, job);
  }
}

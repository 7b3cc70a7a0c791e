/** What a lost answer does to a conflict's resolution: it ends it. Nothing is
    decided on an answer that did not come, so our own bytes are never put into a
    copy, however bad the connection. */
module ConflictAnswers {
  import opened Common
  import opened ConflictWorld
  import opened ConflictSpec
  import opened ConflictRetry

  /** Every request between the two steps was answered. */
  ghost predicate HeardAll(plan: Plan, from: nat, until: int) {
    forall k: nat :: from <= k < until ==> Heard(plan(k))
  }

  /** Some request between the two steps was not. */
  ghost predicate LostOne(plan: Plan, from: nat, until: nat) {
    exists k: nat :: from <= k < until && !Heard(plan(k))
  }

  /** Some file had this name at one of the later moments. */
  predicate WasTaken(past: seq<Files>, from: nat, name: string) {
    exists i :: from <= i < |past| && name in past[i]
  }

  lemma TakenStays(past: seq<Files>, later: seq<Files>, from: nat, sooner: nat, name: string)
    requires WasTaken(past, from, name) && past <= later && sooner <= from
    ensures WasTaken(later, sooner, name)
  {
    var i :| from <= i < |past| && name in past[i];
    assert later[i] == past[i];
  }

  lemma LostStays(plan: Plan, from: nat, until: nat, sooner: nat, later: nat)
    requires LostOne(plan, from, until) && sooner <= from && until <= later
    ensures LostOne(plan, sooner, later)
  {
  }

  lemma HeardOn(plan: Plan, from: nat, mid: int, until: int)
    requires from <= mid && HeardAll(plan, from, mid) && HeardAll(plan, mid, until)
    ensures HeardAll(plan, from, until)
  {
  }

  // --- One upload -------------------------------------------------------------------

  /** How many requests at the end of a successful upload may have gone
      unanswered: of the MOVE and the question after it one or the other. */
  function Unsure(bytes: Bytes): nat {
    if |bytes| > CHUNK_SIZE then 2 else 0
  }

  lemma UploadListens(plan: Plan, w: World, path: string, bytes: Bytes, pre: Precondition)
    requires !pre.Unconditional?
    ensures var (s, r) := Upload(plan, w, path, bytes, pre);
            && w.step < s.step && w.past <= s.past
            && (r.Err? ==> LostOne(plan, w.step, s.step))
            && (r == Ok(Conflict) ==> s.log == w.log && HeardAll(plan, w.step, s.step))
            && (r.Ok? && r.value.Uploaded? ==>
                  w.step + Unsure(bytes) < s.step && HeardAll(plan, w.step, s.step - Unsure(bytes)))
            && (r == Ok(Conflict) && pre == MustNotExist ==> WasTaken(s.past, |w.past|, path))
  {
    if |bytes| > CHUNK_SIZE {
      ChunkedListens(plan, w, path, bytes, pre);
    } else {
      var s := Serve(plan, w);
      assert s.past[|w.past|] == s.files;
      assert !Heard(plan(w.step)) ==> LostOne(plan, w.step, s.step);
    }
  }

  lemma PreflightListens(plan: Plan, w: World, path: string, pre: Precondition)
    requires !pre.Unconditional?
    ensures var (s, r) := Preflight(plan, w, path, pre);
            && s.step == w.step + 1 && w.past <= s.past && s.log == w.log
            && (r.Ok? <==> Heard(plan(w.step)))
            && (r == Ok(false) && pre == MustNotExist ==> WasTaken(s.past, |w.past|, path))
  {
    var s := Serve(plan, w);
    assert s.past[|w.past|] == s.files;
  }

  lemma ChunkedListens(plan: Plan, w: World, path: string, bytes: Bytes, pre: Precondition)
    requires !pre.Unconditional?
    ensures var (s, r) := PutChunked(plan, w, path, bytes, pre);
            && w.step < s.step && w.past <= s.past
            && (r.Err? ==> LostOne(plan, w.step, s.step))
            && (r == Ok(Conflict) ==> s.log == w.log && HeardAll(plan, w.step, s.step))
            && (r.Ok? && r.value.Uploaded? ==> s.step == w.step + 4 && HeardAll(plan, w.step, w.step + 2))
            && (r == Ok(Conflict) && pre == MustNotExist ==> WasTaken(s.past, |w.past|, path))
  {
    PreflightListens(plan, w, path, pre);
    hide Preflight, WasTaken;
    var (checked, free) := Preflight(plan, w, path, pre);
    var s := PutChunked(plan, w, path, bytes, pre).0;
    if free == Ok(true) && Heard(plan(checked.step)) {
      var staged := Serve(plan, checked);
      assert !Heard(plan(staged.step)) ==> LostOne(plan, w.step, s.step);
    } else {
      assert !Heard(plan(w.step)) ==> LostOne(plan, w.step, s.step);
      assert !Heard(plan(checked.step)) ==> free != Ok(true) || LostOne(plan, w.step, s.step);
    }
  }

  // --- Every success and every failure --------------------------------------------------

  /** How many requests at the end of a success may have gone unanswered, of the
      number made: the relist after settling, and what an upload makes up for. Our
      own bytes are found with two requests before the relist, and no upload. */
  function Forgiven(job: Job, how: How, made: int): nat {
    match how
    case Settled(_) => 1 + if made > 3 then Unsure(job.local) else 0
    case Merged(_) => 0
    case Copied(_) => 1 + Unsure(job.local)
  }

  /** One stage of the resolution: what it was not told ends it, and only that. */
  ghost predicate Listens(plan: Plan, w: World, job: Job, s: World, done: Result<Option<How>>) {
    && w.step <= s.step && w.past <= s.past
    && (done == Ok(None) ==> HeardAll(plan, w.step, s.step))
    && (done.Ok? && done.value.Some? ==>
          HeardAll(plan, w.step, s.step - Forgiven(job, done.value.value, s.step - w.step)))
  }

  ghost predicate FailsForAReason(plan: Plan, w: World, job: Job, s: World) {
    || LostOne(plan, w.step, s.step)
    || job.path !in s.files
    || forall a :: 0 <= a < 4 ==> WasTaken(s.past, |w.past|, CopyName(job, a))
  }

  function Settling(r: Result<Option<Etag>>): Result<Option<How>> {
    match r
    case Err => Err
    case Ok(None) => Ok(None)
    case Ok(Some(etag)) => Ok(Some(Settled(etag)))
  }

  function Merging(r: Result<Option<Etag>>): Result<Option<How>> {
    match r
    case Err => Err
    case Ok(None) => Ok(None)
    case Ok(Some(etag)) => Ok(Some(Merged(etag)))
  }

  /** Settling gives way to merging and copying only on what it was told, whatever
      the size of the buffer. */
  lemma SettleListens(plan: Plan, w: World, job: Job)
    ensures var (s, r) := Settle(plan, w, job);
            && Listens(plan, w, job, s, Settling(r))
            && (r == Ok(None) ==> s.log == w.log && Heard(plan(w.step)))
            && (r.Err? ==> LostOne(plan, w.step, s.step) || job.path !in s.files)
  {
    var (seen, meta) := RemoteMeta(plan, w, job.path);
    if !Heard(plan(w.step)) {
      assert LostOne(plan, w.step, seen.step);
    } else if meta.value.Some? {
      var etag, compared := meta.value.value.etag, Serve(plan, seen);
      assert compared.step == w.step + 2 && w.past <= compared.past;
      assert !Heard(plan(seen.step)) ==> LostOne(plan, w.step, compared.step);
      hide Upload, Serve, ReplaceEmpty, LostOne;
      if meta.value.value.size != |job.local| {
        ReplaceListens(plan, w, seen, job, etag);
      } else if Heard(plan(seen.step)) {
        ReplaceListens(plan, w, compared, job, etag);
      }
    }
  }

  /** Replacing the empty file, after requests that were all answered. */
  lemma ReplaceListens(plan: Plan, w: World, m: World, job: Job, etag: Etag)
    requires w.step <= m.step && w.past <= m.past && HeardAll(plan, w.step, m.step)
    ensures var (s, r) := ReplaceEmpty(plan, m, job, etag);
            && Listens(plan, w, job, s, Settling(r))
            && (r == Ok(None) ==> s.log == m.log)
            && (r.Err? ==> LostOne(plan, w.step, s.step))
  {
    hide Upload;
    UploadListens(plan, m, job.path, job.local, Match(etag));
    var (s, r) := Upload(plan, m, job.path, job.local, Match(etag));
    if r.Err? {
      LostStays(plan, m.step, s.step, w.step, s.step);
    }
  }

  lemma MergeListens(plan: Plan, w: World, job: Job)
    ensures var (s, r) := MergeAndUpload(plan, w, job);
            && Listens(plan, w, job, s, Merging(r))
            && (r.Err? ==> LostOne(plan, w.step, s.step) || job.path !in s.files)
  {
    var got := Serve(plan, w);
    var s := MergeAndUpload(plan, w, job).0;
    assert !Heard(plan(w.step)) && s.step > w.step ==> LostOne(plan, w.step, s.step);
    assert s.step > got.step && !Heard(plan(got.step)) ==> LostOne(plan, w.step, s.step);
  }

  /** Parking goes on to the next name only when it was told that this one is
      taken, and gives up only when an answer was lost or every name was. */
  lemma {:induction false} ParkingFailsOnlyWhenAllNamesAreTaken(plan: Plan, w: World, job: Job, attempt: nat)
    requires attempt < MAX_COPY_ATTEMPTS
    ensures var (s, r) := Park(plan, w, job, attempt);
            && w.step <= s.step && w.past <= s.past
            && (r.Ok? ==> r.value.Copied? && HeardAll(plan, w.step, s.step - 1 - Unsure(job.local))
                          && w.step < s.step && Heard(plan(s.step - 1)))
            && (r.Err? ==>
                  || LostOne(plan, w.step, s.step)
                  || forall a :: attempt <= a < MAX_COPY_ATTEMPTS ==> WasTaken(s.past, |w.past|, CopyName(job, a)))
    decreases MAX_COPY_ATTEMPTS - attempt
  {
    hide CopyName, Upload, WasTaken, LostOne, HeardAll;
    var copy := CopyName(job, attempt);
    UploadListens(plan, w, copy, job.local, MustNotExist);
    var (s, r) := Upload(plan, w, copy, job.local, MustNotExist);
    if r == Ok(Conflict) {
      if attempt + 1 < MAX_COPY_ATTEMPTS {
        ParkingFailsOnlyWhenAllNamesAreTaken(plan, s, job, attempt + 1);
        var (t, parked) := Park(plan, s, job, attempt + 1);
        if parked.Ok? {
          HeardOn(plan, w.step, s.step, t.step - 1 - Unsure(job.local));
        } else if LostOne(plan, s.step, t.step) {
          LostStays(plan, s.step, t.step, w.step, t.step);
        } else {
          TakenStays(s.past, t.past, |w.past|, |w.past|, copy);
          forall a | attempt < a < MAX_COPY_ATTEMPTS ensures WasTaken(t.past, |w.past|, CopyName(job, a)) {
            TakenStays(t.past, t.past, |s.past|, |w.past|, CopyName(job, a));
          }
        }
      }
    } else if r.Ok? {
      RelistListens(plan, w.step, s);
    }
  }

  lemma RelistListens(plan: Plan, from: nat, w: World)
    requires from <= w.step
    ensures var (s, r) := Relist(plan, w);
            && s.step == w.step + 1 && w.past <= s.past
            && (r.Ok? <==> Heard(plan(w.step))) && (r.Err? ==> LostOne(plan, from, s.step))
  {
  }

  /** Nothing is decided on an answer that was lost, and nothing else fails: a
      success heard every answer up to those it does not need, and a failure lost
      one, found the file gone when it read it, or found every name taken. */
  lemma ResolutionListens(plan: Plan, w: World, job: Job)
    ensures var (s, r) := Resolve(plan, w, job);
            && (r.Ok? ==> HeardAll(plan, w.step, s.step - Forgiven(job, r.value, s.step - w.step)))
            && (r.Ok? && r.value.Copied? ==> w.step < s.step && Heard(plan(s.step - 1)))
            && (r.Err? ==> FailsForAReason(plan, w, job, s))
  {
    hide Settle, MergeAndUpload, Park, LostOne, HeardAll, WasTaken, CopyName;
    SettleListens(plan, w, job);
    var (settled, done) := Settle(plan, w, job);
    if done == Ok(None) {
      MergeListens(plan, settled, job);
      var (merged, kept) := MergeAndUpload(plan, settled, job);
      if kept == Ok(None) {
        ParkingFailsOnlyWhenAllNamesAreTaken(plan, merged, job, 0);
        var (s, r) := Park(plan, merged, job, 0);
        HeardOn(plan, w.step, settled.step, merged.step);
        if r.Ok? {
          HeardOn(plan, w.step, merged.step, s.step - Forgiven(job, r.value, s.step - w.step));
        } else if LostOne(plan, merged.step, s.step) {
          LostStays(plan, merged.step, s.step, w.step, s.step);
        } else {
          forall a | 0 <= a < MAX_COPY_ATTEMPTS ensures WasTaken(s.past, |w.past|, CopyName(job, a)) {
            TakenStays(s.past, s.past, |merged.past|, |w.past|, CopyName(job, a));
          }
        }
      } else if kept.Ok? {
        HeardOn(plan, w.step, settled.step, merged.step);
      } else if LostOne(plan, settled.step, merged.step) {
        LostStays(plan, settled.step, merged.step, w.step, merged.step);
      }
    }
  }

  // --- Our own bytes ----------------------------------------------------------------

  /** Where the path holds our own bytes already and nobody touches it, nothing is
      written whatever is lost, and the outcome is settled by two answers. */
  lemma OwnBytesAreNeverCopied(plan: Plan, w: World, job: Job)
    requires Untouched(plan, job.path)
    requires job.path in w.files && w.files[job.path].bytes == job.local
    ensures var (s, r) := Resolve(plan, w, job);
            && s.log == w.log && Lookup(s.files, job.path) == Some(w.files[job.path])
            && r == if Heard(plan(w.step)) && Heard(plan(w.step + 1))
               then Ok(Settled(if plan(w.step).told then w.files[job.path].etag else "")) else Err
  {
    hide Serve, MergeAndUpload, Park, Upload;
    StaysThere(plan, w, job.path);
    var seen := Serve(plan, w);
    StaysThere(plan, seen, job.path);
    var compared := Serve(plan, seen);
    StaysThere(plan, compared, job.path);
  }

  /** Where the path holds the empty file of our own create, and the answer names
      it, the only write is its replacement, and every success settles. */
  lemma OwnEmptyFileIsReplacedOrKept(plan: Plan, w: World, job: Job)
    requires Untouched(plan, job.path) && plan(w.step).told
    requires job.creating && job.path in w.files && w.files[job.path].bytes == [] && job.local != []
    requires w.files[job.path].etag != ""
    ensures var (s, r) := Resolve(plan, w, job);
            && job.path in s.files
            && (s.log == w.log || s.log == w.log + [Write(job.path, Some(w.files[job.path]), s.files[job.path])])
            && (s.log != w.log ==> s.files[job.path].bytes == job.local)
            && (r.Ok? ==> r.value.Settled? && s.log != w.log)
  {
    hide Serve, MergeAndUpload, Park, Upload;
    StaysThere(plan, w, job.path);
    var seen, etag := Serve(plan, w), w.files[job.path].etag;
    if Heard(plan(w.step)) {
      EmptyUploadIsTheOnlyWrite(plan, seen, job.path, job.local, etag);
      var stored := Upload(plan, seen, job.path, job.local, Match(etag)).0;
      StaysThere(plan, stored, job.path);
    }
  }

  /** An upload over the very version it names is never refused, and leaves one
      write or none; it succeeds only with the write. */
  lemma EmptyUploadIsTheOnlyWrite(plan: Plan, w: World, path: string, bytes: Bytes, etag: Etag)
    requires Untouched(plan, path) && path in w.files && w.files[path] == Version(etag, []) && bytes != []
    ensures var (s, r) := Upload(plan, w, path, bytes, Match(etag));
            && r != Ok(Conflict) && path in s.files
            && (s.log == w.log || s.log == w.log + [Write(path, Some(w.files[path]), s.files[path])])
            && (s.log != w.log ==> s.files[path].bytes == bytes)
            && (r.Ok? ==> s.log != w.log)
  {
    hide Serve;
    StaysThere(plan, w, path);
    if |bytes| > CHUNK_SIZE {
      var checked := Preflight(plan, w, path, Match(etag)).0;
      StaysThere(plan, checked, path);
      AssembleOverEmpty(plan, Serve(plan, checked), path, bytes);
    }
  }

  /** A MOVE that did not arrive leaves the empty file, whose size gives it away. */
  lemma AssembleOverEmpty(plan: Plan, w: World, path: string, bytes: Bytes)
    requires Untouched(plan, path) && path in w.files && w.files[path].bytes == [] && bytes != []
    ensures var (s, r) := Assemble(plan, w, path, bytes);
            && r != Ok(Conflict) && path in s.files
            && (s.log == w.log || s.log == w.log + [Write(path, Some(w.files[path]), s.files[path])])
            && (s.log != w.log ==> s.files[path].bytes == bytes)
            && (r.Ok? ==> s.log != w.log)
  {
    hide Serve;
    StaysThere(plan, w, path);
    var m, served := plan(w.step), Serve(plan, w);
    StaysThere(plan, served, path);
    StaysThere(plan, Store(served, path, Version(m.etag, bytes)), path);
  }

  /** Without its name the empty file passes for somebody else's: a buffer that
      goes up in one request gives way to a copy exactly then. */
  lemma EmptyFileIsTakenForTheirsExactly(plan: Plan, w: World, job: Job)
    requires Untouched(plan, job.path) && |job.local| <= CHUNK_SIZE
    requires job.creating && job.path in w.files && w.files[job.path].bytes == [] && job.local != []
    requires w.files[job.path].etag != ""
    ensures Settle(plan, w, job).1 == Ok(None) <==>
              Heard(plan(w.step)) && !plan(w.step).told && Heard(plan(w.step + 1))
  {
    hide Serve;
    StaysThere(plan, w, job.path);
    StaysThere(plan, Serve(plan, w), job.path);
  }
}

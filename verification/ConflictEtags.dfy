/** Which version the row is left with after a conflict: exactly when the ETag
    recorded can only name the bytes that were delivered. */
module ConflictEtags {
  import opened Common
  import opened ConflictWorld
  import opened ConflictSpec
  import opened ConflictTheorems
  import opened ConflictExact

  /** An ETag the server has moved on from does not come back. */
  ghost predicate NeverBack(past: seq<Files>) {
    forall i, j, k, p ::
      0 <= i <= j <= k < |past| && p in past[i] && p in past[k] && past[i][p].etag == past[k][p].etag ==>
        p in past[j] && past[j][p] == past[k][p]
  }

  /** What the server holds is what this success says was delivered. */
  ghost predicate AsDelivered(job: Job, w: World, s: World, how: How, there: Version) {
    match how
    case Settled(_) => there.bytes == job.local
    case Merged(_) =>
      exists i :: |w.log| <= i < |s.log| && IsMerge(job, s.log[i]) && s.log[i].after.bytes == there.bytes
    case Copied(_) => true
  }

  function Recorded(how: How): Etag {
    match how
    case Settled(etag) => etag
    case Merged(etag) => etag
    case Copied(_) => ""
  }

  /** The row ends up naming what the server holds, and takes other bytes for it:
      no later comparison of ETags will notice. */
  ghost predicate Misnames(plan: Plan, w: World, job: Job) {
    var (s, r) := Resolve(plan, w, job);
    && Lawful(s.past) && NeverBack(s.past)
    && r.Ok? && Recorded(r.value) != ""
    && job.path in s.files && s.files[job.path].etag == Recorded(r.value)
    && !AsDelivered(job, w, s, r.value, s.files[job.path])
  }

  /** The ETag in the row, as long as it is the server's, names the delivered
      bytes in every run iff the buffer does not replace the empty file of its
      create by a chunked upload, which reads the ETag in a request of its own
      after the MOVE. */
  lemma RecordedEtagIsOursExactly(job: Job)
    ensures (forall plan: Plan, w: World :: !Misnames(plan, w, job)) <==> |job.local| <= CHUNK_SIZE || !job.creating
  {
    if |job.local| <= CHUNK_SIZE || !job.creating {
      forall plan: Plan, w: World ensures !Misnames(plan, w, job) {
        RecordedIsOurs(plan, w, job);
      }
    } else {
      NextWriterIsRecorded(job);
    }
  }

  // --- One request ----------------------------------------------------------------

  lemma RecordedIsOurs(plan: Plan, w: World, job: Job)
    requires |job.local| <= CHUNK_SIZE || !job.creating
    ensures !Misnames(plan, w, job)
  {
    hide NeverBack, Lawful;
    var (settled, done) := Settle(plan, w, job);
    if done.Ok? && done.value.Some? {
      SettledIsOurs(plan, w, job);
    } else if done.Ok? {
      hide Settle;
      SettleContinues(plan, w, job);
      var (merged, kept) := MergeAndUpload(plan, settled, job);
      if kept.Ok? && kept.value.Some? {
        MergedIsOurs(plan, settled, job);
        hide MergeAndUpload;
        if merged.files[job.path].etag == kept.value.value {
          var i :| |settled.log| <= i < |merged.log| && IsMerge(job, merged.log[i])
              && merged.log[i].after.bytes == merged.files[job.path].bytes;
          assert |w.log| <= i;
        }
      } else {
        ParkRecordsNothing(plan, merged, job, 0);
      }
    }
  }

  lemma {:induction false} ParkRecordsNothing(plan: Plan, w: World, job: Job, attempt: nat)
    ensures var r := Park(plan, w, job, attempt).1; r.Ok? ==> r.value.Copied?
    decreases MAX_COPY_ATTEMPTS - attempt
  {
    hide Upload;
    var (s, r) := Upload(plan, w, CopyName(job, attempt), job.local, MustNotExist);
    if r == Ok(Conflict) && attempt + 1 < MAX_COPY_ATTEMPTS {
      ParkRecordsNothing(plan, s, job, attempt + 1);
    }
  }

  lemma SettleContinues(plan: Plan, w: World, job: Job)
    ensures var (s, r) := Settle(plan, w, job); r == Ok(None) ==> |w.log| <= |s.log|
  {
    UploadContinues(plan, Serve(plan, w), job);
    UploadContinues(plan, Serve(plan, Serve(plan, w)), job);
    hide Upload;
  }

  lemma UploadContinues(plan: Plan, w: World, job: Job)
    ensures forall etag :: |w.log| <= |Upload(plan, w, job.path, job.local, Match(etag)).0.log|
  {
  }

  /** A merge goes up in one request, whose answer names it. */
  lemma MergedIsOurs(plan: Plan, w: World, job: Job)
    ensures var (s, r) := MergeAndUpload(plan, w, job);
            r.Ok? && r.value.Some? ==>
              && job.path in s.files
              && exists i :: |w.log| <= i < |s.log| && IsMerge(job, s.log[i])
                  && s.log[i].after.bytes == s.files[job.path].bytes
  {
    var (s, r) := MergeAndUpload(plan, w, job);
    if r.Ok? && r.value.Some? {
      var (got, read) := Get(plan, w, job.path);
      var merged := job.merge(job.base.value, job.local, read.value.0).value;
      PutWrites(plan, got, job.path, merged, ForUpload(OrEmpty(read.value.1), true));
      assert IsMerge(job, s.log[|w.log|]) && s.log[|w.log|].after == s.files[job.path];
    }
  }

  /** The bytes were compared after the ETag was read, or sent with the request
      that was told it. */
  lemma SettledIsOurs(plan: Plan, w: World, job: Job)
    requires |job.local| <= CHUNK_SIZE || !job.creating
    ensures var (s, r) := Settle(plan, w, job);
            Lawful(s.past) && NeverBack(s.past) && r.Ok? && r.value.Some? && r.value.value != ""
            && job.path in s.files && s.files[job.path].etag == r.value.value ==>
              s.files[job.path].bytes == job.local
  {
    var (s, r) := Settle(plan, w, job);
    if Lawful(s.past) && NeverBack(s.past) && r.Ok? && r.value.Some? && r.value.value != ""
       && job.path in s.files && s.files[job.path].etag == r.value.value {
      var (seen, meta) := RemoteMeta(plan, w, job.path);
      var (compared, same) := SameBytes(plan, seen, job.path, job.local);
      if meta.value.value.size == |job.local| && same == Ok(true) {
        ComparedIsOurs(plan, w, job, s);
      } else if meta.value.value.size == |job.local| {
        ReplacedIsOurs(plan, compared, job, meta.value.value.etag);
      } else {
        ReplacedIsOurs(plan, seen, job, meta.value.value.etag);
      }
    }
  }

  lemma ComparedIsOurs(plan: Plan, w: World, job: Job, s: World)
    requires s == Serve(plan, Serve(plan, Serve(plan, w))) && NeverBack(s.past)
    requires var seen, compared := Serve(plan, w), Serve(plan, Serve(plan, w));
             && job.path in seen.files && job.path in compared.files && compared.files[job.path].bytes == job.local
             && job.path in s.files && s.files[job.path].etag == seen.files[job.path].etag
    ensures s.files[job.path].bytes == job.local
  {
    hide Changed;
    var i := |w.past|;
    assert s.past[i] == Serve(plan, w).files && s.past[i + 1] == Serve(plan, Serve(plan, w)).files
        && s.past[i + 2] == s.files;
  }

  lemma ReplacedIsOurs(plan: Plan, w: World, job: Job, etag: Etag)
    requires |job.local| <= CHUNK_SIZE
    ensures var (s, r) := ReplaceEmpty(plan, w, job, etag);
            Lawful(s.past) && r.Ok? && r.value.Some? && r.value.value != ""
            && job.path in s.files && s.files[job.path].etag == r.value.value ==>
              s.files[job.path].bytes == job.local
  {
    var (u, put) := PutConditional(plan, w, job.path, job.local, Match(etag));
    PutWrites(plan, w, job.path, job.local, Match(etag));
    if put.Ok? && put.value.Uploaded? {
      hide PutConditional;
      var s := Relist(plan, u).0;
      assert s.past[|u.past| - 1] == u.past[|u.past| - 1] && s.past[|u.past|] == s.files;
    }
  }

  // --- The ETag that is read after the MOVE ---------------------------------------

  /** The empty file of the create is there. */
  function Created(job: Job): World {
    World(map[job.path := Version("a", [])], 0, [], [map[job.path := Version("a", [])]])
  }

  /** Another client writes between the MOVE and the question for its ETag. */
  function WrittenAfterTheMove(job: Job): Plan {
    k => if k == 4 then Quiet().(changes := map[job.path := Some(Version("c", Other(job.local)))]) else Quiet()
  }

  lemma MomentsAfterTheMove(job: Job)
    ensures var plan := WrittenAfterTheMove(job);
            && plan(0) == Quiet() && plan(1) == Quiet() && plan(2) == Quiet() && plan(3) == Quiet()
            && plan(5) == Quiet()
            && plan(4) == Quiet().(changes := map[job.path := Some(Version("c", Other(job.local)))])
  {
  }

  /** The worlds of that run: up to the MOVE nothing changes. */
  function Before(job: Job, n: nat): World {
    World(Created(job).files, n, [], seq(n + 1, i => Created(job).files))
  }

  lemma BeforeGoesOn(job: Job, n: nat)
    requires n < 4
    ensures Serve(WrittenAfterTheMove(job), Before(job, n)) == Before(job, n + 1)
  {
    MomentsAfterTheMove(job);
    Undisturbed(WrittenAfterTheMove(job), Before(job, n));
    assert Before(job, n).past + [Created(job).files] == Before(job, n + 1).past;
  }

  function Moved(job: Job): World {
    Store(Before(job, 4), job.path, Version("d", job.local))
  }

  function End(job: Job): World {
    var theirs := Moved(job).files[job.path := Version("c", Other(job.local))];
    World(theirs, 6, Moved(job).log, Moved(job).past + [theirs, theirs])
  }

  lemma TheyWrite(job: Job)
    ensures var plan := WrittenAfterTheMove(job); Serve(plan, Serve(plan, Moved(job))) == End(job)
    ensures Serve(WrittenAfterTheMove(job), Moved(job)).files == End(job).files
  {
    var plan := WrittenAfterTheMove(job);
    MomentsAfterTheMove(job);
    OneChange(plan, Moved(job), job.path, Version("c", Other(job.local)));
    Undisturbed(plan, Serve(plan, Moved(job)));
    assert Moved(job).past + [End(job).files] + [End(job).files] == End(job).past;
  }

  /** The upload is told the other client's ETag. */
  lemma UploadIsToldTheirs(job: Job)
    requires |job.local| > CHUNK_SIZE
    ensures var plan := WrittenAfterTheMove(job);
            Upload(plan, Before(job, 1), job.path, job.local, Match("a")) ==
                (Serve(plan, Moved(job)), Ok(Uploaded(Some("c"))))
  {
    MomentsAfterTheMove(job);
    BeforeGoesOn(job, 1);
    BeforeGoesOn(job, 2);
    BeforeGoesOn(job, 3);
    TheyWrite(job);
    hide Serve, WrittenAfterTheMove;
  }

  lemma EndsWithTheirs(job: Job)
    requires |job.local| > CHUNK_SIZE && job.creating
    ensures Resolve(WrittenAfterTheMove(job), Created(job), job) == (End(job), Ok(Settled("c")))
  {
    MomentsAfterTheMove(job);
    BeforeGoesOn(job, 0);
    UploadIsToldTheirs(job);
    TheyWrite(job);
    assert Created(job) == Before(job, 0);
    hide Serve, WrittenAfterTheMove, Upload, Before, End, Moved;
  }

  /** The path's versions, one after another. */
  function VersionAt(job: Job, i: nat): Version {
    if i < 5 then Version("a", []) else if i == 5 then Version("d", job.local) else Version("c", Other(job.local))
  }

  lemma PastOfTheEnd(job: Job)
    ensures forall i: nat :: i < |End(job).past| ==> End(job).past[i] == map[job.path := VersionAt(job, i)]
  {
  }

  lemma LawfulToTheEnd(job: Job)
    ensures Lawful(End(job).past) && NeverBack(End(job).past)
  {
    PastOfTheEnd(job);
    hide End, Other;
  }

  lemma NextWriterIsRecorded(job: Job)
    requires |job.local| > CHUNK_SIZE && job.creating
    ensures Misnames(WrittenAfterTheMove(job), Created(job), job)
  {
    EndsWithTheirs(job);
    LawfulToTheEnd(job);
    assert job.path in End(job).files && End(job).files[job.path] == Version("c", Other(job.local));
    assert Other(job.local)[0] != job.local[0];
    hide Resolve, End, Lawful, NeverBack, Other;
  }
}

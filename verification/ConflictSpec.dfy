/** What becomes of an upload the server refused, as a function of everything
    that happens meanwhile. */
module ConflictSpec {
  import opened Common
  import opened ConflictNames
  import opened ConflictWorld

  const MAX_COPY_ATTEMPTS: nat := 4

  /** An upload that was refused: the buffer, what the row says, and what the
      merge has to work with. `merge` is the text merge, which refuses what is
      not text; `clock` is the time at each naming of a copy. */
  datatype Job = Job(
    path: string,
    parent: string,
    local: Bytes,
    creating: bool,
    textMerge: bool,
    baseEtag: Etag,
    base: Option<Bytes>,
    merge: (Bytes, Bytes, Bytes) -> Option<Bytes>,
    clock: nat -> nat)

  /** How an upload was settled, with the ETag the row gets. */
  datatype How = Settled(etag: Etag) | Merged(etag: Etag) | Copied(name: string)

  // --- Settling -------------------------------------------------------------------

  /** Whether the server holds the buffer's bytes, streamed and compared. */
  function SameBytes(plan: Plan, w: World, path: string, local: Bytes): (World, Result<bool>) {
    var (s, r) := Get(plan, w, path);
    (s, if r.Err? then Err else Ok(r.value.0 == local))
  }

  /** The relist after a change; it changes nothing on the server. */
  function Relist(plan: Plan, w: World): (World, Result<()>) {
    (Serve(plan, w), if Heard(plan(w.step)) then Ok(()) else Err)
  }

  function OrEmpty(etag: Option<Etag>): Etag {
    if etag.Some? then etag.value else ""
  }

  function ReplaceEmpty(plan: Plan, w: World, job: Job, etag: Etag): (World, Result<Option<Etag>>) {
    var (s, r) := Upload(plan, w, job.path, job.local, Match(etag));
    match r
    case Err => (s, Err)
    case Ok(Conflict) => (s, Ok(None))
    case Ok(Uploaded(stored)) => (Relist(plan, s).0, Ok(Some(OrEmpty(stored))))
  }

  /** The ETag to record, if the refusal was no conflict with anybody. */
  function Settle(plan: Plan, w: World, job: Job): (World, Result<Option<Etag>>) {
    var (seen, meta) := RemoteMeta(plan, w, job.path);
    match meta
    case Err => (seen, Err)
    case Ok(None) => (seen, Ok(None))
    case Ok(Some(there)) =>
      if there.size == |job.local| then
        var (compared, same) := SameBytes(plan, seen, job.path, job.local);
        match same
        case Err => (compared, Err)
        case Ok(true) => (Relist(plan, compared).0, Ok(Some(there.etag)))
        case Ok(false) =>
          if job.creating && there.size == 0 then ReplaceEmpty(plan, compared, job, there.etag)
              else (compared, Ok(None))
      else if job.creating && there.size == 0 then ReplaceEmpty(plan, seen, job, there.etag)
      else (seen, Ok(None))
  }

  // --- Merging --------------------------------------------------------------------

  /** The merged bytes and the version they were merged against. */
  function TextMerge(plan: Plan, w: World, job: Job): (World, Result<Option<(Bytes, Precondition)>>) {
    if job.baseEtag == "" || job.base.None? then (w, Ok(None))
    else
      var (s, r) := Get(plan, w, job.path);
      if r.Err? then (s, Err)
      else
        var (theirs, etag) := r.value;
        match job.merge(job.base.value, job.local, theirs)
        case None => (s, Ok(None))
        case Some(merged) => (s, Ok(Some((merged, ForUpload(OrEmpty(etag), true)))))
  }

  /** `Ok(None)` falls through to a copy. */
  function MergeAndUpload(plan: Plan, w: World, job: Job): (World, Result<Option<Etag>>) {
    if !job.textMerge then (w, Ok(None))
    else
      var (s, r) := TextMerge(plan, w, job);
      match r
      case Err => (s, Err)
      case Ok(None) => (s, Ok(None))
      case Ok(Some((merged, pre))) =>
        var (u, put) := PutConditional(plan, s, job.path, merged, pre);
        (u, match put
            case Err => Err
            case Ok(Conflict) => Ok(None)
            case Ok(Uploaded(stored)) => Ok(Some(OrEmpty(stored))))
  }

  // --- Parking a copy -------------------------------------------------------------

  function CopyName(job: Job, attempt: nat): string {
    CopyPath(job.path, job.clock(attempt), attempt)
  }

  /** The copy attempts from `attempt` on. */
  function Park(plan: Plan, w: World, job: Job, attempt: nat): (World, Result<How>)
    decreases MAX_COPY_ATTEMPTS - attempt
  {
    var copy := CopyName(job, attempt);
    var (s, r) := Upload(plan, w, copy, job.local, MustNotExist);
    match r
    case Err => (s, Err)
    case Ok(Uploaded(_)) =>
      var (t, relisted) := Relist(plan, s);
      (t, if relisted.Err? then Err else Ok(Copied(copy)))
    case Ok(Conflict) =>
      if attempt + 1 < MAX_COPY_ATTEMPTS then Park(plan, s, job, attempt + 1) else (s, Err)
  }

  function Resolve(plan: Plan, w: World, job: Job): (World, Result<How>) {
    var (settled, done) := Settle(plan, w, job);
    match done
    case Err => (settled, Err)
    case Ok(Some(etag)) => (settled, Ok(Settled(etag)))
    case Ok(None) =>
      var (merged, kept) := MergeAndUpload(plan, settled, job);
      match kept
      case Err => (merged, Err)
      case Ok(Some(etag)) => (merged, Ok(Merged(etag)))
      case Ok(None) => Park(plan, merged, job, 0)
  }
}

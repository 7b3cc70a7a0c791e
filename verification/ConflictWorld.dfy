/** The server as a client meets it: other clients write between any two
    requests, a request may be lost on its way, and so may its answer. */
module ConflictWorld {
  import opened Common

  type Etag = string
  type Bytes = seq<byte>

  /** Files above this size are uploaded in chunks. */
  const CHUNK_SIZE: nat := 4 * 1024 * 1024

  datatype Version = Version(etag: Etag, bytes: Bytes)

  type Files = map<string, Version>

  /** A write of ours, with the version it replaced. */
  datatype Write = Write(path: string, before: Option<Version>, after: Version)

  /** What surrounds one request: what other clients change before it is served,
      whether it arrives, whether its answer does, whether the answer names an
      ETag, and the ETag the server gives to what it stores. */
  datatype Moment = Moment(changes: map<string, Option<Version>>, arrives: bool, answered: bool, told: bool, etag: Etag)

  /** One moment per request, in order. */
  type Plan = nat -> Moment

  datatype World = World(files: Files, step: nat, log: seq<Write>, past: seq<Files>)

  /** RFC 9110, sections 13.1.1 and 13.1.2. */
  datatype Precondition = MustNotExist | Match(etag: Etag) | Unconditional

  datatype PutResult = Uploaded(etag: Option<Etag>) | Conflict

  datatype Meta = Meta(size: nat, etag: Etag)

  function ForUpload(baseEtag: Etag, existsRemotely: bool): Precondition {
    if baseEtag != "" then Match(baseEtag)
    else if existsRemotely then Unconditional
    else MustNotExist
  }

  predicate Holds(pre: Precondition, at: Option<Version>) {
    match pre
    case MustNotExist => at.None?
    case Match(etag) => at.Some? && at.value.etag == etag
    case Unconditional => true
  }

  function Changed(files: Files, changes: map<string, Option<Version>>): Files {
    map p | p in files.Keys + changes.Keys && (p in changes ==> changes[p].Some?)
      :: if p in changes then changes[p].value else files[p]
  }

  /** The next request reaches the server, or would have. */
  function Serve(plan: Plan, w: World): World {
    var files := Changed(w.files, plan(w.step).changes);
    World(files, w.step + 1, w.log, w.past + [files])
  }

  function Store(w: World, path: string, v: Version): World {
    World(w.files[path := v], w.step, w.log + [Write(path, Lookup(w.files, path), v)], w.past + [w.files[path := v]])
  }

  predicate Heard(m: Moment) {
    m.arrives && m.answered
  }

  function Told(m: Moment, etag: Etag): Option<Etag> {
    if m.told then Some(etag) else None
  }

  /** A Depth-0 PROPFIND; a version without an ETag property reads as "". */
  function RemoteMeta(plan: Plan, w: World, path: string): (World, Result<Option<Meta>>) {
    var m, s := plan(w.step), Serve(plan, w);
    (s, if !Heard(m) then Err
        else if path !in s.files then Ok(None)
        else Ok(Some(Meta(|s.files[path].bytes|, if m.told then s.files[path].etag else ""))))
  }

  /** The ETag alone, an empty one counting as none. */
  function EtagOf(plan: Plan, w: World, path: string): (World, Result<Option<Etag>>) {
    var (s, r) := RemoteMeta(plan, w, path);
    (s, match r
        case Err => Err
        case Ok(None) => Ok(None)
        case Ok(Some(meta)) => Ok(if meta.etag == "" then None else Some(meta.etag)))
  }

  function Get(plan: Plan, w: World, path: string): (World, Result<(Bytes, Option<Etag>)>) {
    var m, s := plan(w.step), Serve(plan, w);
    (s, if !Heard(m) || path !in s.files then Err
        else Ok((s.files[path].bytes, Told(m, s.files[path].etag))))
  }

  function PutConditional(plan: Plan, w: World, path: string, bytes: Bytes,
                          pre: Precondition): (World, Result<PutResult>) {
    var m, s := plan(w.step), Serve(plan, w);
    if !m.arrives then (s, Err)
    else if !Holds(pre, Lookup(s.files, path)) then (s, if m.answered then Ok(Conflict) else Err)
    else (Store(s, path, Version(m.etag, bytes)), if m.answered then Ok(Uploaded(Told(m, m.etag))) else Err)
  }

  /** The check a chunked upload makes beforehand, as a request of its own. */
  function Preflight(plan: Plan, w: World, path: string, pre: Precondition): (World, Result<bool>) {
    match pre
    case Unconditional => (w, Ok(true))
    case MustNotExist =>
      var (s, r) := EtagOf(plan, w, path);
      (s, if r.Err? then Err else Ok(r.value.None?))
    case Match(etag) =>
      var (s, r) := EtagOf(plan, w, path);
      (s, if r.Err? then Err else Ok(r.value.None? || r.value == Some(etag)))
  }

  /** The MOVE that assembles the chunks at their target, whatever is there. An
      answer that was lost is made up for by looking whether a file of the right
      size is at the target. */
  function Assemble(plan: Plan, w: World, path: string, bytes: Bytes): (World, Result<PutResult>) {
    var m, s := plan(w.step), Serve(plan, w);
    var moved := if m.arrives then Store(s, path, Version(m.etag, bytes)) else s;
    if Heard(m) then
      var (t, etag) := EtagOf(plan, moved, path);
      (t, Ok(Uploaded(if etag.Ok? then etag.value else None)))
    else
      var (t, meta) := RemoteMeta(plan, moved, path);
      (t, match meta
          case Ok(Some(seen)) => if seen.size == |bytes|
              then Ok(Uploaded(if seen.etag == "" then None else Some(seen.etag))) else Err
          case _ => Err)
  }

  /** A chunked upload: the check, the chunks, the MOVE. Sending the chunks is
      one request here; none of it touches the target. */
  function PutChunked(plan: Plan, w: World, path: string, bytes: Bytes, pre: Precondition): (World, Result<PutResult>) {
    var (checked, free) := Preflight(plan, w, path, pre);
    match free
    case Err => (checked, Err)
    case Ok(false) => (checked, Ok(Conflict))
    case Ok(true) =>
      var staged := Serve(plan, checked);
      if !Heard(plan(checked.step)) then (staged, Err) else Assemble(plan, staged, path, bytes)
  }

  /** Whichever way a buffer of this size is uploaded. */
  function Upload(plan: Plan, w: World, path: string, bytes: Bytes, pre: Precondition): (World, Result<PutResult>) {
    if |bytes| > CHUNK_SIZE then PutChunked(plan, w, path, bytes, pre) else PutConditional(plan, w, path, bytes, pre)
  }

  /** ETags name versions: no two of a path's versions share one, and none is
      empty. */
  ghost predicate Lawful(past: seq<Files>) {
    && (forall i, p :: 0 <= i < |past| && p in past[i] ==> past[i][p].etag != "")
    && (forall i, j, p ::
          0 <= i < |past| && 0 <= j < |past| && p in past[i] && p in past[j] && past[i][p].etag == past[j][p].etag ==>
            past[i][p] == past[j][p])
  }

  /** The later world continues the earlier one. */
  predicate Continues(w: World, s: World) {
    w.log <= s.log && w.past <= s.past && w.step <= s.step
  }

  /** One write was guarded: its precondition held of what it replaced. */
  predicate Guarded(write: Write, path: string, bytes: Bytes, pre: Precondition) {
    write.path == path && write.after.bytes == bytes && Holds(pre, write.before)
  }
}

/** The conflict resolution of `provider.rs` as it runs, against what
    `ConflictSpec` says becomes of it. */
module ConflictEngine {
  import opened Common
  import opened ConflictWorld
  import opened ConflictSpec

  function Flat(chunks: seq<Bytes>): Bytes {
    if chunks == [] then [] else chunks[0] + Flat(chunks[1..])
  }

  lemma {:induction false} FlatAppends(chunks: seq<Bytes>, chunk: Bytes)
    ensures Flat(chunks + [chunk]) == Flat(chunks) + chunk
  {
    if chunks == [] {
      assert [chunk][1..] == [];
    } else {
      assert (chunks + [chunk])[1..] == chunks[1..] + [chunk];
      FlatAppends(chunks[1..], chunk);
    }
  }

  lemma {:induction false} FlatSplits(chunks: seq<Bytes>, i: nat)
    requires i <= |chunks|
    ensures Flat(chunks) == Flat(chunks[..i]) + Flat(chunks[i..])
  {
    if i > 0 {
      FlatSplits(chunks[1..], i - 1);
      assert chunks[1..][..i - 1] == chunks[..i][1..];
      assert chunks[1..][i - 1..] == chunks[i..];
    } else {
      assert chunks[0..] == chunks;
    }
  }

  /** The comparison of a streamed reply with the local file: both are read
      together, and must end together. Decides equality however the reply is
      cut into chunks. */
  method SameStream(chunks: seq<Bytes>, local: Bytes) returns (same: bool)
    ensures same <==> Flat(chunks) == local
  {
    var i, read := 0, 0;
    same := true;
    while i < |chunks| && same
      invariant i <= |chunks| && read <= |local|
      invariant same ==> Flat(chunks[..i]) == local[..read]
      invariant !same ==> !(Flat(chunks) <= local)
    {
      var theirs := chunks[i];
      FlatSplits(chunks, i + 1);
      assert chunks[..i + 1] == chunks[..i] + [theirs];
      FlatAppends(chunks[..i], theirs);
      if read + |theirs| > |local| || local[read..read + |theirs|] != theirs {
        NotAPrefix(local, read, theirs, Flat(chunks[i + 1..]));
        assert Flat(chunks) == local[..read] + theirs + Flat(chunks[i + 1..]);
        same := false;
      } else {
        read := read + |theirs|;
        assert local[..read] == local[..read - |theirs|] + theirs;
      }
      i := i + 1;
    }
    if same {
      assert chunks[..|chunks|] == chunks;
      same := read == |local|;
      assert local[..read] == Flat(chunks);
    }
  }

  lemma NotAPrefix(local: Bytes, read: nat, theirs: Bytes, rest: Bytes)
    requires read <= |local|
    requires read + |theirs| > |local| || local[read..read + |theirs|] != theirs
    ensures !(local[..read] + theirs + rest <= local)
  {
    if local[..read] + theirs + rest <= local {
      PrefixHasIt(local, read, theirs, rest);
    }
  }

  lemma PrefixHasIt(local: Bytes, read: nat, theirs: Bytes, rest: Bytes)
    requires read <= |local| && local[..read] + theirs + rest <= local
    ensures read + |theirs| <= |local| && local[read..read + |theirs|] == theirs
  {
    assert (local[..read] + theirs + rest)[read..read + |theirs|] == theirs;
  }

  class WriteContext {
    const plan: Plan
    /** The server, as this client's requests find it. */
    var world: World

    constructor (plan: Plan, world: World)
      ensures this.plan == plan && this.world == world
    {
      this.plan, this.world := plan, world;
    }

    /** However the server cuts its reply. */
    method Streamed(bytes: Bytes) returns (chunks: seq<Bytes>)
      ensures Flat(chunks) == bytes
    {
      chunks := [];
      var sent := 0;
      while sent < |bytes|
        invariant sent <= |bytes| && Flat(chunks) == bytes[..sent]
      {
        var n: nat := *;
        n := if 0 < n && sent + n <= |bytes| then n else |bytes| - sent;
        FlatAppends(chunks, bytes[sent..sent + n]);
        chunks, sent := chunks + [bytes[sent..sent + n]], sent + n;
        assert bytes[..sent] == bytes[..sent - n] + bytes[sent - n..sent];
      }
    }

    method SameBytes(path: string, local: Bytes) returns (r: Result<bool>)
      modifies this
      ensures (world, r) == ConflictSpec.SameBytes(plan, old(world), path, local)
    {
      var (s, got) := Get(plan, world, path);
      world := s;
      if got.Err? {
        return Err;
      }
      var chunks := Streamed(got.value.0);
      var same := SameStream(chunks, local);
      r := Ok(same);
    }

    method SettleFalseConflict(job: Job) returns (r: Result<Option<Etag>>)
      modifies this
      ensures (world, r) == Settle(plan, old(world), job)
    {
      var (seen, meta) := RemoteMeta(plan, world, job.path);
      world := seen;
      if meta.Err? {
        return Err;
      }
      if meta.value.None? {
        return Ok(None);
      }
      var there := meta.value.value;
      if there.size == |job.local| {
        var same := SameBytes(job.path, job.local);
        if same.Err? {
          return Err;
        }
        if same.value {
          world := Relist(plan, world).0;
          return Ok(Some(there.etag));
        }
      }
      if !job.creating || there.size != 0 {
        return Ok(None);
      }
      var (stored, put) := Upload(plan, world, job.path, job.local, Match(there.etag));
      world := stored;
      match put
      case Err => r := Err;
      case Ok(Conflict) => r := Ok(None);
      case Ok(Uploaded(etag)) =>
        world := Relist(plan, world).0;
        r := Ok(Some(OrEmpty(etag)));
    }

    method RunTextMerge(job: Job) returns (r: Result<Option<(Bytes, Precondition)>>)
      modifies this
      ensures (world, r) == TextMerge(plan, old(world), job)
    {
      if job.baseEtag == "" || job.base.None? {
        return Ok(None);
      }
      var (s, got) := Get(plan, world, job.path);
      world := s;
      if got.Err? {
        return Err;
      }
      var merged := job.merge(job.base.value, job.local, got.value.0);
      r := if merged.Some? then Ok(Some((merged.value, ForUpload(OrEmpty(got.value.1), true)))) else Ok(None);
    }

    /** Settle, merge, or park a copy, in this order. */
    method RunConflictResolution(job: Job) returns (r: Result<How>)
      modifies this
      ensures (world, r) == Resolve(plan, old(world), job)
    {
      hide ConflictSpec.Settle, ConflictSpec.TextMerge, Upload, CopyName;
      var settled := SettleFalseConflict(job);
      if settled.Err? {
        return Err;
      }
      if settled.value.Some? {
        return Ok(Settled(settled.value.value));
      }
      if job.textMerge {
        var merge := RunTextMerge(job);
        if merge.Err? {
          return Err;
        }
        if merge.value.Some? {
          var (merged, pre) := merge.value.value;
          var (s, put) := PutConditional(plan, world, job.path, merged, pre);
          world := s;
          if put.Err? {
            return Err;
          }
          if put.value.Uploaded? {
            return Ok(Merged(OrEmpty(put.value.etag)));
          }
        }
      }
      ghost var start := world;
      var copy, attempt, parked := CopyName(job, 0), 0, false;
      while !parked
        invariant attempt < MAX_COPY_ATTEMPTS && copy == CopyName(job, attempt)
        invariant !parked ==> Park(plan, start, job, 0) == Park(plan, world, job, attempt)
        invariant parked ==>
                    Park(plan, start, job, 0) ==
                    (Relist(plan, world).0, if Relist(plan, world).1.Err? then Err else Ok(Copied(copy)))
        decreases !parked, MAX_COPY_ATTEMPTS - attempt
      {
        var (s, put) := Upload(plan, world, copy, job.local, MustNotExist);
        world := s;
        if put.Err? {
          return Err;
        }
        if put.value.Uploaded? {
          parked := true;
        } else if attempt + 1 < MAX_COPY_ATTEMPTS {
          attempt := attempt + 1;
          copy := CopyName(job, attempt);
        } else {
          return Err;
        }
      }
      var (s, relisted) := Relist(plan, world);
      world := s;
      r := if relisted.Err? then Err else Ok(Copied(copy));
    }
  }
}

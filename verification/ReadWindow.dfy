/** One file's sequential-read state (`ReadWindow` in `content.rs`), and how many
    requests a sequential pass over a file costs. A window is owned by one reader
    at a time, so it is a value here. */
module ReadWindow {
  import opened Common

  type Etag = string
  type Bytes = seq<byte>

  const FETCH_CHUNK: nat := 8 * 1024 * 1024
  const READAHEAD_AFTER: nat := 256 * 1024

  /** A spill by the number in its name, and how much of the file it holds. */
  datatype Part = Part(number: nat, written: nat)

  datatype Window = Window(etag: Etag, next: nat, run: nat, bufStart: nat, buf: Bytes, part: Option<Part>, lastUse: nat)

  /** What a plain read of `len` bytes at `offset` returns in full. */
  function Range(whole: Bytes, offset: nat, len: nat): Bytes {
    if offset < |whole| then whole[offset..Min(offset + len, |whole|)] else []
  }

  function Start(etag: Etag, offset: nat, number: nat, now: nat): Window {
    Window(etag, offset, 0, 0, [], if offset == 0 then Some(Part(number, 0)) else None, now)
  }

  function Buffered(w: Window, offset: nat, len: nat): Option<Bytes> {
    if w.buf == [] || offset < w.bufStart || offset >= w.bufStart + |w.buf| then None
    else Some(w.buf[offset - w.bufStart..Min(offset - w.bufStart + len, |w.buf|)])
  }

  predicate Escalated(w: Window) {
    w.run >= READAHEAD_AFTER
  }

  /** How much a read that misses the buffer asks of the source. */
  function Want(w: Window, size: nat, offset: nat, len: nat): nat
    requires offset <= size
  {
    if Escalated(w) then Min(FETCH_CHUNK, size - offset) else len
  }

  function Filled(w: Window, offset: nat, bytes: Bytes): Window {
    w.(bufStart := offset, buf := bytes)
  }

  /** A served slice extends the run, and the spill if the disk took it. */
  function Advanced(w: Window, out: Bytes, written: bool, now: nat): Window {
    if out == [] then w.(lastUse := now)
    else
      w.(next := w.next + |out|, run := w.run + |out|, lastUse := now,
         part := if w.part.None? || !written then None
             else Some(w.part.value.(written := w.part.value.written + |out|)))
  }

  predicate Complete(w: Window, size: nat) {
    w.part.Some? && w.part.value.written == size
  }

  // --- What a window holds --------------------------------------------------------

  /** Buffer and spill are exact pieces of the version the run is based on. */
  ghost predicate Exact(w: Window, whole: Bytes) {
    && w.run <= w.next <= |whole|
    && w.bufStart + |w.buf| <= |whole|
    && w.buf == whole[w.bufStart..w.bufStart + |w.buf|]
    && |w.buf| <= FETCH_CHUNK
    && (w.part.Some? ==> w.part.value.written == w.next == w.run)
  }

  /** A fresh window is exact; its run begins here, and only a run from the first
      byte gets a spill. */
  lemma StartIsExact(etag: Etag, offset: nat, number: nat, now: nat, whole: Bytes)
    requires offset <= |whole|
    ensures Exact(Start(etag, offset, number, now), whole)
    ensures var w := Start(etag, offset, number, now);
            w.next == offset && RunBegan(w) == offset && (w.part.Some? <==> offset == 0) && w.buf == []
  {
  }

  /** The buffer answers exactly from a position it covers, and then with the range
      itself, up to where the buffer ends. */
  lemma BufferedIsExact(w: Window, whole: Bytes, offset: nat, len: nat)
    requires Exact(w, whole)
    ensures Buffered(w, offset, len).Some? <==> w.bufStart <= offset < w.bufStart + |w.buf|
    ensures Buffered(w, offset, len).Some? ==>
              Buffered(w, offset, len).value == Range(whole, offset, Min(len, w.bufStart + |w.buf| - offset))
  {
    if Buffered(w, offset, len).Some? {
      var i := offset - w.bufStart;
      SliceOfASlice(whole, w.bufStart, |w.buf|, i, Min(i + len, |w.buf|));
      assert Buffered(w, offset, len).value == whole[offset..w.bufStart + Min(i + len, |w.buf|)];
    }
  }

  lemma SliceOfASlice(s: Bytes, from: nat, n: nat, i: nat, j: nat)
    requires from + n <= |s| && i <= j <= n
    ensures s[from..from + n][i..j] == s[from + i..from + j]
  {
    var a, b := s[from..from + n][i..j], s[from + i..from + j];
    forall k | 0 <= k < j - i ensures a[k] == b[k] {
      assert a[k] == s[from..from + n][i + k];
    }
  }

  /** So it is a part of what was asked for, and not empty. */
  lemma BufferedIsAPart(w: Window, whole: Bytes, offset: nat, len: nat)
    requires Exact(w, whole) && Buffered(w, offset, len).Some?
    ensures Buffered(w, offset, len).value <= Range(whole, offset, len)
    ensures len > 0 ==> Buffered(w, offset, len).value != []
  {
    BufferedIsExact(w, whole, offset, len);
  }

  /** A fetched chunk makes an exact buffer. */
  lemma FilledIsExact(w: Window, whole: Bytes, offset: nat, bytes: Bytes)
    requires Exact(w, whole) && offset <= |whole|
    requires bytes <= Range(whole, offset, Min(FETCH_CHUNK, |whole| - offset))
    ensures Exact(Filled(w, offset, bytes), whole)
  {
    assert offset < |whole| ==> bytes == whole[offset..offset + |bytes|];
  }

  /** Where the run that a window continues began. */
  function RunBegan(w: Window): int {
    w.next - w.run
  }

  /** Serving the next slice of the run keeps the window exact, and lengthens the run
      by what was served. */
  lemma AdvancedIsExact(w: Window, whole: Bytes, out: Bytes, len: nat, written: bool, now: nat)
    requires Exact(w, whole) && out <= Range(whole, w.next, len)
    ensures Exact(Advanced(w, out, written, now), whole)
    ensures whole[..w.next] + out == whole[..w.next + |out|]
    ensures var n := Advanced(w, out, written, now);
            && n.next == w.next + |out| && RunBegan(n) == RunBegan(w)
            && n.etag == w.etag && n.buf == w.buf && n.bufStart == w.bufStart && n.lastUse == now
            && (out != [] ==> (n.part.Some? <==> w.part.Some? && written))
  {
    assert out != [] ==> out == whole[w.next..w.next + |out|];
  }

  // --- Requests of a sequential pass ----------------------------------------------

  function CeilDiv(a: int, b: nat): nat
    requires b > 0
    decreases if a > 0 then a else 0
  {
    if a <= 0 then 0 else 1 + CeilDiv(a - b, b)
  }

  lemma {:induction false} CeilDivMonotone(a: int, c: int, b: nat)
    requires b > 0 && a <= c
    ensures CeilDiv(a, b) <= CeilDiv(c, b)
    decreases if c > 0 then c else 0
  {
    if a > 0 {
      CeilDivMonotone(a - b, c - b, b);
    }
  }

  /** One read of a pass, from a source that answers in full. */
  function ReadOnce(w: Window, whole: Bytes, step: nat, now: nat): (Window, Bytes)
    requires w.next <= |whole|
  {
    var held := Buffered(w, w.next, step);
    if held.Some? then (Advanced(w, held.value, true, now), held.value)
    else
      var bytes := Range(whole, w.next, Want(w, |whole|, w.next, step));
      if Escalated(w) then
        var filled := Filled(w, w.next, bytes);
        var out := Buffered(filled, w.next, step);
        (Advanced(filled, if out.Some? then out.value else [], true, now), if out.Some? then out.value else [])
      else (Advanced(w, bytes, true, now), bytes)
  }

  /** However the buffer lies, a source that answers in full gives such a read. */
  lemma ReadOnceServes(w: Window, whole: Bytes, step: nat, now: nat)
    requires Exact(w, whole) && w.next < |whole| && 0 < step < FETCH_CHUNK
    ensures ReadOnce(w, whole, step, now).1 == Range(whole, w.next, Length(w, step))
  {
    BufferedIsExact(w, whole, w.next, step);
    ChunkHasTheStep(w, whole, step);
    hide Exact, Range, Filled, Buffered, Advanced;
  }

  predicate Hits(w: Window, step: nat) {
    Buffered(w, w.next, step).Some?
  }

  /** How much a read of the pass is given: all it asks for, or what is left of the
      buffer it hits. */
  function Length(w: Window, step: nat): nat {
    if w.bufStart <= w.next < w.bufStart + |w.buf| then Min(step, w.bufStart + |w.buf| - w.next) else step
  }

  /** Where a pass stands: before escalation nothing is buffered, after it the
      buffer runs on from the last byte served. */
  ghost predicate Passing(w: Window, whole: Bytes) {
    && Exact(w, whole) && w.run == w.next
    && w.part.Some?
    && (w.buf == [] ==> w.bufStart == 0)
    && (w.buf == [] || (READAHEAD_AFTER <= w.bufStart <= w.next <= w.bufStart + |w.buf|))
    && (w.buf == [] || |w.buf| == Min(FETCH_CHUNK, |whole| - w.bufStart))
  }

  /** The bytes no request has asked for yet. */
  function Ahead(w: Window, size: nat): int {
    size - Max(w.next, w.bufStart + |w.buf|)
  }

  /** The requests still to come, at most. */
  function Bound(w: Window, size: nat, step: nat): nat
    requires step > 0
  {
    if w.next >= size then 0
    else if w.next < READAHEAD_AFTER then CeilDiv(READAHEAD_AFTER - w.next, step)
        + CeilDiv(size - READAHEAD_AFTER, FETCH_CHUNK)
    else CeilDiv(Ahead(w, size), FETCH_CHUNK)
  }

  /** Every read of a pass gets on, and a request it makes was still owed. */
  lemma ReadGetsOn(w: Window, whole: Bytes, step: nat, now: nat)
    requires Passing(w, whole) && w.next < |whole| && 0 < step < FETCH_CHUNK
    ensures var (n, out) := ReadOnce(w, whole, step, now);
            && out != [] && out == Range(whole, w.next, Length(w, step))
            && n.next == w.next + |out| <= |whole| && n.etag == w.etag && n.part.Some?
            && n.part.value.number == w.part.value.number
            && Passing(n, whole)
            && Bound(n, |whole|, step) + (if Hits(w, step) then 0 else 1) <= Bound(w, |whole|, step)
  {
    if Hits(w, step) {
      HitGetsOn(w, whole, step, now);
    } else if Escalated(w) {
      ChunkGetsOn(w, whole, step, now);
    } else {
      AdvancedIsExact(w, whole, ReadOnce(w, whole, step, now).1, step, true, now);
      LiveReadIsOwed(w, whole, step, now);
    }
  }

  lemma HitGetsOn(w: Window, whole: Bytes, step: nat, now: nat)
    requires Passing(w, whole) && w.next < |whole| && 0 < step && Hits(w, step)
    ensures var (n, out) := ReadOnce(w, whole, step, now);
            && out != [] && out == Range(whole, w.next, Length(w, step)) && n.next == w.next + |out|
            && Passing(n, whole) && Bound(n, |whole|, step) <= Bound(w, |whole|, step)
  {
    hide CeilDiv;
    var (n, out) := ReadOnce(w, whole, step, now);
    BufferedIsExact(w, whole, w.next, step);
    BufferedIsAPart(w, whole, w.next, step);
    AdvancedIsExact(w, whole, out, step, true, now);
    assert Ahead(n, |whole|) == Ahead(w, |whole|);
  }

  /** A chunk that is fetched has the whole step in it, or all that is left. */
  lemma ChunkHasTheStep(w: Window, whole: Bytes, step: nat)
    requires Exact(w, whole) && w.next < |whole| && 0 < step < FETCH_CHUNK
    ensures var bytes := Range(whole, w.next, Min(FETCH_CHUNK, |whole| - w.next));
            var filled := Filled(w, w.next, bytes);
            && |bytes| == Min(FETCH_CHUNK, |whole| - w.next) && Exact(filled, whole)
            && Buffered(filled, w.next, step) == Some(Range(whole, w.next, step))
  {
    var bytes := Range(whole, w.next, Min(FETCH_CHUNK, |whole| - w.next));
    FilledIsExact(w, whole, w.next, bytes);
    BufferedIsExact(Filled(w, w.next, bytes), whole, w.next, step);
  }

  lemma ChunkGetsOn(w: Window, whole: Bytes, step: nat, now: nat)
    requires Passing(w, whole) && w.next < |whole| && 0 < step < FETCH_CHUNK && !Hits(w, step) && Escalated(w)
    ensures var (n, out) := ReadOnce(w, whole, step, now);
            && out != [] && out == Range(whole, w.next, Length(w, step)) && n.next == w.next + |out|
            && Passing(n, whole) && Bound(n, |whole|, step) + 1 <= Bound(w, |whole|, step)
  {
    BufferedIsExact(w, whole, w.next, step);
    assert w.bufStart + |w.buf| <= w.next;
    var filled := Filled(w, w.next, Range(whole, w.next, Min(FETCH_CHUNK, |whole| - w.next)));
    ChunkHasTheStep(w, whole, step);
    hide CeilDiv, Buffered;
    var (n, out) := ReadOnce(w, whole, step, now);
    assert out == Range(whole, w.next, step) && n == Advanced(filled, out, true, now);
    hide ReadOnce;
    AdvancedIsExact(filled, whole, out, step, true, now);
    hide Exact, Range;
    ChunkIsOwed(w, n, |whole|, step);
  }

  lemma ChunkIsOwed(w: Window, n: Window, size: nat, step: nat)
    requires READAHEAD_AFTER <= w.next < size && 0 < step
    requires w.bufStart + |w.buf| <= w.next <= n.next <= n.bufStart + |n.buf|
    requires n.bufStart == w.next && |n.buf| == Min(FETCH_CHUNK, size - w.next)
    ensures Bound(n, size, step) + 1 <= Bound(w, size, step)
  {
    assert Ahead(w, size) == size - w.next;
    assert Ahead(n, size) <= Max(0, Ahead(w, size) - FETCH_CHUNK);
    CeilDivMonotone(Ahead(n, size), Max(0, Ahead(w, size) - FETCH_CHUNK), FETCH_CHUNK);
  }

  lemma LiveReadIsOwed(w: Window, whole: Bytes, step: nat, now: nat)
    requires Passing(w, whole) && w.next < |whole| && 0 < step && !Hits(w, step) && !Escalated(w)
    ensures Bound(ReadOnce(w, whole, step, now).0, |whole|, step) + 1 <= Bound(w, |whole|, step)
  {
    var n := ReadOnce(w, whole, step, now).0;
    if n.next < |whole| {
      assert n.next == w.next + step && n.buf == [];
      if n.next >= READAHEAD_AFTER {
        CeilDivMonotone(|whole| - Max(n.next, n.bufStart), |whole| - READAHEAD_AFTER, FETCH_CHUNK);
      }
    }
  }
}

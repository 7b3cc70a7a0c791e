/** `CachingSource::read` and what it does to windows, spills and blobs. */
module ReadSource {
  import opened Common
  import opened ReadWindow
  import opened ReadCache

  lemma SlotsAt(windows: map<nat, Window>, taken: map<nat, Taken>, k: Slot)
    ensures Lookup(AllSlots(windows, taken), k) ==
            match k
            case Kept(f) => if f in windows then Some(Taken(f, windows[f])) else None
            case Held(r) => Lookup(taken, r)
  {
  }

  ghost predicate SameSlots(a: Slots, b: Slots) {
    forall k :: Lookup(a, k) == Lookup(b, k)
  }

  lemma SameSlotsAreEqual(a: Slots, b: Slots)
    requires SameSlots(a, b)
    ensures a == b
  {
    forall k ensures k in a <==> k in b {
      assert Lookup(a, k) == Lookup(b, k);
    }
    forall k | k in a ensures a[k] == b[k] {
      assert Lookup(a, k) == Lookup(b, k);
    }
  }

  lemma WindowsChange(windows: map<nat, Window>, taken: map<nat, Taken>, f: nat, w: Window)
    ensures AllSlots(windows[f := w], taken) == AllSlots(windows, taken)[Kept(f) := Taken(f, w)]
    ensures AllSlots(windows - {f}, taken) == AllSlots(windows, taken) - {Kept(f)}
  {
    forall k
      ensures Lookup(AllSlots(windows[f := w], taken), k) == Lookup(AllSlots(windows, taken)[Kept(f) := Taken(f, w)], k)
                     && Lookup(AllSlots(windows - {f}, taken), k) == Lookup(AllSlots(windows, taken) - {Kept(f)}, k) {
      SlotsAt(windows[f := w], taken, k);
      SlotsAt(windows - {f}, taken, k);
      SlotsAt(windows, taken, k);
    }
    SameSlotsAreEqual(AllSlots(windows[f := w], taken), AllSlots(windows, taken)[Kept(f) := Taken(f, w)]);
    SameSlotsAreEqual(AllSlots(windows - {f}, taken), AllSlots(windows, taken) - {Kept(f)});
  }

  lemma TakenChange(windows: map<nat, Window>, taken: map<nat, Taken>, r: nat, t: Taken)
    ensures AllSlots(windows, taken[r := t]) == AllSlots(windows, taken)[Held(r) := t]
    ensures AllSlots(windows, taken - {r}) == AllSlots(windows, taken) - {Held(r)}
  {
    forall k ensures Lookup(AllSlots(windows, taken[r := t]), k) == Lookup(AllSlots(windows, taken)[Held(r) := t], k)
                     && Lookup(AllSlots(windows, taken - {r}), k) == Lookup(AllSlots(windows, taken) - {Held(r)}, k) {
      SlotsAt(windows, taken[r := t], k);
      SlotsAt(windows, taken - {r}, k);
      SlotsAt(windows, taken, k);
    }
    SameSlotsAreEqual(AllSlots(windows, taken[r := t]), AllSlots(windows, taken)[Held(r) := t]);
    SameSlotsAreEqual(AllSlots(windows, taken - {r}), AllSlots(windows, taken) - {Held(r)});
  }

  ghost predicate IsOldest(windows: map<nat, Window>, f: nat) {
    f in windows && forall g :: g in windows ==> windows[f].lastUse <= windows[g].lastUse
  }

  /** The windows with one victim less, if there is one. */
  function Without(windows: map<nat, Window>, victim: Option<nat>): map<nat, Window> {
    if victim.Some? then windows - {victim.value} else windows
  }

  /** A window went back into the map: at the cap the least recently used one went
      first, and then buffers until they fit. */
  ghost predicate KeptBeside(before: map<nat, Window>, victim: Option<nat>, file: nat, w: Window,
                             after: map<nat, Window>) {
    && (victim.Some? <==> |before| >= MAX_WINDOWS)
    && (victim.Some? ==> IsOldest(before, victim.value))
    && TrimmedFairly(Without(before, victim)[file := w], after)
  }

  /** The spills after a served slice was appended, or could not be. */
  function SpillAfter(spills: map<Spill, Bytes>, file: nat, w: Window, out: Bytes, written: bool): map<Spill, Bytes>
    requires w.part.Some? && w.part.value.written > 0 ==> Spill(file, w.part.value.number) in spills
  {
    if out == [] || w.part.None? then spills
    else
      var s := Spill(file, w.part.value.number);
      if !written then spills - {s}
      else spills[s := if w.part.value.written == 0 then out else spills[s] + out]
  }

  lemma SoundAt(content: Contents, slots: Slots, spills: map<Spill, Bytes>, next: nat, k: Slot)
    requires Consistent(content, slots, spills, next) && k in slots
    ensures Sound(content, spills, next, slots[k])
  {
  }

  lemma AdvanceIsSound(content: Contents, spills: map<Spill, Bytes>, next: nat, t: Taken, w: Window, out: Bytes,
                       len: nat, written: bool, now: nat)
    requires Sound(content, spills, next, t)
    requires w.etag == t.window.etag && w.next == t.window.next && w.part == t.window.part
    requires Exact(w, content(t.file, w.etag)) && out <= Range(content(t.file, w.etag), w.next, len)
    ensures w.part.Some? && w.part.value.written > 0 ==> Spill(t.file, w.part.value.number) in spills
    ensures var left, n := SpillAfter(spills, t.file, w, out, written), Taken(t.file, Advanced(w, out, written, now));
            && Sound(content, left, next, n)
            && PartOf(n) <= PartOf(t)
            && left - PartOf(t) == spills - PartOf(t)
            && left.Keys * PartOf(t) <= PartOf(n)
            && left.Keys <= spills.Keys + PartOf(t)
  {
    var whole := content(t.file, w.etag);
    AdvancedIsExact(w, whole, out, len, written, now);
    assert w.part.Some? ==> w.part.value.written == w.next;
    assert |whole[..w.next]| == w.next;
    hide Exact, Range;
    var left := SpillAfter(spills, t.file, w, out, written);
    if out != [] && w.part.Some? {
      var s := Spill(t.file, w.part.value.number);
      assert left - {s} == spills - {s};
      if written {
        assert left[s] == whole[..w.next] + out;
      }
    }
  }

  // --- A run below which the server moves on --------------------------------------

  /** A slice of a run: the version the server had when it was asked for, the bytes
      served, whether the disk took them, and when. */
  datatype Served = Served(version: Bytes, out: Bytes, written: bool, now: nat)

  /** Window and spills after a run that began at byte 0. */
  function AfterRun(file: nat, w: Window, spills: map<Spill, Bytes>, run: seq<Served>): (r: (Window, map<Spill, Bytes>))
    requires w.part.Some? ==> w.part.value.written == 0
    ensures r.0.part.Some? && r.0.part.value.written > 0 ==> Spill(file, r.0.part.value.number) in r.1
    decreases |run|
  {
    if run == [] then (w, spills)
    else
      var last := run[|run| - 1];
      var (v, before) := AfterRun(file, w, spills, run[..|run| - 1]);
      (Advanced(v, last.out, last.written, last.now), SpillAfter(before, file, v, last.out, last.written))
  }

  /** Everything a run served, in order. */
  function Stream(run: seq<Served>): Bytes {
    if run == [] then [] else Stream(run[..|run| - 1]) + run[|run| - 1].out
  }

  /** Where the `i`-th slice begins. */
  function Position(run: seq<Served>, i: nat): nat
    requires i <= |run|
  {
    |Stream(run[..i])|
  }

  /** The slice is what this version has in its place. */
  predicate AgreesWith(run: seq<Served>, i: nat, version: Bytes)
    requires i < |run|
  {
    var p, out := Position(run, i), run[i].out;
    p + |out| <= |version| && out == version[p..p + |out|]
  }

  predicate SameRange(a: Bytes, b: Bytes, from: nat, len: nat) {
    from + len <= |a| && from + len <= |b| && a[from..from + len] == b[from..from + len]
  }

  /** The spill of a run holds what was served, nothing else. */
  lemma {:induction false} SpillIsTheStream(file: nat, etag: Etag, number: nat, now: nat, spills: map<Spill, Bytes>,
                                            run: seq<Served>)
    requires Spill(file, number) !in spills
    ensures var (w, after), s := AfterRun(file, Start(etag, 0, number, now), spills, run), Spill(file, number);
            && w.etag == etag && w.next == |Stream(run)|
            && (w.part.Some? ==> w.part.value == Part(number, |Stream(run)|) && SpillHolds(after, s, Stream(run)))
    decreases |run|
  {
    if run != [] {
      var init, out := run[..|run| - 1], run[|run| - 1].out;
      SpillIsTheStream(file, etag, number, now, spills, init);
      var (v, before) := AfterRun(file, Start(etag, 0, number, now), spills, init);
      assert Stream(run) == Stream(init) + out;
      if out == [] {
        assert Stream(run) == Stream(init);
      } else if Stream(init) == [] {
        assert Stream(run) == out;
      }
    }
  }

  lemma {:induction false} StreamIsAVersionExactly(run: seq<Served>, version: Bytes)
    requires |Stream(run)| <= |version|
    ensures Stream(run) == version[..|Stream(run)|] <==> forall i :: 0 <= i < |run| ==> AgreesWith(run, i, version)
    decreases |run|
  {
    if run != [] {
      var k := |run| - 1;
      var init := run[..k];
      StreamIsAVersionExactly(init, version);
      forall i | 0 <= i < k ensures AgreesWith(run, i, version) <==> AgreesWith(init, i, version) {
        assert run[..i] == init[..i];
      }
      var p, n := |Stream(init)|, |Stream(run)|;
      assert Position(run, k) == p;
      assert AgreesWith(run, k, version) <==> run[k].out == version[p..n];
      hide Stream, Position, AgreesWith;
      assert version[..n] == version[..p] + version[p..n];
      assert Stream(run)[..p] == Stream(init) && Stream(run)[p..] == run[k].out;
      assert version[..n][..p] == version[..p] && version[..n][p..] == version[p..n];
      assert Stream(run) == version[..n] <==> Stream(init) == version[..p] && AgreesWith(run, k, version);
    }
  }

  /** A run does not notice when the server moves on below it. Completed, its spill
      is the version the row names iff each version it was served from agrees with
      that one on the range it was asked for; it is published either way. */
  lemma SpillIsTheNamedVersionExactly(file: nat, etag: Etag, number: nat, now: nat, spills: map<Spill, Bytes>,
                                      run: seq<Served>, named: Bytes)
    requires Spill(file, number) !in spills && named != []
    requires forall i :: 0 <= i < |run| ==> AgreesWith(run, i, run[i].version)
    requires Complete(AfterRun(file, Start(etag, 0, number, now), spills, run).0, |named|)
    ensures var (w, after), s := AfterRun(file, Start(etag, 0, number, now), spills, run), Spill(file, number);
            && w.etag == etag && w.part == Some(Part(number, |named|)) && s in after
            && (after[s] == named <==>
                forall i :: 0 <= i < |run| ==> SameRange(run[i].version, named, Position(run, i), |run[i].out|))
  {
    SpillIsTheStream(file, etag, number, now, spills, run);
    StreamIsAVersionExactly(run, named);
    hide AfterRun, Stream, Position;
    assert named[..|named|] == named;
    forall i | 0 <= i < |run|
      ensures AgreesWith(run, i, named) <==> SameRange(run[i].version, named, Position(run, i), |run[i].out|)
    {
      assert AgreesWith(run, i, run[i].version);
    }
  }

  /** What a server has at one path, version by version. */
  datatype Version = Version(etag: Etag, bytes: Bytes)

  ghost predicate LawfulPath(history: seq<Version>) {
    forall i, j, k :: 0 <= i <= j <= k < |history| && history[i].etag == history[k].etag ==> history[j] == history[k]
  }

  /** The `i`-th slice is of what the server had at `asked[i]`, no earlier than the
      row's version and no later than the slices after it. */
  ghost predicate ServedFrom(history: seq<Version>, row: nat, run: seq<Served>, asked: seq<nat>) {
    && |asked| == |run|
    && forall i :: 0 <= i < |run| ==>
         row <= asked[i] <= asked[|run| - 1] < |history| && AgreesWith(run, i, history[asked[i]].bytes)
  }

  /** If the server's ETag was still the row's at the last request, a completed run
      is published as what it is. */
  lemma UnmovedServerIsSpilledExactly(file: nat, number: nat, now: nat, spills: map<Spill, Bytes>,
                                      history: seq<Version>, row: nat, run: seq<Served>, asked: seq<nat>)
    requires Spill(file, number) !in spills && LawfulPath(history) && row < |history| && history[row].bytes != []
    requires run != [] && ServedFrom(history, row, run, asked)
    requires history[asked[|run| - 1]].etag == history[row].etag
    requires Complete(AfterRun(file, Start(history[row].etag, 0, number, now), spills, run).0, |history[row].bytes|)
    ensures var (w, after), s := AfterRun(file, Start(history[row].etag, 0, number, now), spills, run),
              Spill(file, number);
            w.etag == history[row].etag && s in after && after[s] == history[row].bytes
  {
    var named := history[row];
    SpillIsTheStream(file, named.etag, number, now, spills, run);
    StreamIsAVersionExactly(run, named.bytes);
    hide AfterRun, Stream, AgreesWith;
    assert named.bytes[..|named.bytes|] == named.bytes;
    forall i | 0 <= i < |run| ensures AgreesWith(run, i, named.bytes) {
      assert history[asked[i]] == named;
    }
  }

  /** Two slices, another client writing in between: one half of each version under
      the ETag of the first. */
  lemma MovedServerIsSpilledMixed(file: nat, number: nat, now: nat)
    ensures var run := [Served([1, 1], [1], true, now), Served([2, 2], [2], true, now)];
            var (w, after) := AfterRun(file, Start("e1", 0, number, now), map[], run);
            && (forall i :: 0 <= i < |run| ==> AgreesWith(run, i, run[i].version))
            && Complete(w, 2) && w.etag == "e1" && after == map[Spill(file, number) := [1, 2]]
  {
    var run := [Served([1, 1], [1], true, now), Served([2, 2], [2], true, now)];
    var s, w0 := Spill(file, number), Start("e1", 0, number, now);
    assert run[..1] == [run[0]] && run[..0] == [] && [run[0]][..0] == [];
    assert Stream([]) == [] && Stream([run[0]]) == [] + run[0].out == [1];
    assert Position(run, 0) == 0 && Position(run, 1) == 1;
    assert AfterRun(file, w0, map[], []) == (w0, map[]);
    assert AfterRun(file, w0, map[], [run[0]]) == (Advanced(w0, [1], true, now), map[s := [1]]);
    assert [1 as byte] + [2] == [1, 2];
  }

  lemma SpillIsWhole(content: Contents, windows: map<nat, Window>, taken: map<nat, Taken>, spills: map<Spill, Bytes>,
                     next: nat, r: nat)
    requires Consistent(content, AllSlots(windows, taken), spills, next) && r in taken
    requires var t := taken[r];
             |content(t.file, t.window.etag)| > 0 && Complete(t.window, |content(t.file, t.window.etag)|)
    ensures var t := taken[r];
            var s := Spill(t.file, t.window.part.value.number);
            s in spills && spills[s] == content(t.file, t.window.etag)
  {
    var t := taken[r];
    SlotsAt(windows, taken, Held(r));
    SoundAt(content, AllSlots(windows, taken), spills, next, Held(r));
    hide Consistent, AllSlots;
    var whole := content(t.file, t.window.etag);
    assert whole[..t.window.next] == whole;
  }

  // --- The source ---------------------------------------------------------------------

  /** A range request and what came of it. */
  datatype Answer = Answer(offset: nat, want: nat, bytes: Result<Bytes>)

  /** What a read by window serves: what its buffer has from where the run stands,
      without a request, or what one request for the range wanted there came to, as
      far as the read goes. */
  ghost predicate ServedBy(w: Window, size: nat, len: nat, before: seq<Answer>, after: seq<Answer>, r: Result<Bytes>)
    requires w.next <= size
  {
    if w.bufStart <= w.next < w.bufStart + |w.buf| then
      var i := w.next - w.bufStart;
      after == before && r == Ok(w.buf[i..Min(i + len, |w.buf|)])
    else
      && |after| == |before| + 1 && before == after[..|before|]
      && var answer := after[|before|];
         && answer.offset == w.next
         && answer.want == (if w.run >= READAHEAD_AFTER then Min(FETCH_CHUNK, size - w.next) else len)
         && r == match answer.bytes
             case Err => Err
             case Ok(bytes) => Ok(bytes[..Min(len, |bytes|)])
  }

  lemma FromTheBuffer(w: Window, size: nat, len: nat, asked: seq<Answer>)
    requires w.next <= size && Buffered(w, w.next, len).Some?
    ensures ServedBy(w, size, len, asked, asked, Ok(Buffered(w, w.next, len).value))
  {
  }

  /** After a request the answer is served, past the threshold by way of the buffer. */
  lemma FromARequest(w: Window, whole: Bytes, len: nat, asked: seq<Answer>, got: Result<Bytes>)
    requires w.next <= |whole| && Buffered(w, w.next, len).None? && 0 < len
    requires got.Ok? ==> got.value <= Range(whole, w.next, Want(w, |whole|, w.next, len))
    ensures var after := asked + [Answer(w.next, Want(w, |whole|, w.next, len), got)];
            && (got.Err? ==> ServedBy(w, |whole|, len, asked, after, Err))
            && (got.Ok? && !Escalated(w) ==> ServedBy(w, |whole|, len, asked, after, got))
            && (got.Ok? && Escalated(w) ==>
                  var slice := Buffered(Filled(w, w.next, got.value), w.next, len);
                  ServedBy(w, |whole|, len, asked, after, Ok(if slice.Some? then slice.value else [])))
  {
    var after := asked + [Answer(w.next, Want(w, |whole|, w.next, len), got)];
    assert after[..|asked|] == asked;
    if got.Ok? && !Escalated(w) {
      assert |got.value| <= len;
      assert got.value[..|got.value|] == got.value;
    }
  }

  /** The window this read continues; a fresh one if there is none. */
  function Continued(windows: map<nat, Window>, file: nat, etag: Etag, offset: nat, number: nat, now: nat): Window {
    if file in windows && windows[file].etag == etag && windows[file].next == offset then windows[file]
    else Start(etag, offset, number, now)
  }

  /** How a read was answered: there was nothing to read, from the blob, by window
      (after requests of others), or by the source itself. */
  datatype Way = Nothing | Local | ByWindow(w: Window, asked: seq<Answer>) | Direct

  // --- When windows were used ---------------------------------------------------------

  /** No window was used later than now. */
  ghost predicate Dated(windows: map<nat, Window>, taken: map<nat, Taken>, now: nat) {
    && (forall f :: f in windows ==> windows[f].lastUse <= now)
    && (forall r :: r in taken ==> taken[r].window.lastUse <= now)
  }

  /** The file's window was used after every other in the map. */
  ghost predicate IsLatest(windows: map<nat, Window>, file: nat) {
    file in windows && forall g :: g in windows && g != file ==> windows[g].lastUse < windows[file].lastUse
  }

  ghost predicate NewerThanAll(windows: map<nat, Window>, w: Window) {
    forall g :: g in windows ==> windows[g].lastUse < w.lastUse
  }

  lemma FewerAreNewer(windows: map<nat, Window>, victim: Option<nat>, w: Window)
    ensures NewerThanAll(windows, w) ==> NewerThanAll(Without(windows, victim), w)
  {
  }

  /** Putting a window back and trimming buffers changes no time of use. */
  lemma KeptIsDated(room: map<nat, Window>, taken: map<nat, Taken>, reader: nat, kept: map<nat, Window>, now: nat)
    requires Dated(room, taken, now) && reader in taken
    requires TrimmedFairly(room[taken[reader].file := taken[reader].window], kept)
    ensures Dated(kept, taken - {reader}, now)
    ensures NewerThanAll(room, taken[reader].window) ==> IsLatest(kept, taken[reader].file)
  {
    var put := room[taken[reader].file := taken[reader].window];
    assert forall f :: f in kept ==> f in put && kept[f].lastUse == put[f].lastUse;
  }

  class CachingSource {
    /** What the server holds: the bytes of every version, by cache key, and by
        path for rows that have none. */
    const content: Contents
    const unkeyed: (string, Etag) -> Bytes
    /** An answer of the source is empty only if what was asked for is. */
    const generous: bool
    /** The source answers every request in full, and the disk takes it. */
    const reliable: bool

    var windows: map<nat, Window>
    var taken: map<nat, Taken>
    var nextNumber: nat
    var spills: map<Spill, Bytes>
    var blobs: map<nat, Blob>
    var clock: nat
    /** Every request and its answer. */
    ghost var answers: seq<Answer>
    /** How often a blob was gone between being found fresh and being read. */
    ghost var vanished: nat
    /** Every blob a window was published as. */
    ghost var published: seq<(nat, Blob)>

    ghost predicate Valid()
      reads this
    {
      && (reliable ==> generous)
      && Consistent(content, AllSlots(windows, taken), spills, nextNumber)
      && BlobsExact(content, blobs)
      && |windows| <= MAX_WINDOWS
      && Total(windows) <= MAX_READAHEAD_BYTES
      && Dated(windows, taken, clock)
      && forall i :: 0 <= i < |published| ==> published[i].1.bytes == content(published[i].0, published[i].1.etag)
    }

    ghost function Whole(node: Node): Bytes {
      if node.fileId.Some? then content(node.fileId.value, node.etag) else unkeyed(node.path, node.etag)
    }

    /** The row's size is that of the version it names. */
    ghost predicate Proper(node: Node) {
      node.size == |Whole(node)|
    }

    constructor (content: Contents, unkeyed: (string, Etag) -> Bytes, generous: bool, reliable: bool,
        blobs: map<nat, Blob>)
      requires BlobsExact(content, blobs) && (reliable ==> generous)
      ensures Valid() && this.content == content && this.unkeyed == unkeyed
      ensures this.generous == generous && this.reliable == reliable
      ensures windows == map[] && taken == map[] && spills == map[] && this.blobs == blobs && answers == []
                && published == []
    {
      this.content, this.unkeyed, this.generous, this.reliable := content, unkeyed, generous, reliable;
      windows, taken, spills, nextNumber, this.blobs, clock := map[], map[], map[], 0, blobs, 0;
      answers, vanished, published := [], 0, [];
    }

    /** A range request to the source. It may fail, and may answer short. */
    method Fetch(node: Node, offset: nat, want: nat) returns (r: Result<Bytes>)
      requires Proper(node)
      modifies `answers
      ensures answers == old(answers) + [Answer(offset, want, r)]
      ensures r.Ok? ==> r.value <= Range(Whole(node), offset, want)
      ensures generous && r.Ok? && Range(Whole(node), offset, want) != [] ==> r.value != []
      ensures reliable ==> r == Ok(Range(Whole(node), offset, want))
    {
      var fails: bool, short: nat := *, *;
      var full := if node.fileId.Some? then Range(content(node.fileId.value, node.etag), offset, want)
                  else Range(unkeyed(node.path, node.etag), offset, want);
      if reliable || (!fails && short >= |full|) {
        r := Ok(full);
      } else if fails || (generous && short == 0) {
        r := Err;
      } else {
        r := Ok(full[..short]);
      }
      answers := answers + [Answer(offset, want, r)];
    }

    /** A fresh window for a reader. */
    method Begin(reader: nat, file: nat, etag: Etag, offset: nat)
      requires Valid() && reader !in taken && offset <= |content(file, etag)|
      modifies `taken, `nextNumber
      ensures Valid()
      ensures taken == old(taken)[reader := Taken(file, Start(etag, offset, old(nextNumber), clock))]
    {
      hide Consistent, AllSlots, Total, BlobsExact, Exact;
      var t := Taken(file, Start(etag, offset, nextNumber, clock));
      StartIsExact(etag, offset, nextNumber, clock, content(file, etag));
      SlotsAt(windows, taken, Held(reader));
      Add(content, AllSlots(windows, taken), spills, nextNumber, Held(reader), t);
      TakenChange(windows, taken, reader, t);
      taken, nextNumber := taken[reader := t], nextNumber + 1;
    }

    /** A window goes away, and its spill with it. */
    method Discard(file: nat)
      requires Valid() && file in windows
      modifies `windows, `spills
      ensures Valid()
      ensures windows == old(windows) - {file}
      ensures spills == old(spills) - PartOf(Taken(file, old(windows)[file]))
    {
      hide Consistent, AllSlots, Total, BlobsExact;
      SlotsAt(windows, taken, Kept(file));
      Drop(content, AllSlots(windows, taken), spills, nextNumber, Kept(file));
      WindowsChange(windows, taken, file, windows[file]);
      TotalWithout(windows, file);
      spills := spills - PartOf(Taken(file, windows[file]));
      windows := windows - {file};
    }

    /** A reader lets go of its window, and the spill goes with it. */
    method Abandon(reader: nat)
      requires Valid() && reader in taken
      modifies `taken, `spills
      ensures Valid()
      ensures taken == old(taken) - {reader}
      ensures spills == old(spills) - PartOf(old(taken)[reader])
    {
      hide Consistent, AllSlots, Total, BlobsExact;
      SlotsAt(windows, taken, Held(reader));
      Drop(content, AllSlots(windows, taken), spills, nextNumber, Held(reader));
      TakenChange(windows, taken, reader, taken[reader]);
      spills := spills - PartOf(taken[reader]);
      taken := taken - {reader};
    }

    /** A reader takes the window of a file out of the map. */
    method Take(reader: nat, file: nat)
      requires Valid() && reader !in taken && file in windows
      modifies `windows, `taken
      ensures Valid()
      ensures windows == old(windows) - {file}
      ensures taken == old(taken)[reader := Taken(file, old(windows)[file])]
    {
      hide Consistent, AllSlots, Total, BlobsExact;
      var t := Taken(file, windows[file]);
      SlotsAt(windows, taken, Kept(file));
      SlotsAt(windows, taken, Held(reader));
      Rename(content, AllSlots(windows, taken), spills, nextNumber, Kept(file), Held(reader));
      WindowsChange(windows, taken, file, windows[file]);
      TakenChange(windows - {file}, taken, reader, t);
      TotalWithout(windows, file);
      windows, taken := windows - {file}, taken[reader := t];
    }

    /** The file's window, if this read continues it; a fresh one otherwise. */
    method TakeOut(reader: nat, file: nat, etag: Etag, offset: nat)
      requires Valid() && reader !in taken && offset <= |content(file, etag)|
      modifies `windows, `taken, `spills, `nextNumber
      ensures Valid()
      ensures windows == old(windows) - {file}
      ensures taken == old(taken)[reader :=
                Taken(file, Continued(old(windows), file, etag, offset, old(nextNumber), clock))]
    {
      hide Consistent, AllSlots, Total, BlobsExact;
      if file in windows && windows[file].etag == etag && windows[file].next == offset {
        Take(reader, file);
      } else {
        if file in windows {
          Discard(file);
        }
        assert windows == old(windows) - {file};
        Begin(reader, file, etag, offset);
      }
    }

    /** The slice a reader serves next: the run goes on, and the spill with it
        as long as the disk takes it. */
    method Advance(reader: nat, w: Window, out: Bytes, ghost len: nat) returns (written: bool)
      requires Valid() && reader in taken
      requires w.etag == taken[reader].window.etag && w.next == taken[reader].window.next
                 && w.part == taken[reader].window.part
      requires Exact(w, content(taken[reader].file, w.etag))
      requires out <= Range(content(taken[reader].file, w.etag), w.next, len)
      modifies `taken, `spills, `clock
      ensures Valid()
      ensures reliable ==> written
      ensures taken == old(taken)[reader := Taken(old(taken)[reader].file, Advanced(w, out, written, clock))]
      ensures spills.Keys <= old(spills).Keys + PartOf(old(taken)[reader])
      ensures old(clock) < taken[reader].window.lastUse == clock
    {
      hide Consistent, AllSlots, Total, BlobsExact, Exact, Range, Sound;
      var diskFails: bool := *;
      written := reliable || !diskFails;
      clock := clock + 1;
      var t := taken[reader];
      var n := Taken(t.file, Advanced(w, out, written, clock));
      SlotsAt(windows, taken, Held(reader));
      SoundAt(content, AllSlots(windows, taken), spills, nextNumber, Held(reader));
      AdvanceIsSound(content, spills, nextNumber, t, w, out, len, written, clock);
      var left := SpillAfter(spills, t.file, w, out, written);
      hide SpillAfter;
      Change(content, AllSlots(windows, taken), spills, nextNumber, Held(reader), n, left);
      TakenChange(windows, taken, reader, n);
      taken, spills := taken[reader := n], left;
    }

    /** Eviction, which may take any blob (see `Evict`). */
    method EnforceBudget()
      requires Valid()
      modifies `blobs
      ensures Valid()
      ensures blobs.Keys <= old(blobs).Keys && forall f :: f in blobs ==> blobs[f] == old(blobs)[f]
    {
      var gone: set<nat> := *;
      blobs := blobs - gone;
    }

    /** A completed spill becomes the file's blob, unless the disk refuses. */
    method PublishWindow(reader: nat)
      requires Valid() && reader in taken
      requires var t := taken[reader];
               |content(t.file, t.window.etag)| > 0 && Complete(t.window, |content(t.file, t.window.etag)|)
      modifies `taken, `spills, `blobs, `published
      ensures Valid()
      ensures taken == old(taken) - {reader}
      ensures spills == old(spills) - PartOf(old(taken)[reader])
      ensures reliable ==> var t := old(taken)[reader];
                published == old(published) + [(t.file, Blob(t.window.etag, content(t.file, t.window.etag)))]
      ensures !reliable ==> old(published) <= published
    {
      hide Consistent, AllSlots, Total, Sound, Exact;
      var t := taken[reader];
      SpillIsWhole(content, windows, taken, spills, nextNumber, reader);
      var bytes := spills[Spill(t.file, t.window.part.value.number)];
      Abandon(reader);
      var fails: bool := *;
      if reliable || !fails {
        blobs := blobs[t.file := Blob(t.window.etag, bytes)];
        published := published + [(t.file, blobs[t.file])];
      } else {
        blobs := blobs - {t.file};
      }
      EnforceBudget();
    }

    /** The reader's window back into the map: over the cap the least recently
        used one goes first, and then buffers until they fit. */
    method KeepWindow(reader: nat) returns (ghost victim: Option<nat>)
      requires Valid() && reader in taken
      modifies `taken, `windows, `spills
      ensures Valid()
      ensures taken == old(taken) - {reader}
      ensures var t := old(taken)[reader];
              KeptBeside(old(windows), victim, t.file, t.window, windows)
      ensures spills.Keys <= old(spills).Keys
      ensures NewerThanAll(old(windows), old(taken)[reader].window) ==> IsLatest(windows, old(taken)[reader].file)
    {
      hide Total, Consistent, AllSlots, BlobsExact, TrimmedFairly, Dated, IsLatest, NewerThanAll;
      var t := taken[reader];
      victim := None;
      ghost var before := windows;
      if |windows| >= MAX_WINDOWS {
        var oldest := Oldest(windows, windows.Keys);
        victim := Some(oldest);
        Discard(oldest);
      }
      ghost var room := windows;
      FewerAreNewer(before, victim, t.window);
      assert Dated(room, taken, clock);
      if t.file in windows {
        Discard(t.file);
      }
      assert windows[t.file := t.window] == room[t.file := t.window];
      var put := windows[t.file := t.window];
      assert |put| <= MAX_WINDOWS;
      var kept := TrimReadahead(put);
      KeptIsDated(room, taken, reader, kept, clock);
      PutBackTrimmed(content, windows, taken, spills, nextNumber, reader, kept);
      taken, windows := taken - {reader}, kept;
    }

    /** The read itself, with the window in hand: out of the buffer, or by a
        request, which past the threshold asks for a whole chunk. Then the window
        is published, given up, or kept. */
    method Serve(reader: nat, node: Node, file: nat, offset: nat, len: nat)
      returns (r: Result<Bytes>, ghost victim: Option<nat>)
      requires Valid() && Proper(node) && node.fileId == Some(file) && offset < node.size && 0 < len
      requires reader in taken && taken[reader].file == file
      requires taken[reader].window.etag == node.etag && taken[reader].window.next == offset
      modifies this
      ensures Valid()
      ensures taken == old(taken) - {reader}
      ensures r.Ok? ==> r.value <= Range(Whole(node), offset, len)
      ensures generous && r.Ok? ==> r.value != []
      ensures ServedBy(old(taken)[reader].window, node.size, len, old(answers), answers, r)
      ensures old(published) <= published && vanished == old(vanished)
      // A window that served something is the last used, unless that was the end
      // of the file.
      ensures r.Ok? && r.value != [] ==>
                || IsLatest(windows, file)
                || (windows == old(windows) && offset + |r.value| == node.size)
      ensures reliable && len < FETCH_CHUNK ==>
                r == Ok(Range(Whole(node), offset, Length(old(taken)[reader].window, len)))
      ensures reliable ==>
                var w, whole := old(taken)[reader].window, Whole(node);
                var (n, out) := ReadOnce(w, whole, len, clock);
                && r == Ok(out)
                && |answers| == |old(answers)| + (if Hits(w, len) then 0 else 1)
                && (Complete(n, node.size) ==>
                      windows == old(windows) && published == old(published) + [(file, Blob(node.etag, whole))])
                && (!Complete(n, node.size) ==> published == old(published))
                && (!Complete(n, node.size) && out != [] ==> KeptBeside(old(windows), victim, file, n, windows))
    {
      hide Consistent, AllSlots, Total, BlobsExact, Exact, TrimmedFairly, Sound, Range, Buffered, Advanced, ServedBy,
          IsLatest, Dated, ReadOnce, Length, KeptBeside;
      SlotsAt(windows, taken, Held(reader));
      SoundAt(content, AllSlots(windows, taken), spills, nextNumber, Held(reader));
      ExactFromSound(content, spills, nextNumber, taken[reader]);
      if len < FETCH_CHUNK {
        ReadOnceServes(taken[reader].window, Whole(node), len, clock + 1);
      }
      victim := None;
      var got := Obtain(taken[reader].window, node, offset, len);
      if got.Err? {
        Abandon(reader);
        return Err, victim;
      }
      var (w, out) := got.value;
      victim := Finish(reader, node.size, w, out, len);
      r := Ok(out);
    }

    /** What becomes of the window after its slice: published when its spill is
        the whole file, given up when the source had nothing, else kept. */
    method Finish(reader: nat, size: nat, w: Window, out: Bytes, ghost len: nat) returns (ghost victim: Option<nat>)
      requires Valid() && reader in taken && size > 0
      requires w.etag == taken[reader].window.etag && w.next == taken[reader].window.next
                 && w.part == taken[reader].window.part
      requires Exact(w, content(taken[reader].file, w.etag)) && size == |content(taken[reader].file, w.etag)|
      requires out <= Range(content(taken[reader].file, w.etag), w.next, len)
      modifies `windows, `taken, `spills, `blobs, `clock, `published
      ensures Valid()
      ensures taken == old(taken) - {reader}
      ensures old(published) <= published
      ensures out != [] ==>
                || IsLatest(windows, old(taken)[reader].file)
                || (windows == old(windows) && w.next + |out| == size)
      ensures reliable ==>
                var file, n := old(taken)[reader].file, Advanced(w, out, true, clock);
                && (Complete(n, size) ==>
                      && windows == old(windows)
                      && published == old(published) + [(file, Blob(w.etag, content(file, w.etag)))])
                && (!Complete(n, size) ==> published == old(published))
                && (!Complete(n, size) && out != [] ==> KeptBeside(old(windows), victim, file, n, windows))
    {
      hide Consistent, AllSlots, Total, BlobsExact, Exact, TrimmedFairly, Sound, Range, Buffered;
      victim := None;
      var written := Advance(reader, w, out, len);
      ghost var after := taken;
      assert after - {reader} == old(taken) - {reader};
      if Complete(taken[reader].window, size) {
        CompleteAtTheEnd(content, w, out, written, clock, taken[reader].file, size, len);
        PublishWindow(reader);
      } else if out == [] {
        Abandon(reader);
      } else {
        victim := KeepWindow(reader);
      }
    }

    /** The slice to serve: out of the buffer, or by a request, which past the
        threshold refills the buffer with a whole chunk. */
    method Obtain(w: Window, node: Node, offset: nat, len: nat) returns (r: Result<(Window, Bytes)>)
      requires Proper(node) && node.fileId.Some? && offset < node.size && 0 < len
      requires w.etag == node.etag && w.next == offset && Exact(w, Whole(node))
      modifies `answers
      ensures ServedBy(w, node.size, len, old(answers), answers, if r.Ok? then Ok(r.value.1) else Err)
      ensures r.Ok? ==>
                var (n, out) := r.value;
                && n.etag == w.etag && n.next == w.next && n.part == w.part
                && Exact(n, Whole(node)) && out <= Range(Whole(node), offset, len)
                && (generous ==> out != [])
      ensures reliable ==>
                && r.Ok?
                && (forall now ::
                      ReadOnce(w, Whole(node), len, now) == (Advanced(r.value.0, r.value.1, true, now), r.value.1))
                && |answers| == |old(answers)| + (if Hits(w, len) then 0 else 1)
    {
      hide ServedBy;
      ghost var whole, asked := Whole(node), answers;
      BufferedIsExact(w, whole, offset, len);
      var held := Buffered(w, offset, len);
      if held.Some? {
        BufferedIsAPart(w, whole, offset, len);
        FromTheBuffer(w, node.size, len, asked);
        r := Ok((w, held.value));
      } else {
        var got := Fetch(node, offset, Want(w, node.size, offset, len));
        FromARequest(w, whole, len, asked, got);
        if got.Err? {
          return Err;
        }
        if Escalated(w) {
          FilledIsExact(w, whole, offset, got.value);
          var n := Filled(w, offset, got.value);
          var slice := Buffered(n, offset, len);
          if slice.Some? {
            BufferedIsAPart(n, whole, offset, len);
          }
          r := Ok((n, if slice.Some? then slice.value else []));
        } else {
          r := Ok((w, got.value));
        }
      }
    }

    /** Anything the other readers do, and the writers of blobs beside them. */
    method Meanwhile(me: nat)
      requires Valid()
      modifies this
      ensures Valid()
      ensures Lookup(taken, me) == old(Lookup(taken, me))
      ensures old(published) <= published && old(answers) <= answers && vanished == old(vanished)
    {
      hide Consistent, AllSlots, Total, BlobsExact, TrimmedFairly;
      var steps: nat := *;
      while steps > 0
        invariant Valid()
        invariant Lookup(taken, me) == old(Lookup(taken, me))
        invariant old(published) <= published && old(answers) <= answers && vanished == old(vanished)
      {
        steps := steps - 1;
        var other: nat := *;
        if other != me {
          OtherReader(other);
        }
      }
    }

    /** One step of another reader, or of a writer of blobs. */
    method OtherReader(other: nat)
      requires Valid()
      modifies this
      ensures Valid()
      ensures forall q :: q != other ==> Lookup(taken, q) == old(Lookup(taken, q))
      ensures old(published) <= published && old(answers) <= answers && vanished == old(vanished)
    {
      hide Consistent, AllSlots, Total, TrimmedFairly;
      var fails: bool, file: nat, etag: Etag, offset: nat, len: nat := *, *, *, *, *;
      if other in taken {
        var t := taken[other];
        var whole := content(t.file, t.window.etag);
        if fails || len == 0 || t.window.next >= |whole| {
          Abandon(other);
        } else {
          var r, victim := Serve(other, Node(Some(t.file), "", t.window.etag, |whole|), t.file, t.window.next, len);
        }
      } else if fails {
        blobs := blobs[file := Blob(etag, content(file, etag))];
        EnforceBudget();
      } else if offset <= |content(file, etag)| {
        TakeOut(other, file, etag, offset);
      }
    }

    /** A read by window, other readers running while the request is under way:
        `w` is the window it continues or begins, and `asked` what was requested
        until it came to be served. */
    method ReadWindowed(reader: nat, node: Node, file: nat, offset: nat, len: nat)
      returns (r: Result<Bytes>, ghost w: Window, ghost asked: seq<Answer>)
      requires Valid() && Proper(node) && node.fileId == Some(file) && offset < node.size && 0 < len
      requires reader !in taken
      modifies this
      ensures Valid()
      ensures reader !in taken
      ensures w == Continued(old(windows), file, node.etag, offset, old(nextNumber), old(clock))
      ensures w.next == offset && old(answers) <= asked && ServedBy(w, node.size, len, asked, answers, r)
      ensures vanished == old(vanished)
      ensures r.Ok? ==> r.value <= Range(Whole(node), offset, len)
      ensures generous && r.Ok? ==> r.value != []
      ensures r.Ok? && r.value != [] && offset + |r.value| < node.size ==> IsLatest(windows, file)
      ensures reliable ==> r.Ok?
      ensures reliable && len < FETCH_CHUNK ==> r == Ok(Range(Whole(node), offset, Length(w, len)))
    {
      hide Consistent, AllSlots, Total, BlobsExact, Range, Buffered, Advanced, ServedBy, IsLatest;
      TakeOut(reader, file, node.etag, offset);
      w := taken[reader].window;
      Meanwhile(reader);
      assert Lookup(taken, reader).Some?;
      asked := answers;
      ghost var victim;
      r, victim := Serve(reader, node, file, offset, len);
    }

    /** The file of a blob that was just found fresh, unless eviction has taken it
        in between. */
    method OpenBlob(file: nat) returns (bytes: Option<Bytes>)
      requires Valid() && file in blobs
      modifies `blobs, `vanished
      ensures Valid()
      ensures bytes.Some? ==> blobs == old(blobs) && vanished == old(vanished) && bytes.value == blobs[file].bytes
      ensures bytes.None? ==> blobs == old(blobs) - {file} && vanished == old(vanished) + 1
    {
      var evicted: bool := *;
      if evicted {
        blobs, vanished := blobs - {file}, vanished + 1;
        return None;
      }
      bytes := Some(blobs[file].bytes);
    }

    /** What the blob of the row's version answers, unless eviction takes it just
        then; otherwise a window does, and for a large range or a row without a
        cache key the source itself. */
    method Read(reader: nat, node: Node, offset: nat, len: nat) returns (r: Result<Bytes>, ghost way: Way)
      requires Valid() && Proper(node) && reader !in taken
      modifies this
      ensures Valid()
      ensures reader !in taken
      // An empty range is answered at once.
      ensures way.Nothing? <==> len == 0 || offset >= node.size
      ensures way.Nothing? ==> r == Ok([])
      // The row's own version in the cache is read exactly if it has not vanished,
      // in full and without a request.
      ensures way.Local? <==>
                && 0 < len && offset < node.size && vanished == old(vanished)
                && node.fileId.Some? && node.fileId.value in old(blobs)
                && old(blobs)[node.fileId.value].etag == node.etag
      ensures way.Local? ==> r == Ok(Range(Whole(node), offset, len))
      ensures way.Nothing? || way.Local? ==>
                && answers == old(answers) && windows == old(windows) && taken == old(taken)
                && spills == old(spills) && blobs == old(blobs) && published == old(published)
      // Otherwise a large range, or one of a row without a key, is asked of the
      // source as it is, and everything else is read by window.
      ensures way.Direct? <==>
                0 < len && offset < node.size && !way.Local? && (node.fileId.None? || len >= FETCH_CHUNK)
      ensures way.Direct? ==> answers == old(answers) + [Answer(offset, len, r)]
      ensures way.ByWindow? ==>
                && node.fileId.Some?
                && way.w == Continued(old(windows), node.fileId.value, node.etag, offset, old(nextNumber), old(clock))
                && way.w.next == offset < node.size && old(answers) <= way.asked
                && ServedBy(way.w, node.size, len, way.asked, answers, r)
                && (r.Ok? && r.value != [] && offset + |r.value| < node.size ==> IsLatest(windows, node.fileId.value))
      // What does not fail is a part of the exact range, from a source that answers
      // in full all of it unless a window's buffer ends before.
      ensures r.Ok? ==> r.value <= Range(Whole(node), offset, len)
      ensures generous && r.Ok? && Range(Whole(node), offset, len) != [] ==> r.value != []
      ensures reliable ==>
                r == Ok(Range(Whole(node), offset, if way.ByWindow? then Length(way.w, len) else len))
    {
      way := Nothing;
      if len == 0 || offset >= node.size {
        return Ok([]), way;
      }
      if node.fileId.Some? && node.fileId.value in blobs && blobs[node.fileId.value].etag == node.etag {
        var bytes := OpenBlob(node.fileId.value);
        if bytes.Some? {
          return Ok(Range(bytes.value, offset, len)), Local;
        }
      }
      if node.fileId.Some? && len < FETCH_CHUNK {
        ghost var w, asked;
        r, w, asked := ReadWindowed(reader, node, node.fileId.value, offset, len);
        way := ByWindow(w, asked);
      } else {
        r := Fetch(node, offset, len);
        way := Direct;
      }
    }

    /** A cold pass over a file, step by step. Other files may have windows, and
        other readers theirs in hand, but nobody else has anything buffered: then
        one other window at most goes, at the cap, and its spill with it. */
    method SequentialPass(reader: nat, node: Node, file: nat, step: nat) returns (ghost victim: Option<nat>)
      requires Valid() && Proper(node) && node.fileId == Some(file) && 0 < node.size && 0 < step < FETCH_CHUNK
      requires reliable && reader !in taken && file !in windows && NothingBuffered(windows)
      modifies this
      ensures Valid()
      ensures published == old(published) + [(file, Blob(node.etag, Whole(node)))]
      ensures |answers| - |old(answers)| <= CeilDiv(READAHEAD_AFTER, step)
                + CeilDiv(Max(0, node.size - READAHEAD_AFTER), FETCH_CHUNK)
      ensures victim.Some? ==> |old(windows)| >= MAX_WINDOWS && IsOldest(old(windows), victim.value)
      ensures windows == Without(old(windows), victim) && taken == old(taken)
      ensures spills == old(spills) - if victim.Some? then PartOf(Taken(victim.value, old(windows)[victim.value]))
                else {}
    {
      hide Consistent, AllSlots, Total, BlobsExact, TrimmedFairly, Range, Buffered, CeilDiv, Exact, Passing, IsOldest,
          NothingBuffered;
      ghost var whole := Whole(node);
      ghost var w, others := Start(node.etag, 0, nextNumber, clock), windows;
      ghost var number := nextNumber;
      victim := None;
      StartPasses(node.etag, nextNumber, clock, whole, step);
      var offset := 0;
      while offset < node.size
        invariant Valid() && taken == old(taken)
        invariant offset == w.next <= node.size && w.etag == node.etag
        invariant file !in others && NothingBuffered(others) && others == Without(old(windows), victim)
        invariant victim.Some? ==>
                    && |old(windows)| >= MAX_WINDOWS && IsOldest(old(windows), victim.value)
                    && victim.value in old(windows)
        invariant offset < node.size ==> Passing(w, whole) && published == old(published)
        invariant offset < node.size ==> InHand(windows, others, file, node.etag, offset, nextNumber, clock, w)
        invariant offset == node.size ==>
                    windows == others && published == old(published) + [(file, Blob(node.etag, whole))]
        invariant |answers| - |old(answers)| + Bound(w, node.size, step) <= CeilDiv(READAHEAD_AFTER, step)
                    + CeilDiv(node.size - READAHEAD_AFTER, FETCH_CHUNK)
        decreases node.size - offset
      {
        var out: Bytes;
        ghost var gone: Option<nat>;
        out, w, gone := PassOnce(reader, node, file, step, offset, w, others);
        offset := offset + |out|;
        if gone.Some? {
          assert victim.None?;
          NothingBufferedWithout(others, gone);
          victim, others := gone, Without(others, gone);
        }
      }
      if victim.Some? {
        SpillsAfterTheVictim(content, old(windows), old(taken), old(spills), number, victim.value, spills, nextNumber);
      } else {
        SpillsAreDetermined(content, AllSlots(windows, taken), old(spills), number, spills, nextNumber);
      }
      NothingOwedBelowZero(node.size - READAHEAD_AFTER, FETCH_CHUNK);
    }

    lemma WholeFile(node: Node, file: nat)
      requires Proper(node) && node.fileId == Some(file)
      ensures Whole(node) == content(file, node.etag) && node.size == |Whole(node)|
    {
    }

    /** One read of the pass. */
    method PassOnce(reader: nat, node: Node, file: nat, step: nat, offset: nat, ghost w: Window,
                    ghost others: map<nat, Window>)
      returns (out: Bytes, ghost n: Window, ghost gone: Option<nat>)
      requires Valid() && Proper(node) && node.fileId == Some(file) && 0 < step < FETCH_CHUNK
      requires reliable && reader !in taken
      requires offset == w.next < node.size && w.etag == node.etag && Passing(w, Whole(node))
      requires file !in others && NothingBuffered(others)
      requires InHand(windows, others, file, node.etag, offset, nextNumber, clock, w)
      modifies this
      ensures Valid() && taken == old(taken)
      ensures out != [] && n.next == offset + |out| <= node.size && n.etag == node.etag && Passing(n, Whole(node))
      ensures gone.Some? ==> |others| >= MAX_WINDOWS && IsOldest(others, gone.value)
      ensures n.next < node.size ==> windows == Without(others, gone)[file := n] && published == old(published)
      ensures n.next == node.size ==>
                && gone.None? && windows == others
                && published == old(published) + [(file, Blob(node.etag, Whole(node)))]
      ensures |answers| - |old(answers)| + Bound(n, node.size, step) <= Bound(w, node.size, step)
    {
      hide *;
      WholeFile(node, file);
      var whole := Whole(node);
      PassTakesItsWindow(windows, others, file, node.etag, offset, nextNumber, clock, w);
      TakeOut(reader, file, node.etag, offset);
      assert taken[reader].window == w && windows == others && taken - {reader} == old(taken);
      var r, victim := Serve(reader, node, file, offset, step);
      ghost var (next, served) := ReadOnce(w, whole, step, clock);
      ReadGetsOn(w, whole, step, clock);
      PassGoesOn(next, whole);
      out, n, gone := r.value, next, None;
      if next.next < node.size {
        gone := victim;
        KeptInThePass(others, gone, file, next, whole, windows);
      }
    }
  }

  /** What the next read of a pass takes out of the map, or starts with. */
  ghost predicate InHand(windows: map<nat, Window>, others: map<nat, Window>, file: nat, etag: Etag, offset: nat,
                         number: nat, now: nat, w: Window) {
    windows == others[file := w] || (windows == others && offset == 0 && w == Start(etag, 0, number, now))
  }

  lemma PassTakesItsWindow(windows: map<nat, Window>, others: map<nat, Window>, file: nat, etag: Etag, offset: nat,
                           number: nat, now: nat, w: Window)
    requires InHand(windows, others, file, etag, offset, number, now, w)
    requires file !in others && w.etag == etag && w.next == offset
    ensures windows - {file} == others
    ensures w == Continued(windows, file, etag, offset, number, now)
  {
  }

  ghost predicate NothingBuffered(windows: map<nat, Window>) {
    forall f :: f in windows ==> windows[f].buf == []
  }

  lemma NothingBufferedWithout(windows: map<nat, Window>, victim: Option<nat>)
    requires NothingBuffered(windows)
    ensures NothingBuffered(Without(windows, victim))
  {
  }

  /** One window's buffer always fits, and is never trimmed. */
  lemma LoneBufferStays(others: map<nat, Window>, file: nat, n: Window, whole: Bytes, kept: map<nat, Window>)
    requires NothingBuffered(others) && Passing(n, whole)
    requires TrimmedFairly(others[file := n], kept)
    ensures kept == others[file := n]
  {
    var put := others[file := n];
    forall f | f in put ensures Total(kept[f := put[f]]) <= MAX_READAHEAD_BYTES {
      var again := kept[f := put[f]];
      TotalWithout(again, file);
      NoBuffersNoTotal(again - {file});
    }
  }

  lemma KeptInThePass(others: map<nat, Window>, victim: Option<nat>, file: nat, n: Window, whole: Bytes,
                      kept: map<nat, Window>)
    requires NothingBuffered(others) && Passing(n, whole) && KeptBeside(others, victim, file, n, kept)
    ensures victim.Some? ==> |others| >= MAX_WINDOWS && IsOldest(others, victim.value)
    ensures kept == Without(others, victim)[file := n]
  {
    hide NothingBuffered, TrimmedFairly, Passing, IsOldest, Without;
    NothingBufferedWithout(others, victim);
    LoneBufferStays(Without(others, victim), file, n, whole, kept);
  }

  /** Which spills there are, and what is in them, the windows determine. */
  lemma SpillsAreDetermined(content: Contents, slots: Slots, spills: map<Spill, Bytes>, next: nat,
                            others: map<Spill, Bytes>, later: nat)
    requires Consistent(content, slots, spills, next) && Consistent(content, slots, others, later)
    ensures spills == others
  {
    SpillsAreThose(content, slots, spills, next, others, later);
    SpillsAreThose(content, slots, others, later, spills, next);
  }

  lemma SpillsAreThose(content: Contents, slots: Slots, spills: map<Spill, Bytes>, next: nat,
                       others: map<Spill, Bytes>, later: nat)
    requires Consistent(content, slots, spills, next) && Consistent(content, slots, others, later)
    ensures forall s :: s in spills ==> s in others && others[s] == spills[s]
  {
    hide Exact;
    forall s | s in spills ensures s in others && others[s] == spills[s] {
      assert Owned(slots, s);
      var k :| k in slots && s in PartOf(slots[k]);
      assert Sound(content, spills, next, slots[k]) && Sound(content, others, later, slots[k]);
    }
  }

  lemma SpillsAfterTheVictim(content: Contents, windows: map<nat, Window>, taken: map<nat, Taken>,
                             spills: map<Spill, Bytes>, next: nat,
                             victim: nat, after: map<Spill, Bytes>, later: nat)
    requires Consistent(content, AllSlots(windows, taken), spills, next) && victim in windows
    requires Consistent(content, AllSlots(windows - {victim}, taken), after, later)
    ensures after == spills - PartOf(Taken(victim, windows[victim]))
  {
    hide Consistent, AllSlots;
    SlotsAt(windows, taken, Kept(victim));
    Drop(content, AllSlots(windows, taken), spills, next, Kept(victim));
    WindowsChange(windows, taken, victim, windows[victim]);
    SpillsAreDetermined(content, AllSlots(windows - {victim}, taken), spills - PartOf(Taken(victim, windows[victim])),
        next, after, later);
  }

  lemma NothingOwedBelowZero(a: int, b: nat)
    requires b > 0
    ensures CeilDiv(Max(0, a), b) == CeilDiv(a, b)
  {
  }

  lemma StartPasses(etag: Etag, number: nat, now: nat, whole: Bytes, step: nat)
    requires whole != [] && step > 0
    ensures Passing(Start(etag, 0, number, now), whole)
    ensures Bound(Start(etag, 0, number, now), |whole|, step) <= CeilDiv(READAHEAD_AFTER, step)
              + CeilDiv(|whole| - READAHEAD_AFTER, FETCH_CHUNK)
  {
  }

  /** The spill is complete exactly at the end of the file. */
  lemma PassGoesOn(n: Window, whole: Bytes)
    requires Passing(n, whole)
    ensures Complete(n, |whole|) <==> n.next == |whole|
  {
  }

  /** A spill is complete only with the slice that ends the file. */
  lemma CompleteAtTheEnd(content: Contents, w: Window, out: Bytes, written: bool, now: nat, file: nat, size: nat,
                         len: nat)
    requires Exact(w, content(file, w.etag)) && out <= Range(content(file, w.etag), w.next, len)
    requires Complete(Advanced(w, out, written, now), size)
    ensures w.next + |out| == size
  {
  }

  lemma ExactFromSound(content: Contents, spills: map<Spill, Bytes>, next: nat, t: Taken)
    requires Sound(content, spills, next, t)
    ensures Exact(t.window, content(t.file, t.window.etag))
  {
  }

  lemma PutBackTrimmed(content: Contents, windows: map<nat, Window>, taken: map<nat, Taken>, spills: map<Spill, Bytes>,
                       next: nat, r: nat, kept: map<nat, Window>)
    requires Consistent(content, AllSlots(windows, taken), spills, next)
    requires r in taken && taken[r].file !in windows
    requires TrimmedFairly(windows[taken[r].file := taken[r].window], kept)
    ensures Consistent(content, AllSlots(kept, taken - {r}), spills, next)
    ensures |kept| == |windows| + 1
  {
    hide AllSlots, Consistent, LastWasNeeded;
    var t := taken[r];
    var put := windows[t.file := t.window];
    PutBack(content, windows, taken, spills, next, r);
    TrimmedSlots(put, kept, taken - {r});
    Trim(content, AllSlots(put, taken - {r}), AllSlots(kept, taken - {r}), spills, next);
    OneMore(windows, kept, t.file);
  }

  lemma PutBack(content: Contents, windows: map<nat, Window>, taken: map<nat, Taken>, spills: map<Spill, Bytes>,
                next: nat, r: nat)
    requires Consistent(content, AllSlots(windows, taken), spills, next)
    requires r in taken && taken[r].file !in windows
    ensures Consistent(content, AllSlots(windows[taken[r].file := taken[r].window], taken - {r}), spills, next)
  {
    hide AllSlots, Consistent;
    var t := taken[r];
    SlotsAt(windows, taken, Held(r));
    SlotsAt(windows, taken, Kept(t.file));
    TakenChange(windows, taken, r, t);
    WindowsChange(windows, taken - {r}, t.file, t.window);
    Rename(content, AllSlots(windows, taken), spills, next, Held(r), Kept(t.file));
  }

  lemma OneMore(windows: map<nat, Window>, kept: map<nat, Window>, file: nat)
    requires file !in windows && kept.Keys == windows.Keys + {file}
    ensures |kept| == |windows| + 1
  {
    assert |kept| == |kept.Keys| && |windows| == |windows.Keys|;
  }

  lemma TrimmedSlots(before: map<nat, Window>, after: map<nat, Window>, taken: map<nat, Taken>)
    requires SameButBuffers(before, after)
    ensures var a, b := AllSlots(after, taken), AllSlots(before, taken);
            && a.Keys == b.Keys
            && forall k :: k in b ==> a[k] == b[k] || a[k] == Taken(b[k].file, Trimmed(b[k].window))
  {
    var a, b := AllSlots(after, taken), AllSlots(before, taken);
    forall k
      ensures (k in a <==> k in b) && (k in b ==> a[k] == b[k] || a[k] == Taken(b[k].file, Trimmed(b[k].window)))
    {
      SlotsAt(before, taken, k);
      SlotsAt(after, taken, k);
    }
  }
}

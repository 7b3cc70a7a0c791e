/** The reading side of `CachingSource` in `content.rs`: windows that are taken
    out of the map while a request is under way, spills that become blobs, and
    the two limits on what is kept. Other readers run between any two steps. */
module ReadCache {
  import opened Common
  import opened ReadWindow

  const MAX_WINDOWS: nat := 256
  const MAX_READAHEAD_BYTES: nat := 64 * 1024 * 1024

  /** A row: its cache key, if it has one, its path, and the version it names. */
  datatype Node = Node(fileId: Option<nat>, path: string, etag: Etag, size: nat)

  /** A spill's name, `<file id>.<number>.ra`. */
  datatype Spill = Spill(file: nat, number: nat)

  datatype Blob = Blob(etag: Etag, bytes: Bytes)

  /** A window in a reader's hands. */
  datatype Taken = Taken(file: nat, window: Window)

  type Contents = (nat, Etag) -> Bytes

  /** Where a window is: in the map, or in a reader's hands. */
  datatype Slot = Kept(file: nat) | Held(reader: nat)

  type Slots = map<Slot, Taken>

  ghost function SlotNames(windows: map<nat, Window>, taken: map<nat, Taken>): set<Slot> {
    (set f | f in windows :: Kept(f)) + (set r | r in taken :: Held(r))
  }

  ghost function SlotAt(windows: map<nat, Window>, taken: map<nat, Taken>, k: Slot): Taken
    requires k in SlotNames(windows, taken)
  {
    match k
    case Kept(f) => Taken(f, windows[f])
    case Held(r) => taken[r]
  }

  ghost function AllSlots(windows: map<nat, Window>, taken: map<nat, Taken>): Slots {
    map k | k in SlotNames(windows, taken) :: SlotAt(windows, taken, k)
  }

  // --- What holds between steps ---------------------------------------------------

  ghost predicate SpillHolds(spills: map<Spill, Bytes>, s: Spill, bytes: Bytes) {
    if bytes == [] then s !in spills else s in spills && spills[s] == bytes
  }

  /** A window is exact, and its spill is the file's prefix up to `next`. */
  ghost predicate Sound(content: Contents, spills: map<Spill, Bytes>, next: nat, t: Taken) {
    var whole := content(t.file, t.window.etag);
    && Exact(t.window, whole)
    && (t.window.part.Some? ==>
          && t.window.part.value.number < next
          && SpillHolds(spills, Spill(t.file, t.window.part.value.number), whole[..t.window.next]))
  }

  function PartOf(t: Taken): set<Spill> {
    if t.window.part.Some? then {Spill(t.file, t.window.part.value.number)} else {}
  }

  predicate Apart(a: Taken, b: Taken) {
    a.window.part.Some? && b.window.part.Some? ==> a.window.part.value.number != b.window.part.value.number
  }

  ghost predicate Owned(slots: Slots, s: Spill) {
    exists k :: k in slots && s in PartOf(slots[k])
  }

  ghost predicate AllSound(content: Contents, slots: Slots, spills: map<Spill, Bytes>, next: nat) {
    forall k :: k in slots ==> Sound(content, spills, next, slots[k])
  }

  /** No two live windows share a spill. */
  ghost predicate AllApart(slots: Slots) {
    forall j, k :: j in slots && k in slots && j != k ==> Apart(slots[j], slots[k])
  }

  /** No spill outlives its window. */
  ghost predicate NoOrphans(slots: Slots, spills: map<Spill, Bytes>) {
    forall s :: s in spills ==> Owned(slots, s)
  }

  ghost predicate Consistent(content: Contents, slots: Slots, spills: map<Spill, Bytes>, next: nat) {
    AllSound(content, slots, spills, next) && AllApart(slots) && NoOrphans(slots, spills)
  }

  ghost predicate BlobsExact(content: Contents, blobs: map<nat, Blob>) {
    forall f :: f in blobs ==> blobs[f].bytes == content(f, blobs[f].etag)
  }

  /** All prefetch buffers together. */
  ghost function Total(windows: map<nat, Window>): nat {
    if windows == map[] then 0
    else var f :| f in windows; |windows[f].buf| + Total(windows - {f})
  }

  lemma {:induction false} TotalWithout(windows: map<nat, Window>, f: nat)
    requires f in windows
    ensures Total(windows) == |windows[f].buf| + Total(windows - {f})
    decreases |windows|
  {
    var g :| g in windows && Total(windows) == |windows[g].buf| + Total(windows - {g});
    if g != f {
      TotalWithout(windows - {g}, f);
      TotalWithout(windows - {f}, g);
      assert windows - {g} - {f} == windows - {f} - {g};
    }
  }

  lemma TotalWith(windows: map<nat, Window>, f: nat, w: Window)
    ensures Total(windows[f := w]) == |w.buf| + Total(windows - {f})
  {
    TotalWithout(windows[f := w], f);
    assert windows[f := w] - {f} == windows - {f};
  }

  // --- The moves ------------------------------------------------------------------

  /** Whoever owned a spill still does. */
  lemma OwnersStay(slots: Slots, after: Slots, spills: map<Spill, Bytes>)
    requires NoOrphans(slots, spills)
    requires forall k :: k in slots ==> k in after && PartOf(after[k]) == PartOf(slots[k])
    ensures NoOrphans(after, spills)
  {
    hide PartOf;
    forall s | s in spills ensures Owned(after, s) {
      var k :| k in slots && s in PartOf(slots[k]);
      assert s in PartOf(after[k]);
    }
  }

  lemma Rename(content: Contents, slots: Slots, spills: map<Spill, Bytes>, next: nat, from: Slot, to: Slot)
    requires Consistent(content, slots, spills, next) && from in slots && to !in slots
    ensures Consistent(content, (slots - {from})[to := slots[from]], spills, next)
  {
    hide Sound, Apart, PartOf;
    var after := (slots - {from})[to := slots[from]];
    forall s | s in spills ensures Owned(after, s) {
      var k :| k in slots && s in PartOf(slots[k]);
      assert s in PartOf(after[if k == from then to else k]);
    }
  }

  lemma StaysSound(content: Contents, spills: map<Spill, Bytes>, next: nat, t: Taken, gone: Taken)
    requires Sound(content, spills, next, t) && Apart(t, gone)
    ensures Sound(content, spills - PartOf(gone), next, t)
  {
    hide Exact;
  }

  /** Where a window was dropped, its spill is gone too, and no other. */
  lemma Drop(content: Contents, slots: Slots, spills: map<Spill, Bytes>, next: nat, k: Slot)
    requires Consistent(content, slots, spills, next) && k in slots
    ensures Consistent(content, slots - {k}, spills - PartOf(slots[k]), next)
  {
    hide Sound, Apart, PartOf;
    var after, left := slots - {k}, spills - PartOf(slots[k]);
    forall j | j in after ensures Sound(content, left, next, after[j]) {
      assert Sound(content, spills, next, slots[j]) && Apart(slots[j], slots[k]);
      StaysSound(content, spills, next, slots[j], slots[k]);
    }
    forall s | s in left ensures Owned(after, s) {
      var j :| j in slots && s in PartOf(slots[j]);
      assert s in PartOf(after[j]);
    }
  }

  lemma Add(content: Contents, slots: Slots, spills: map<Spill, Bytes>, next: nat, k: Slot, t: Taken)
    requires Consistent(content, slots, spills, next) && k !in slots
    requires Exact(t.window, content(t.file, t.window.etag))
    requires t.window.part.Some? ==> t.window.part.value == Part(next, 0)
    ensures Consistent(content, slots[k := t], spills, next + 1)
  {
    assert t.window.part.Some? ==> t.window.next == 0;
    hide Exact;
    var after := slots[k := t];
    forall j | j in slots
      ensures Sound(content, spills, next + 1, slots[j]) && Apart(slots[j], t) && Apart(t, slots[j])
    {
      assert Sound(content, spills, next, slots[j]);
    }
    SpillsAreEarlier(content, slots, spills, next);
    assert Sound(content, spills, next + 1, t);
    hide Sound, Apart, Owned, PartOf, Exact;
    OwnersStay(slots, after, spills);
  }

  lemma SpillsAreEarlier(content: Contents, slots: Slots, spills: map<Spill, Bytes>, next: nat)
    requires Consistent(content, slots, spills, next)
    ensures forall s :: s in spills ==> s.number < next
  {
    forall s | s in spills ensures s.number < next {
      assert Owned(slots, s);
      var j :| j in slots && s in PartOf(slots[j]);
      assert Sound(content, spills, next, slots[j]);
    }
  }

  /** A window changes, keeping its file and the number of its spill. */
  lemma Change(content: Contents, slots: Slots, spills: map<Spill, Bytes>, next: nat, k: Slot, t: Taken,
               left: map<Spill, Bytes>)
    requires Consistent(content, slots, spills, next) && k in slots
    requires PartOf(t) <= PartOf(slots[k]) && Sound(content, left, next, t)
    requires left - PartOf(slots[k]) == spills - PartOf(slots[k])
    requires left.Keys * PartOf(slots[k]) <= PartOf(t)
    ensures Consistent(content, slots[k := t], left, next)
  {
    forall j | j in slots && j != k
      ensures Sound(content, left, next, slots[j]) && Apart(slots[j], t) && Apart(t, slots[j])
    {
      assert Sound(content, spills, next, slots[j]) && Apart(slots[j], slots[k]);
      UnrelatedSpillStays(spills, left, PartOf(slots[k]), slots[j]);
    }
    hide Sound, Apart, PartOf, Exact;
    ChangeLeavesNoOrphan(slots, spills, k, t, left);
  }

  lemma ChangeLeavesNoOrphan(slots: Slots, spills: map<Spill, Bytes>, k: Slot, t: Taken, left: map<Spill, Bytes>)
    requires NoOrphans(slots, spills) && k in slots
    requires left - PartOf(slots[k]) == spills - PartOf(slots[k])
    requires left.Keys * PartOf(slots[k]) <= PartOf(t)
    ensures NoOrphans(slots[k := t], left)
  {
    var after := slots[k := t];
    hide PartOf;
    forall s | s in left ensures Owned(after, s) {
      if s in PartOf(slots[k]) {
        assert s in left.Keys * PartOf(slots[k]);
        assert s in PartOf(after[k]);
      } else {
        assert s in left - PartOf(slots[k]);
        var j :| j in slots && s in PartOf(slots[j]);
        assert s in PartOf(after[j]);
      }
    }
  }

  lemma UnrelatedSpillStays(spills: map<Spill, Bytes>, left: map<Spill, Bytes>, mine: set<Spill>, t: Taken)
    requires left - mine == spills - mine && PartOf(t) !! mine
    ensures forall s :: s in PartOf(t) ==> (s in left <==> s in spills) && (s in left ==> left[s] == spills[s])
  {
    forall s | s in PartOf(t) ensures (s in left <==> s in spills) && (s in left ==> left[s] == spills[s]) {
      assert s in left - mine <==> s in spills - mine;
      assert s in left ==> (left - mine)[s] == (spills - mine)[s];
    }
  }

  // --- Keeping the buffers small --------------------------------------------------

  /** Nothing but the buffer goes. */
  function Trimmed(w: Window): (trimmed: Window)
    ensures trimmed.buf == [] && trimmed.(buf := w.buf, bufStart := w.bufStart) == w
  {
    w.(buf := [], bufStart := 0)
  }

  ghost predicate SameButBuffers(before: map<nat, Window>, after: map<nat, Window>) {
    after.Keys == before.Keys && forall f :: f in before ==> after[f] == before[f] || after[f] == Trimmed(before[f])
  }

  lemma {:induction false} NoBuffersNoTotal(windows: map<nat, Window>)
    requires forall f :: f in windows ==> windows[f].buf == []
    ensures Total(windows) == 0
    decreases |windows|
  {
    if windows != map[] {
      var f :| f in windows;
      TotalWithout(windows, f);
      NoBuffersNoTotal(windows - {f});
    }
  }

  method Sum(windows: map<nat, Window>) returns (total: nat)
    ensures total == Total(windows)
  {
    total := 0;
    var left := windows;
    while left != map[]
      invariant left.Keys <= windows.Keys && total + Total(left) == Total(windows)
      decreases |left|
    {
      var f :| f in left;
      TotalWithout(left, f);
      total, left := total + |left[f].buf|, left - {f};
    }
  }

  /** The least recently used of these windows. */
  method Oldest(windows: map<nat, Window>, among: set<nat>) returns (oldest: nat)
    requires among != {} && among <= windows.Keys
    ensures oldest in among
    ensures forall g :: g in among ==> windows[oldest].lastUse <= windows[g].lastUse
  {
    oldest :| oldest in among;
    var left := among - {oldest};
    while left != {}
      invariant oldest in among && left <= among
      invariant forall g :: g in among - left ==> windows[oldest].lastUse <= windows[g].lastUse
      decreases left
    {
      var g :| g in left;
      if windows[g].lastUse < windows[oldest].lastUse {
        oldest := g;
      }
      left := left - {g};
    }
  }

  /** Oldest first, and no more than needed. */
  ghost predicate TrimmedFairly(before: map<nat, Window>, after: map<nat, Window>) {
    && SameButBuffers(before, after)
    && (forall f, g :: f in before && g in before && after[f] != before[f] && after[g].buf != [] ==>
          before[f].lastUse <= before[g].lastUse)
    && LastWasNeeded(before, after)
  }

  ghost predicate LastWasNeeded(before: map<nat, Window>, after: map<nat, Window>)
    requires before.Keys == after.Keys
  {
    after != before ==>
      exists f :: f in before && after[f] != before[f] && Total(after[f := before[f]]) > MAX_READAHEAD_BYTES
  }

  /** Halfway: `left` still have their buffers, and are younger than the rest. */
  ghost predicate Trimming(before: map<nat, Window>, kept: map<nat, Window>, left: set<nat>) {
    && kept.Keys == before.Keys && left <= before.Keys
    && (forall f :: f in left ==> kept[f] == before[f] && before[f].buf != [])
    && (forall f :: f in before && f !in left ==>
          kept[f].buf == [] && (kept[f] == before[f] || kept[f] == Trimmed(before[f])))
    && (forall f, g :: f in before && g in left && kept[f] != before[f] ==> before[f].lastUse <= before[g].lastUse)
  }

  lemma TrimStep(before: map<nat, Window>, kept: map<nat, Window>, left: set<nat>, f: nat)
    requires Trimming(before, kept, left) && f in left && Total(kept) > MAX_READAHEAD_BYTES
    requires forall g :: g in left ==> before[f].lastUse <= before[g].lastUse
    ensures Trimming(before, kept[f := Trimmed(kept[f])], left - {f})
    ensures LastWasNeeded(before, kept[f := Trimmed(kept[f])])
    ensures Total(kept[f := Trimmed(kept[f])]) == Total(kept) - |kept[f].buf|
  {
    var after := kept[f := Trimmed(kept[f])];
    TotalWithout(kept, f);
    TotalWith(kept, f, Trimmed(kept[f]));
    hide Total;
    assert after[f := before[f]] == kept;
    assert after[f] != before[f];
  }

  /** The buffers are dropped oldest first until the rest fits. */
  method TrimReadahead(windows: map<nat, Window>) returns (kept: map<nat, Window>)
    ensures TrimmedFairly(windows, kept)
    ensures Total(kept) <= MAX_READAHEAD_BYTES
  {
    hide Total;
    kept := windows;
    var total := Sum(windows);
    var left := set f | f in windows && windows[f].buf != [];
    while total > MAX_READAHEAD_BYTES
      invariant total == Total(kept) && Trimming(windows, kept, left) && LastWasNeeded(windows, kept)
      decreases left
    {
      if left == {} {
        NoBuffersNoTotal(kept);
      }
      var f := Oldest(windows, left);
      TrimStep(windows, kept, left, f);
      total, kept, left := total - |kept[f].buf|, kept[f := Trimmed(kept[f])], left - {f};
    }
  }

  /** Dropping buffers disturbs nothing else. */
  lemma Trim(content: Contents, slots: Slots, after: Slots, spills: map<Spill, Bytes>, next: nat)
    requires Consistent(content, slots, spills, next)
    requires after.Keys == slots.Keys
    requires forall k :: k in slots ==>
               after[k] == slots[k] || after[k] == Taken(slots[k].file, Trimmed(slots[k].window))
    ensures Consistent(content, after, spills, next)
  {
    hide Sound, Apart, PartOf, Trimmed, Owned;
    forall k | k in after ensures Sound(content, spills, next, after[k]) && PartOf(after[k]) == PartOf(slots[k]) {
      TrimmedIsSound(content, spills, next, slots[k]);
    }
    forall j, k | j in after && k in after && j != k ensures Apart(after[j], after[k]) {
      TrimmedIsApart(slots[j], slots[k]);
    }
    OwnersStay(slots, after, spills);
  }

  lemma TrimmedIsSound(content: Contents, spills: map<Spill, Bytes>, next: nat, t: Taken)
    requires Sound(content, spills, next, t)
    ensures Sound(content, spills, next, Taken(t.file, Trimmed(t.window)))
    ensures PartOf(Taken(t.file, Trimmed(t.window))) == PartOf(t)
  {
  }

  lemma TrimmedIsApart(a: Taken, b: Taken)
    requires Apart(a, b)
    ensures Apart(Taken(a.file, Trimmed(a.window)), b)
    ensures Apart(a, Taken(b.file, Trimmed(b.window)))
    ensures Apart(Taken(a.file, Trimmed(a.window)), Taken(b.file, Trimmed(b.window)))
  {
  }
}

/** Publishing a blob and evicting it (`publish_blob`, `evict_blob` in
    `content.rs`), one file operation at a time. A process may be interrupted
    after any of them, and a crash is a run that goes no further. */
module Publish {
  import opened Common

  type Etag = string
  type Bytes = seq<byte>

  /** The sidecar on disk: which file it is, and what is written in it. A file
      that was removed lives on for whoever has it open. */
  datatype Sidecar = Sidecar(file: nat, text: string)

  datatype Disk = Disk(blob: Option<Bytes>, sidecar: Option<Sidecar>, files: nat)

  /** Where a process stands. A publisher removes the old sidecar, renames its
      bytes into place, creates the sidecar, and writes it. */
  datatype Process =
    | Publisher(etag: Etag, bytes: Bytes, pc: nat, handle: nat)
    | Evictor(pc: nat)

  datatype State = State(disk: Disk, processes: seq<Process>)

  /** What is written over what, both from the start of the file. */
  function Overwritten(there: string, text: string): string {
    if |text| < |there| then text + there[|text|..] else text
  }

  function Next(disk: Disk, p: Process): (Disk, Process) {
    match p
    case Publisher(etag, bytes, pc, handle) =>
      if pc == 0 then (disk.(sidecar := None), p.(pc := 1))
      else if pc == 1 then (disk.(blob := Some(bytes)), p.(pc := 2))
      else if pc == 2 then
        (match disk.sidecar
         case Some(side) => (disk.(sidecar := Some(Sidecar(side.file, ""))), p.(pc := 3, handle := side.file))
         case None => (Disk(disk.blob, Some(Sidecar(disk.files, "")), disk.files + 1),
             p.(pc := 3, handle := disk.files)))
      else if pc == 3 then
        (match disk.sidecar
         case Some(side) =>
           (if side.file == handle then disk.(sidecar := Some(Sidecar(handle, Overwritten(side.text, etag))))
               else disk, p.(pc := 4))
         case None => (disk, p.(pc := 4)))
      else (disk, p)
    case Evictor(pc) =>
      if pc == 0 then (disk.(blob := None), p.(pc := 1))
      else if pc == 1 then (disk.(sidecar := None), p.(pc := 2))
      else (disk, p)
  }

  /** Process `i` makes its next step. */
  function Step(s: State, i: nat): State {
    if i < |s.processes| then
      var (disk, p) := Next(s.disk, s.processes[i]);
      State(disk, s.processes[i := p])
    else s
  }

  function Run(s: State, schedule: seq<nat>): State {
    if schedule == [] then s else Step(Run(s, schedule[..|schedule| - 1]), schedule[|schedule| - 1])
  }

  predicate Fresh(disk: Disk, etag: Etag) {
    disk.blob.Some? && disk.sidecar.Some? && disk.sidecar.value.text == etag
  }

  // --- Safety ---------------------------------------------------------------------

  /** A blob that reads as fresh for a version holds that version. */
  ghost predicate Safe(disk: Disk, content: Etag -> Bytes) {
    forall etag :: etag != "" && Fresh(disk, etag) ==> disk.blob.value == content(etag)
  }

  /** It is not halfway through a publication; an eviction may be anywhere. */
  predicate Untouched(p: Process) {
    p.Publisher? ==> p.pc == 0
  }

  /** Publishers that have not begun, all of the same bytes, which are those of
      their versions; and any evictors. */
  ghost predicate Agree(processes: seq<Process>, bytes: Bytes, length: nat, content: Etag -> Bytes) {
    forall i: nat :: i < |processes| && processes[i].Publisher? ==>
      processes[i].bytes == bytes && content(processes[i].etag) == bytes && |processes[i].etag| == length
  }

  ghost predicate Starting(s: State, bytes: Bytes, length: nat, content: Etag -> Bytes) {
    && Safe(s.disk, content)
    && Agree(s.processes, bytes, length, content)
    && forall i: nat :: i < |s.processes| ==> Untouched(s.processes[i])
  }

  predicate HasRenamed(s: State) {
    exists i: nat :: i < |s.processes| && s.processes[i].Publisher? && s.processes[i].pc >= 2
  }

  /** Before the first rename the disk is the old one, or less; after it, the blob
      is the publishers' and the sidecar is theirs, whole or still empty. */
  ghost predicate Inv(s: State, prior: Disk, bytes: Bytes, length: nat, content: Etag -> Bytes) {
    && Agree(s.processes, bytes, length, content)
    && if HasRenamed(s) then
         && (s.disk.blob.Some? ==> s.disk.blob.value == bytes)
         && (s.disk.sidecar.Some? ==> Whole(s.disk.sidecar.value.text, bytes, length, content))
       else
         && (s.disk.blob.Some? ==> s.disk.blob == prior.blob)
         && (s.disk.sidecar.Some? ==> s.disk.sidecar == prior.sidecar)
         && (s.disk.sidecar.Some? ==> forall i: nat :: i < |s.processes| && s.processes[i].Publisher? ==>
             s.processes[i].pc == 0)
  }

  predicate Whole(text: string, bytes: Bytes, length: nat, content: Etag -> Bytes) {
    text == "" || (content(text) == bytes && |text| == length)
  }

  lemma InvIsSafe(s: State, prior: Disk, bytes: Bytes, length: nat, content: Etag -> Bytes)
    requires Safe(prior, content) && Inv(s, prior, bytes, length, content)
    ensures Safe(s.disk, content)
  {
    forall etag | etag != "" && Fresh(s.disk, etag) ensures s.disk.blob.value == content(etag) {
      if !HasRenamed(s) {
        assert Fresh(prior, etag);
      }
    }
  }

  lemma StepKeeps(s: State, i: nat, prior: Disk, bytes: Bytes, length: nat, content: Etag -> Bytes)
    requires Inv(s, prior, bytes, length, content)
    ensures Inv(Step(s, i), prior, bytes, length, content)
  {
    if i < |s.processes| {
      var n, p := Step(s, i), s.processes[i];
      forall j: nat | j < |n.processes| && n.processes[j].Publisher?
        ensures n.processes[j].bytes == bytes && content(n.processes[j].etag) == bytes
                  && |n.processes[j].etag| == length
      {
        assert s.processes[j].Publisher?;
      }
      if HasRenamed(s) {
        var j: nat :| j < |s.processes| && s.processes[j].Publisher? && s.processes[j].pc >= 2;
        assert n.processes[j].pc >= 2;
      } else if p.Publisher? && p.pc == 1 {
        assert n.processes[i].pc == 2;
        assert s.disk.sidecar.None?;
      } else {
        assert p.Publisher? ==> p.pc == 0;
        forall j: nat | j < |n.processes| && n.processes[j].Publisher? ensures n.processes[j].pc < 2 {
          assert s.processes[j].Publisher? ==> s.processes[j].pc < 2;
        }
      }
    }
  }

  /** However the publishers of one content and any evictors interleave, and
      wherever they stop, the disk stays safe. */
  lemma {:induction false} PublishersOfOneContentAreSafe(s: State, schedule: seq<nat>, bytes: Bytes, length: nat,
      content: Etag -> Bytes)
    requires Starting(s, bytes, length, content)
    ensures Inv(Run(s, schedule), s.disk, bytes, length, content)
    ensures Safe(Run(s, schedule).disk, content)
  {
    if schedule == [] {
      forall i: nat | i < |s.processes| && s.processes[i].Publisher? ensures s.processes[i].pc == 0 {
        assert Untouched(s.processes[i]);
      }
    } else {
      PublishersOfOneContentAreSafe(s, schedule[..|schedule| - 1], bytes, length, content);
      StepKeeps(Run(s, schedule[..|schedule| - 1]), schedule[|schedule| - 1], s.disk, bytes, length, content);
    }
    InvIsSafe(Run(s, schedule), s.disk, bytes, length, content);
  }

  /** One publisher at a time: whatever state the last one left or crashed in,
      the next one finds a safe disk, whatever it publishes and however far the
      evictions beside it have come. */
  lemma OneAfterAnotherIsSafe(s: State, schedule: seq<nat>, bytes: Bytes, length: nat, content: Etag -> Bytes,
                              next: seq<Process>, more: Bytes, longer: nat)
    requires Starting(s, bytes, length, content)
    requires Agree(next, more, longer, content) && forall i: nat :: i < |next| ==> Untouched(next[i])
    ensures Starting(State(Run(s, schedule).disk, next), more, longer, content)
  {
    PublishersOfOneContentAreSafe(s, schedule, bytes, length, content);
  }

  // --- One process alone ----------------------------------------------------------

  function Times(n: nat): seq<nat> {
    seq(n, _ => 0)
  }

  lemma OnceMore(s: State, n: nat)
    ensures Run(s, Times(0)) == s && Run(s, Times(n + 1)) == Step(Run(s, Times(n)), 0)
  {
    assert Times(n + 1)[..n] == Times(n);
  }

  /** A publisher that nobody disturbs leaves nothing fresh while it is halfway, and
      exactly its own version once it is done: its bytes under its ETag, which no
      further step changes. */
  lemma {:induction false} AlonePublishesExactly(disk: Disk, etag: Etag, bytes: Bytes, n: nat, any: Etag)
    requires n > 0 && any != ""
    ensures var end := Run(State(disk, [Beginning(etag, bytes)]), Times(n)).disk;
            if n < 4 then !Fresh(end, any)
            else end.blob == Some(bytes) && (Fresh(end, any) <==> any == etag)
    ensures n >= 4 ==> Run(State(disk, [Beginning(etag, bytes)]), Times(n)).processes == [
                Publisher(etag, bytes, 4, disk.files)]
  {
    var s := State(disk, [Beginning(etag, bytes)]);
    OnceMore(s, n - 1);
    if n > 4 {
      AlonePublishesExactly(disk, etag, bytes, n - 1, any);
    } else {
      OnceMore(s, 0);
      OnceMore(s, 1);
      OnceMore(s, 2);
    }
  }

  /** An eviction that nobody disturbs takes the blob, and with it whatever was fresh,
      before the sidecar, and leaves neither. */
  lemma AloneEvicts(disk: Disk, etag: Etag)
    ensures !Fresh(Run(State(disk, [Evictor(0)]), Times(1)).disk, etag)
    ensures Run(State(disk, [Evictor(0)]), Times(1)).disk.sidecar == disk.sidecar
    ensures Run(State(disk, [Evictor(0)]), Times(2)).disk == Disk(None, None, disk.files)
  {
    OnceMore(State(disk, [Evictor(0)]), 0);
    OnceMore(State(disk, [Evictor(0)]), 1);
  }

  // --- Two publishers -------------------------------------------------------------

  function Beginning(etag: Etag, bytes: Bytes): Process {
    Publisher(etag, bytes, 0, 0)
  }

  ghost predicate AlwaysSafe(s: State, content: Etag -> Bytes) {
    forall schedule :: Safe(Run(s, schedule).disk, content)
  }

  /** Both sidecars go, both renames come, and the sidecar of the first is
      written last. */
  function Crossing(): seq<nat> {
    [0, 1, 0, 1, 1, 1, 0, 0]
  }

  /** Two publishers beside each other are safe iff they publish the same bytes. */
  lemma TwoPublishersAreSafeExactly(disk: Disk, first: Etag, second: Etag, content: Etag -> Bytes)
    requires Safe(disk, content) && first != "" && |first| == |second|
    ensures AlwaysSafe(State(disk, [Beginning(first, content(first)), Beginning(second, content(second))]), content)
            <==> content(first) == content(second)
  {
    var s := State(disk, [Beginning(first, content(first)), Beginning(second, content(second))]);
    if content(first) == content(second) {
      forall schedule ensures Safe(Run(s, schedule).disk, content) {
        PublishersOfOneContentAreSafe(s, schedule, content(first), |first|, content);
      }
    } else {
      var end := CrossingMixes(disk, first, second, content);
      assert Fresh(end, first);
      assert !Safe(Run(s, Crossing()).disk, content);
    }
  }

  lemma CrossingMixes(disk: Disk, first: Etag, second: Etag, content: Etag -> Bytes) returns (end: Disk)
    requires |first| == |second|
    ensures end == Run(State(disk, [Beginning(first, content(first)), Beginning(second, content(second))]),
              Crossing()).disk
    ensures end.blob == Some(content(second)) && end.sidecar.Some? && end.sidecar.value.text == first
  {
    var s := State(disk, [Beginning(first, content(first)), Beginning(second, content(second))]);
    var c := Crossing();
    BothRenamed(disk, first, second, content);
    SecondIsDone(Run(s, c[..4]), first, second, content);
    RunPrefix(s, c, 4);
    RunPrefix(s, c, 5);
    RunPrefix(s, c, 6);
    RunPrefix(s, c, 7);
    assert c[..8] == c;
    end := Run(s, c).disk;
  }

  lemma BothRenamed(disk: Disk, first: Etag, second: Etag, content: Etag -> Bytes)
    ensures var half := Run(State(disk, [Beginning(first, content(first)), Beginning(second, content(second))]),
              Crossing()[..4]);
            && half.disk == Disk(Some(content(second)), None, disk.files)
            && half.processes == [Beginning(first, content(first)).(pc := 2),
                Beginning(second, content(second)).(pc := 2)]
  {
    var s := State(disk, [Beginning(first, content(first)), Beginning(second, content(second))]);
    RunPrefix(s, Crossing(), 0);
    RunPrefix(s, Crossing(), 1);
    RunPrefix(s, Crossing(), 2);
    RunPrefix(s, Crossing(), 3);
  }

  lemma SecondIsDone(half: State, first: Etag, second: Etag, content: Etag -> Bytes)
    requires |first| == |second| && half.disk.blob == Some(content(second)) && half.disk.sidecar.None?
    requires half.processes == [Beginning(first, content(first)).(pc := 2),
               Beginning(second, content(second)).(pc := 2)]
    ensures var end := Step(Step(Step(Step(half, 1), 1), 0), 0).disk;
            end.blob == Some(content(second)) && end.sidecar.Some? && end.sidecar.value.text == first
  {
    var done := Step(Step(half, 1), 1);
    assert done.disk.sidecar.value.text == second;
  }

  lemma RunPrefix(s: State, schedule: seq<nat>, k: nat)
    requires k < |schedule|
    ensures Run(s, schedule[..k + 1]) == Step(Run(s, schedule[..k]), schedule[k])
    ensures Run(s, schedule[..0]) == s
  {
    assert schedule[..k + 1][..k] == schedule[..k];
  }

  // --- The empty ETag -------------------------------------------------------------

  /** The promise for one row's ETag, the empty one of a row that names no version
      included. */
  predicate SafeFor(disk: Disk, row: Etag, content: Etag -> Bytes) {
    Fresh(disk, row) ==> disk.blob.value == content(row)
  }

  /** One publisher, from any disk on which the promise holds, up to any moment. */
  ghost predicate StaysSafeFor(row: Etag, etag: Etag, content: Etag -> Bytes) {
    forall disk, schedule :: Safe(disk, content) && SafeFor(disk, row, content) ==>
      SafeFor(Run(State(disk, [Beginning(etag, content(etag))]), schedule).disk, row, content)
  }

  /** A publisher that crashes between creating the sidecar and writing it leaves
      an empty one, which matches a row that names no version: the promise is kept
      at every crash iff the row names one, or means just these bytes by none. */
  lemma EmptySidecarMatchesNoVersionExactly(row: Etag, etag: Etag, content: Etag -> Bytes)
    ensures StaysSafeFor(row, etag, content) <==> row != "" || content(etag) == content("")
  {
    if row != "" || content(etag) == content("") {
      forall disk, schedule | Safe(disk, content) && SafeFor(disk, row, content)
        ensures SafeFor(Run(State(disk, [Beginning(etag, content(etag))]), schedule).disk, row, content)
      {
        var s := State(disk, [Beginning(etag, content(etag))]);
        PublishersOfOneContentAreSafe(s, schedule, content(etag), |etag|, content);
      }
    } else {
      CrashBeforeTheSidecarIsWritten(Disk(None, None, 0), etag, content);
    }
  }

  lemma CrashBeforeTheSidecarIsWritten(disk: Disk, etag: Etag, content: Etag -> Bytes)
    ensures var s := Run(State(disk, [Beginning(etag, content(etag))]), [0, 0, 0]);
            Fresh(s.disk, "") && s.disk.blob == Some(content(etag))
  {
    var s, c: seq<nat> := State(disk, [Beginning(etag, content(etag))]), [0, 0, 0];
    RunPrefix(s, c, 0);
    RunPrefix(s, c, 1);
    RunPrefix(s, c, 2);
    assert c[..3] == c;
  }

  // --- A reader between the check and the open ------------------------------------

  /** The renames between two moments of a run. */
  function Renames(s: State, schedule: seq<nat>): nat {
    if schedule == [] then 0
    else
      var init, i := schedule[..|schedule| - 1], schedule[|schedule| - 1];
      var before := Run(s, init);
      Renames(s, init)
      + if i < |before.processes| && before.processes[i].Publisher? && before.processes[i].pc == 1 then 1 else 0
  }

  lemma {:induction false} BlobIsOldOrRenamed(s: State, schedule: seq<nat>, bytes: Bytes, length: nat,
                                              content: Etag -> Bytes)
    requires Agree(s.processes, bytes, length, content)
    ensures Agree(Run(s, schedule).processes, bytes, length, content)
    ensures Run(s, schedule).disk.blob.Some? ==>
              Run(s, schedule).disk.blob == if Renames(s, schedule) == 0 then s.disk.blob else Some(bytes)
  {
    if schedule != [] {
      BlobIsOldOrRenamed(s, schedule[..|schedule| - 1], bytes, length, content);
      var m, i := Run(s, schedule[..|schedule| - 1]), schedule[|schedule| - 1];
      forall j: nat | j < |Step(m, i).processes| && Step(m, i).processes[j].Publisher?
        ensures Step(m, i).processes[j].bytes == bytes && content(Step(m, i).processes[j].etag) == bytes
                  && |Step(m, i).processes[j].etag| == length
      {
        assert m.processes[j].Publisher?;
      }
      assert i < |m.processes| && m.processes[i].Publisher? ==> m.processes[i].bytes == bytes;
    }
  }

  /** A reader that found the blob fresh and opens it later, if it is still
      there, reads its version iff no other content was renamed in between. */
  lemma CheckedBlobIsReadExactly(s: State, schedule: seq<nat>, etag: Etag, bytes: Bytes, length: nat,
                                 content: Etag -> Bytes)
    requires Safe(s.disk, content) && Agree(s.processes, bytes, length, content)
    requires etag != "" && Fresh(s.disk, etag) && Run(s, schedule).disk.blob.Some?
    ensures Run(s, schedule).disk.blob.value == content(etag) <==> Renames(s, schedule) == 0 || bytes == content(etag)
  {
    BlobIsOldOrRenamed(s, schedule, bytes, length, content);
  }
}

/** Cache eviction (`evict` in `content.rs`): age first, then the least recently
    used down to the size budget. */
module Evict {
  import opened Common

  /** A file in the cache directory. `blob` is a regular file without an
      extension, `pinned` says its pin marker is there, `id` is what its name
      reads as. */
  datatype Info = Info(blob: bool, pinned: bool, id: Option<nat>, size: nat, mtime: nat)

  datatype Blob = Blob(name: string, id: Option<nat>, size: nat, mtime: nat)

  predicate Evictable(info: Info) {
    info.blob && !info.pinned
  }

  function AsBlob(name: string, info: Info): Blob {
    Blob(name, info.id, info.size, info.mtime)
  }

  /** What eviction may touch, in the order of the directory listing. */
  function Listed(files: map<string, Info>, order: seq<string>): seq<Blob>
    requires forall n :: n in order ==> n in files
  {
    if order == [] then []
    else
      var n := order[|order| - 1];
      Listed(files, order[..|order| - 1]) + if Evictable(files[n]) then [AsBlob(n, files[n])] else []
  }

  function Total(blobs: seq<Blob>): nat {
    if blobs == [] then 0 else blobs[0].size + Total(blobs[1..])
  }

  function Ids(blobs: seq<Blob>): seq<nat> {
    if blobs == [] then []
    else Ids(blobs[..|blobs| - 1]) + if blobs[|blobs| - 1].id.Some? then [blobs[|blobs| - 1].id.value] else []
  }

  function Names(blobs: seq<Blob>): set<string> {
    set i | 0 <= i < |blobs| :: blobs[i].name
  }

  /** Unused for longer than the limit; a time in the future counts as now. */
  predicate Stale(b: Blob, maxAge: Option<nat>, now: nat) {
    maxAge.Some? && b.mtime < now && now - b.mtime > maxAge.value
  }

  predicate PastLimit(info: Info, maxAge: Option<nat>, now: nat) {
    maxAge.Some? && info.mtime < now && now - info.mtime > maxAge.value
  }

  /** No blob that eviction may touch, and left, was used before `mtime`. */
  ghost predicate NoneLeftOlder(mtime: nat, files: map<string, Info>) {
    forall n :: n in files && files[n].blob && !files[n].pinned ==> mtime <= files[n].mtime
  }

  predicate Gone(before: map<string, Info>, after: map<string, Info>, n: string) {
    n in before && n !in after
  }

  ghost predicate OldestFirst(blobs: seq<Blob>) {
    forall i, j :: 0 <= i < j < |blobs| ==> blobs[i].mtime <= blobs[j].mtime
  }

  ghost predicate NoneOlder(a: seq<Blob>, b: seq<Blob>) {
    forall i, j :: 0 <= i < |a| && 0 <= j < |b| ==> a[i].mtime <= b[j].mtime
  }

  // --- The directory ----------------------------------------------------------------

  /** The listing names every file of the directory, and each once. */
  ghost predicate ListsAll(files: map<string, Info>, order: seq<string>) {
    && (forall n :: n in order <==> n in files)
    && forall i, j :: 0 <= i < j < |order| ==> order[i] != order[j]
  }

  /** This blob is a file of the directory that eviction may touch. */
  ghost predicate Present(files: map<string, Info>, b: Blob) {
    b.name in files && Evictable(files[b.name]) && b == AsBlob(b.name, files[b.name])
  }

  /** The bytes of everything in the directory that eviction may touch. */
  ghost function EvictableSize(files: map<string, Info>): nat {
    if files == map[] then 0
    else var n :| n in files; SizeIfEvictable(files[n]) + EvictableSize(files - {n})
  }

  function SizeIfEvictable(info: Info): nat {
    if info.blob && !info.pinned then info.size else 0
  }

  /** One more file counts with its size if it is a blob that is not pinned, and
      with nothing otherwise. */
  lemma OnlyUnpinnedBlobsCount(files: map<string, Info>, n: string, info: Info)
    requires n !in files
    ensures EvictableSize(map[]) == 0
    ensures EvictableSize(files[n := info]) == EvictableSize(files) + if info.blob && !info.pinned then info.size else 0
  {
    SizeWithout(files[n := info], n);
    assert files[n := info] - {n} == files;
  }

  lemma {:induction false} SizeWithout(files: map<string, Info>, n: string)
    requires n in files
    ensures EvictableSize(files) == SizeIfEvictable(files[n]) + EvictableSize(files - {n})
    decreases |files|
  {
    var m :| m in files && EvictableSize(files) == SizeIfEvictable(files[m]) + EvictableSize(files - {m});
    if m != n {
      SizeWithout(files - {m}, n);
      SizeWithout(files - {n}, m);
      assert files - {m} - {n} == files - {n} - {m};
    }
  }

  lemma {:induction false} NothingEvictable(files: map<string, Info>)
    requires forall n :: n in files ==> !Evictable(files[n])
    ensures EvictableSize(files) == 0
    decreases |files|
  {
    if files != map[] {
      var n :| n in files;
      SizeWithout(files, n);
      NothingEvictable(files - {n});
    }
  }

  /** Blobs that are the evictable files, each once, have their size. */
  lemma {:induction false} SizeIsTotal(files: map<string, Info>, blobs: seq<Blob>)
    requires forall b :: multiset(blobs)[b] == if Present(files, b) then 1 else 0
    ensures EvictableSize(files) == Total(blobs)
    decreases |blobs|
  {
    if blobs == [] {
      forall n | n in files ensures !Evictable(files[n]) {
        assert multiset(blobs)[AsBlob(n, files[n])] == 0;
      }
      NothingEvictable(files);
    } else {
      var first, rest := blobs[0], blobs[1..];
      assert blobs == [first] + rest;
      assert Present(files, first);
      var left := files - {first.name};
      forall b ensures multiset(rest)[b] == if Present(left, b) then 1 else 0 {
        assert multiset(blobs)[b] == if Present(files, b) then 1 else 0;
      }
      SizeIsTotal(left, rest);
      SizeWithout(files, first.name);
    }
  }

  lemma {:induction false} ListedOnce(files: map<string, Info>, order: seq<string>, b: Blob)
    requires forall n :: n in order ==> n in files
    requires forall i, j :: 0 <= i < j < |order| ==> order[i] != order[j]
    ensures multiset(Listed(files, order))[b] == if b.name in order && Present(files, b) then 1 else 0
    decreases |order|
  {
    if order != [] {
      var init, n := order[..|order| - 1], order[|order| - 1];
      assert order == init + [n];
      ListedOnce(files, init, b);
    }
  }

  lemma {:induction false} TotalOfConcat(a: seq<Blob>, b: seq<Blob>)
    ensures Total(a + b) == Total(a) + Total(b)
  {
    if a == [] {
      assert a + b == b;
    } else {
      assert (a + b)[1..] == a[1..] + b;
      TotalOfConcat(a[1..], b);
    }
  }

  lemma InsertedIsAdded(sorted: seq<Blob>, at: nat, b: Blob)
    requires at <= |sorted|
    ensures multiset(sorted[..at] + [b] + sorted[at..]) == multiset(sorted) + multiset{b}
    ensures Total(sorted[..at] + [b] + sorted[at..]) == Total(sorted) + b.size
  {
    InsertedTotal(sorted[..at], b, sorted[at..]);
    hide Total;
    assert sorted == sorted[..at] + sorted[at..];
  }

  lemma InsertedTotal(front: seq<Blob>, b: Blob, back: seq<Blob>)
    ensures Total(front + [b] + back) == Total(front + back) + b.size
  {
    TotalOfConcat(front, back);
    TotalOfConcat(front + [b], back);
    TotalOfConcat(front, [b]);
  }

  lemma InsertedInOrder(sorted: seq<Blob>, at: nat, b: Blob)
    requires OldestFirst(sorted) && at <= |sorted|
    requires forall j :: at <= j < |sorted| ==> sorted[j].mtime > b.mtime
    requires at > 0 ==> sorted[at - 1].mtime <= b.mtime
    ensures OldestFirst(sorted[..at] + [b] + sorted[at..])
  {
    var all := sorted[..at] + [b] + sorted[at..];
    forall i, j | 0 <= i < j < |all| ensures all[i].mtime <= all[j].mtime {
      assert all[i] == if i < at then sorted[i] else if i == at then b else sorted[i - 1];
      assert all[j] == if j < at then sorted[j] else if j == at then b else sorted[j - 1];
    }
  }

  /** Where a blob goes among the sorted ones: behind those as old as itself. */
  method Place(sorted: seq<Blob>, b: Blob) returns (at: nat)
    requires OldestFirst(sorted)
    ensures at <= |sorted|
    ensures forall j :: at <= j < |sorted| ==> sorted[j].mtime > b.mtime
    ensures at > 0 ==> sorted[at - 1].mtime <= b.mtime
  {
    at := |sorted|;
    while at > 0 && sorted[at - 1].mtime > b.mtime
      invariant at <= |sorted|
      invariant forall j :: at <= j < |sorted| ==> sorted[j].mtime > b.mtime
    {
      at := at - 1;
    }
  }

  /** A stable sort by age. */
  method SortByAge(blobs: seq<Blob>) returns (sorted: seq<Blob>)
    ensures multiset(sorted) == multiset(blobs) && Total(sorted) == Total(blobs)
    ensures OldestFirst(sorted)
  {
    hide OldestFirst, Total;
    sorted := [];
    EmptyIsInOrder();
    var i := 0;
    while i < |blobs|
      invariant i <= |blobs| && multiset(sorted) == multiset(blobs[..i]) && Total(sorted) == Total(blobs[..i])
      invariant OldestFirst(sorted)
    {
      var at := Place(sorted, blobs[i]);
      InsertedInOrder(sorted, at, blobs[i]);
      InsertedIsAdded(sorted, at, blobs[i]);
      OneMoreBlob(blobs, i);
      sorted := sorted[..at] + [blobs[i]] + sorted[at..];
      i := i + 1;
    }
    assert blobs[..i] == blobs;
  }

  lemma OneMoreBlob(blobs: seq<Blob>, i: nat)
    requires i < |blobs|
    ensures Total(blobs[..i + 1]) == Total(blobs[..i]) + blobs[i].size
    ensures multiset(blobs[..i + 1]) == multiset(blobs[..i]) + multiset{blobs[i]}
  {
    TotalOfConcat(blobs[..i], [blobs[i]]);
    assert blobs[..i + 1] == blobs[..i] + [blobs[i]];
  }

  lemma EmptyIsInOrder()
    ensures OldestFirst([]) && Total([]) == 0
  {
  }

  /** The blobs within the age limit, and those beyond it. */
  method SplitByAge(blobs: seq<Blob>, maxAge: Option<nat>, now: nat) returns (young: seq<Blob>, expired: seq<Blob>)
    ensures multiset(young) + multiset(expired) == multiset(blobs)
    ensures forall b :: b in young ==> !Stale(b, maxAge, now)
    ensures forall b :: b in expired ==> Stale(b, maxAge, now)
  {
    young, expired := [], [];
    var i := 0;
    while i < |blobs|
      invariant i <= |blobs| && multiset(young) + multiset(expired) == multiset(blobs[..i])
      invariant forall b :: b in young ==> !Stale(b, maxAge, now)
      invariant forall b :: b in expired ==> Stale(b, maxAge, now)
    {
      assert blobs[..i + 1] == blobs[..i] + [blobs[i]];
      if Stale(blobs[i], maxAge, now) {
        expired := expired + [blobs[i]];
      } else {
        young := young + [blobs[i]];
      }
      i := i + 1;
    }
    assert blobs[..i] == blobs;
  }

  method Size(blobs: seq<Blob>) returns (total: nat)
    ensures total == Total(blobs)
  {
    total := 0;
    var i := 0;
    while i < |blobs|
      invariant i <= |blobs| && total == Total(blobs[..i])
    {
      assert blobs[..i + 1] == blobs[..i] + [blobs[i]];
      TotalOfConcat(blobs[..i], [blobs[i]]);
      total, i := total + blobs[i].size, i + 1;
    }
    assert blobs[..i] == blobs;
  }

  /** How many of the oldest must go for the rest to fit. The running total is
      always the sum of what remains. */
  method Overflow(sorted: seq<Blob>, sum: nat, max: nat) returns (k: nat)
    requires sum == Total(sorted)
    ensures k <= |sorted|
    ensures Total(sorted[k..]) <= max
    ensures k > 0 ==> Total(sorted[k..]) + sorted[k - 1].size > max
  {
    var total := sum;
    k := 0;
    assert sorted[0..] == sorted;
    while k < |sorted| && total > max
      invariant k <= |sorted| && total == Total(sorted[k..])
      invariant k > 0 ==> total + sorted[k - 1].size > max
    {
      assert sorted[k..][1..] == sorted[k + 1..];
      total, k := total - sorted[k].size, k + 1;
    }
    if k == |sorted| {
      assert sorted[k..] == [];
    }
  }

  class BlobDir {
    var files: map<string, Info>

    constructor (files: map<string, Info>)
      ensures this.files == files
    {
      this.files := files;
    }

    method Collect(order: seq<string>) returns (blobs: seq<Blob>)
      requires forall n :: n in order ==> n in files
      ensures blobs == Listed(files, order)
    {
      blobs := [];
      var i := 0;
      while i < |order|
        invariant i <= |order| && blobs == Listed(files, order[..i])
      {
        assert order[..i + 1][..i] == order[..i];
        if Evictable(files[order[i]]) {
          blobs := blobs + [AsBlob(order[i], files[order[i]])];
        }
        i := i + 1;
      }
      assert order[..i] == order;
    }

    /** Remove blobs, saying which files they were. */
    method EvictBlobs(blobs: seq<Blob>) returns (evicted: seq<nat>)
      modifies this
      ensures files == old(files) - Names(blobs)
      ensures evicted == Ids(blobs)
    {
      evicted := [];
      var i := 0;
      while i < |blobs|
        invariant i <= |blobs|
        invariant files == old(files) - Names(blobs[..i]) && evicted == Ids(blobs[..i])
      {
        assert blobs[..i + 1][..i] == blobs[..i];
        assert Names(blobs[..i + 1]) == Names(blobs[..i]) + {blobs[i].name} by {
          assert blobs[..i + 1] == blobs[..i] + [blobs[i]];
        }
        files := files - {blobs[i].name};
        evicted := evicted + if blobs[i].id.Some? then [blobs[i].id.value] else [];
        i := i + 1;
      }
      assert blobs[..i] == blobs;
    }

    /** Eviction, in terms of the files. */
    method Evict(order: seq<string>, maxBytes: Option<nat>, maxAge: Option<nat>, now: nat) returns (evicted: seq<nat>)
      requires ListsAll(files, order)
      modifies this
      // Files are removed or left as they were, and what is pinned or no blob stays.
      ensures forall n :: n in files ==> n in old(files) && files[n] == old(files)[n]
      ensures forall n :: n in old(files) && (old(files)[n].pinned || !old(files)[n].blob) ==>
                n in files && files[n] == old(files)[n]
      // Of the other blobs none unused for longer than the limit is left, and those
      // left fit the budget.
      ensures forall n :: n in files && files[n].blob && !files[n].pinned && maxAge.Some? && files[n].mtime < now ==>
                now - files[n].mtime <= maxAge.value
      ensures maxBytes.Some? ==> EvictableSize(files) <= maxBytes.value
      ensures GoneForAReason(old(files), files, maxBytes, maxAge, now)
      // The ids returned are those of the files that are gone.
      ensures forall id: nat ::
                id in evicted <==> exists n :: Gone(old(files), files, n) && old(files)[n].id == Some(id)
    {
      ghost var expired, victims, kept;
      evicted, expired, victims, kept := EvictListed(order, maxBytes, maxAge, now);
      hide *;
      InFields(old(files), expired, victims, kept, maxBytes, maxAge, now, files);
      IdsOfGone(old(files), expired, victims, kept, maxBytes, maxAge, now, files);
    }

    /** What is too old goes; then, of the rest, the oldest go until what remains
        fits, and the last of them still had to. Pinned blobs and everything that
        is not a blob are neither touched nor counted. */
    method EvictListed(order: seq<string>, maxBytes: Option<nat>, maxAge: Option<nat>, now: nat)
      returns (evicted: seq<nat>, ghost expired: seq<Blob>, ghost victims: seq<Blob>, ghost kept: seq<Blob>)
      requires ListsAll(files, order)
      modifies this
      ensures multiset(expired) + multiset(victims) + multiset(kept) == multiset(Listed(old(files), order))
      ensures Selected(old(files), expired, victims, kept, maxBytes, maxAge, now, files)
      ensures evicted == Ids(expired) + Ids(victims)
    {
      var blobs := Collect(order);
      ListedAreEvictable(files, order);
      var young, aged := SplitByAge(blobs, maxAge, now);
      expired := aged;
      evicted := EvictBlobs(aged);
      var more: seq<nat>;
      more, victims, kept := EvictOverflow(young, maxBytes);
      evicted := evicted + more;
      hide Listed, Evictable, Stale, OldestFirst, NoneOlder, Total, Ids, Names, Selected, ListsAll, EvictableSize,
          Present;
      PartsAreListed(blobs, expired, young, victims, kept);
      LeftExactly(old(files), order, expired, victims, kept, files);
      assert forall b :: b in expired + victims ==> b in blobs;
      IsSelected(old(files), expired, victims, kept, maxBytes, maxAge, now, files);
    }

    /** The oldest go until what remains fits the budget, if there is one. */
    method EvictOverflow(young: seq<Blob>, maxBytes: Option<nat>)
      returns (evicted: seq<nat>, ghost victims: seq<Blob>, ghost kept: seq<Blob>)
      modifies this
      ensures multiset(victims) + multiset(kept) == multiset(young)
      ensures files == old(files) - Names(victims)
      ensures evicted == Ids(victims)
      ensures maxBytes.None? ==> victims == []
      ensures maxBytes.Some? ==> Total(kept) <= maxBytes.value
      ensures OldestFirst(victims) && NoneOlder(victims, kept)
      ensures victims != [] ==> Total(kept) + victims[|victims| - 1].size > maxBytes.value
    {
      victims, kept, evicted := [], young, [];
      var total := Size(young);
      if maxBytes.Some? && total > maxBytes.value {
        var sorted := SortByAge(young);
        var k := Overflow(sorted, total, maxBytes.value);
        assert sorted == sorted[..k] + sorted[k..];
        victims, kept := sorted[..k], sorted[k..];
        evicted := EvictBlobs(sorted[..k]);
      }
    }
  }

  lemma PartsAreListed(blobs: seq<Blob>, expired: seq<Blob>, young: seq<Blob>, victims: seq<Blob>, kept: seq<Blob>)
    requires multiset(young) + multiset(expired) == multiset(blobs)
    requires multiset(victims) + multiset(kept) == multiset(young)
    ensures forall b :: b in expired ==> b in blobs
    ensures forall b :: b in victims + kept ==> b in young
    ensures forall b :: b in victims ==> b in blobs
  {
    forall b | b in expired ensures b in blobs {
      assert b in multiset(young) + multiset(expired);
    }
    forall b | b in victims + kept ensures b in young {
      assert b in multiset(victims) + multiset(kept);
    }
    forall b | b in victims ensures b in blobs {
      assert b in victims + kept;
      assert b in multiset(young) + multiset(expired);
    }
  }

  /** What is left of the directory is `kept`, each once. */
  lemma LeftExactly(files: map<string, Info>, order: seq<string>, expired: seq<Blob>, victims: seq<Blob>,
                    kept: seq<Blob>, after: map<string, Info>)
    requires ListsAll(files, order)
    requires multiset(expired) + multiset(victims) + multiset(kept) == multiset(Listed(files, order))
    requires after == files - Names(expired) - Names(victims)
    ensures EvictableSize(after) == Total(kept)
    ensures forall n :: n in after && Evictable(after[n]) ==> AsBlob(n, after[n]) in kept
  {
    forall b ensures multiset(kept)[b] == if Present(after, b) then 1 else 0 {
      KeptOrGone(files, order, expired, victims, kept, b);
    }
    hide Listed, Names;
    SizeIsTotal(after, kept);
    forall n | n in after && Evictable(after[n]) ensures AsBlob(n, after[n]) in kept {
      assert multiset(kept)[AsBlob(n, after[n])] == 1;
    }
  }

  /** Whatever is gone was past the limit, or there is a budget and no blob that is
      left is older; and the youngest of these did not fit any more. */
  ghost predicate GoneForAReason(before: map<string, Info>, after: map<string, Info>, maxBytes: Option<nat>,
                                 maxAge: Option<nat>, now: nat) {
    forall n :: Gone(before, after, n) && !PastLimit(before[n], maxAge, now) ==>
      && maxBytes.Some? && NoneLeftOlder(before[n].mtime, after)
      && exists m :: Gone(before, after, m) && !PastLimit(before[m], maxAge, now)
                     && before[m].mtime >= before[n].mtime && EvictableSize(after) + before[m].size > maxBytes.value
  }

  /** The blobs that are too old, those that went for the budget, and the rest, which
      is what is left. */
  ghost predicate Selected(files: map<string, Info>, expired: seq<Blob>, victims: seq<Blob>, kept: seq<Blob>,
                           maxBytes: Option<nat>, maxAge: Option<nat>, now: nat, after: map<string, Info>) {
    && after == files - Names(expired) - Names(victims)
    && (forall n :: n in after && Evictable(after[n]) ==> AsBlob(n, after[n]) in kept)
    && EvictableSize(after) == Total(kept)
    && (forall b :: b in expired + victims ==> Present(files, b))
    && (forall b :: b in expired ==> Stale(b, maxAge, now))
    && (forall b :: b in victims + kept ==> !Stale(b, maxAge, now))
    && (maxBytes.None? ==> victims == [])
    && (maxBytes.Some? ==> Total(kept) <= maxBytes.value)
    && OldestFirst(victims) && NoneOlder(victims, kept)
    && (victims != [] ==> maxBytes.Some? && Total(kept) + victims[|victims| - 1].size > maxBytes.value)
  }

  lemma IsSelected(files: map<string, Info>, expired: seq<Blob>, victims: seq<Blob>, kept: seq<Blob>,
                   maxBytes: Option<nat>, maxAge: Option<nat>, now: nat, after: map<string, Info>)
    requires after == files - Names(expired) - Names(victims)
    requires forall n :: n in after && Evictable(after[n]) ==> AsBlob(n, after[n]) in kept
    requires EvictableSize(after) == Total(kept)
    requires forall b :: b in expired + victims ==> Present(files, b)
    requires forall b :: b in expired ==> Stale(b, maxAge, now)
    requires forall b :: b in victims + kept ==> !Stale(b, maxAge, now)
    requires maxBytes.None? ==> victims == []
    requires maxBytes.Some? ==> Total(kept) <= maxBytes.value
    requires OldestFirst(victims) && NoneOlder(victims, kept)
    requires victims != [] ==> maxBytes.Some? && Total(kept) + victims[|victims| - 1].size > maxBytes.value
    ensures Selected(files, expired, victims, kept, maxBytes, maxAge, now, after)
  {
  }

  /** What eviction removed, in terms of the files. */
  lemma InFields(files: map<string, Info>, expired: seq<Blob>, victims: seq<Blob>, kept: seq<Blob>,
                 maxBytes: Option<nat>, maxAge: Option<nat>, now: nat, after: map<string, Info>)
    requires Selected(files, expired, victims, kept, maxBytes, maxAge, now, after)
    ensures forall n :: n in after ==> n in files && after[n] == files[n]
    ensures forall n :: n in files && (files[n].pinned || !files[n].blob) ==> n in after && after[n] == files[n]
    ensures forall n :: n in after && after[n].blob && !after[n].pinned && maxAge.Some? && after[n].mtime < now ==>
              now - after[n].mtime <= maxAge.value
    ensures maxBytes.Some? ==> EvictableSize(after) <= maxBytes.value
    ensures GoneForAReason(files, after, maxBytes, maxAge, now)
  {
    hide EvictableSize, Total, Names;
    forall n | n in files && (files[n].pinned || !files[n].blob) ensures n in after {
      OnlyListedGo(files, expired, n);
      OnlyListedGo(files, victims, n);
    }
    forall n | n in after && after[n].blob && !after[n].pinned ensures !PastLimit(after[n], maxAge, now) {
      assert AsBlob(n, after[n]) in victims + kept;
    }
    hide PastLimit, GoneForAReason, Stale, OldestFirst, NoneOlder, Selected;
    GoneIfSelected(files, expired, victims, kept, maxBytes, maxAge, now, after);
  }

  lemma GoneIfSelected(files: map<string, Info>, expired: seq<Blob>, victims: seq<Blob>, kept: seq<Blob>,
                       maxBytes: Option<nat>, maxAge: Option<nat>, now: nat, after: map<string, Info>)
    requires Selected(files, expired, victims, kept, maxBytes, maxAge, now, after)
    ensures GoneForAReason(files, after, maxBytes, maxAge, now)
  {
    hide EvictableSize, Selected, NoneLeftOlder, PastLimit;
    forall n | Gone(files, after, n) && !PastLimit(files[n], maxAge, now)
      ensures maxBytes.Some? && NoneLeftOlder(files[n].mtime, after)
      ensures exists m :: Gone(files, after, m) && !PastLimit(files[m], maxAge, now)
                          && files[m].mtime >= files[n].mtime && EvictableSize(after) + files[m].size > maxBytes.value
    {
      var m := LastOfTheGone(files, expired, victims, kept, maxBytes, maxAge, now, after, n);
    }
  }

  /** A file within the limit went for the budget, and `m` was the last of those. */
  lemma LastOfTheGone(files: map<string, Info>, expired: seq<Blob>, victims: seq<Blob>, kept: seq<Blob>,
                      maxBytes: Option<nat>, maxAge: Option<nat>, now: nat, after: map<string, Info>, n: string)
    returns (m: string)
    requires Selected(files, expired, victims, kept, maxBytes, maxAge, now, after)
    requires Gone(files, after, n) && !PastLimit(files[n], maxAge, now)
    ensures maxBytes.Some? && NoneLeftOlder(files[n].mtime, after)
    ensures Gone(files, after, m) && !PastLimit(files[m], maxAge, now)
    ensures files[m].mtime >= files[n].mtime && EvictableSize(after) + files[m].size > maxBytes.value
  {
    hide EvictableSize, Total, Names, NoneLeftOlder, NoneOlder;
    forall b | b in expired || b in victims ensures Present(files, b) {
      assert b in expired + victims;
    }
    ExpiredIsPastLimit(files, expired, maxAge, now, n);
    var i := VictimNamed(files, victims, n);
    NoKeptIsOlder(victims, i, kept, after);
    var last := victims[|victims| - 1];
    m := last.name;
    assert last in victims + kept;
    VictimIsGone(victims, |victims| - 1);
    assert Present(files, last);
  }

  lemma NoKeptIsOlder(victims: seq<Blob>, i: nat, kept: seq<Blob>, after: map<string, Info>)
    requires i < |victims| && NoneOlder(victims, kept)
    requires forall n :: n in after && Evictable(after[n]) ==> AsBlob(n, after[n]) in kept
    ensures NoneLeftOlder(victims[i].mtime, after)
  {
    forall m | m in after && after[m].blob && !after[m].pinned ensures victims[i].mtime <= after[m].mtime {
      var j :| 0 <= j < |kept| && kept[j] == AsBlob(m, after[m]);
      assert victims[i].mtime <= kept[j].mtime;
    }
  }

  lemma OnlyListedGo(files: map<string, Info>, gone: seq<Blob>, n: string)
    requires forall b :: b in gone ==> Present(files, b)
    ensures n in Names(gone) ==> n in files && Evictable(files[n])
  {
    if n in Names(gone) {
      var i :| 0 <= i < |gone| && gone[i].name == n;
      assert gone[i] in gone;
    }
  }

  lemma ExpiredIsPastLimit(files: map<string, Info>, expired: seq<Blob>, maxAge: Option<nat>, now: nat, n: string)
    requires forall b :: b in expired ==> Present(files, b) && Stale(b, maxAge, now)
    ensures n in Names(expired) ==> n in files && PastLimit(files[n], maxAge, now)
  {
    if n in Names(expired) {
      var i :| 0 <= i < |expired| && expired[i].name == n;
      assert expired[i] in expired;
    }
  }

  lemma VictimIsGone(victims: seq<Blob>, i: nat)
    requires i < |victims|
    ensures victims[i].name in Names(victims)
  {
  }

  lemma VictimNamed(files: map<string, Info>, victims: seq<Blob>, n: string) returns (i: nat)
    requires n in Names(victims)
    requires forall b :: b in victims ==> Present(files, b)
    ensures n in files && i < |victims| && victims[i] == AsBlob(n, files[n])
  {
    i :| 0 <= i < |victims| && victims[i].name == n;
    assert victims[i] in victims;
  }

  lemma {:induction false} IdIsListed(blobs: seq<Blob>, id: nat)
    ensures id in Ids(blobs) <==> exists b :: b in blobs && b.id == Some(id)
  {
    if blobs != [] {
      var init, last := blobs[..|blobs| - 1], blobs[|blobs| - 1];
      IdIsListed(init, id);
      assert blobs == init + [last];
    }
  }

  lemma IdOfSomeName(files: map<string, Info>, blobs: seq<Blob>, id: nat)
    requires forall b :: b in blobs ==> Present(files, b)
    ensures id in Ids(blobs) <==> exists n :: n in files && n in Names(blobs) && files[n].id == Some(id)
  {
    hide Ids;
    IdIsListed(blobs, id);
    if id in Ids(blobs) {
      var i :| 0 <= i < |blobs| && blobs[i].id == Some(id);
      assert Present(files, blobs[i]) && blobs[i].name in Names(blobs);
    }
    if n :| n in files && n in Names(blobs) && files[n].id == Some(id) {
      var i := VictimNamed(files, blobs, n);
      assert blobs[i] in blobs;
    }
  }

  lemma IdsOfGone(files: map<string, Info>, expired: seq<Blob>, victims: seq<Blob>, kept: seq<Blob>,
                  maxBytes: Option<nat>, maxAge: Option<nat>, now: nat, after: map<string, Info>)
    requires Selected(files, expired, victims, kept, maxBytes, maxAge, now, after)
    ensures forall id: nat :: id in Ids(expired) + Ids(victims) <==>
              exists n :: Gone(files, after, n) && files[n].id == Some(id)
  {
    hide Ids, Names, EvictableSize, Total, OldestFirst, NoneOlder, Stale;
    forall b | b in expired || b in victims ensures Present(files, b) {
      assert b in expired + victims;
    }
    forall id: nat
      ensures id in Ids(expired) + Ids(victims) <==> exists n :: Gone(files, after, n) && files[n].id == Some(id)
    {
      IdOfSomeName(files, expired, id);
      IdOfSomeName(files, victims, id);
      assert forall n :: Gone(files, after, n) <==> n in files && (n in Names(expired) || n in Names(victims));
    }
  }

  lemma KeptOrGone(files: map<string, Info>, order: seq<string>, expired: seq<Blob>, victims: seq<Blob>,
                   kept: seq<Blob>, b: Blob)
    requires ListsAll(files, order)
    requires multiset(expired) + multiset(victims) + multiset(kept) == multiset(Listed(files, order))
    ensures multiset(kept)[b] == if Present(files - Names(expired) - Names(victims), b) then 1 else 0
  {
    var all := multiset(Listed(files, order));
    ListedOnce(files, order, b);
    assert all[b] == multiset(expired)[b] + multiset(victims)[b] + multiset(kept)[b];
    hide Listed;
    if b.name in files && b == AsBlob(b.name, files[b.name]) && Evictable(files[b.name]) {
      GoneIfNamed(files, order, expired, b);
      GoneIfNamed(files, order, victims, b);
    }
  }

  lemma GoneIfNamed(files: map<string, Info>, order: seq<string>, gone: seq<Blob>, b: Blob)
    requires ListsAll(files, order) && Present(files, b)
    requires multiset(gone) <= multiset(Listed(files, order))
    ensures b.name in Names(gone) <==> b in gone
  {
    if b.name in Names(gone) {
      var i :| 0 <= i < |gone| && gone[i].name == b.name;
      assert multiset(gone)[gone[i]] >= 1;
      ListedOnce(files, order, gone[i]);
    }
  }

  lemma {:induction false} ListedAreEvictable(files: map<string, Info>, order: seq<string>)
    requires forall n :: n in order ==> n in files
    ensures forall b :: b in Listed(files, order) ==>
              b.name in files && Evictable(files[b.name]) && b == AsBlob(b.name, files[b.name])
  {
    if order != [] {
      ListedAreEvictable(files, order[..|order| - 1]);
    }
  }
}

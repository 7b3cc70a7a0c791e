/** The syncer of `provider.rs` as it runs: a walk that takes its listings one
    request at a time, between which other clients change the server and the
    machine reports what it is busy with. */
module MirrorSync {
  import opened Common
  import opened Activity
  import opened MirrorRows
  import opened MirrorWalk
  import opened MirrorStages

  /** One line of a PROPFIND answer. */
  datatype RemoteEntry = RemoteEntry(name: Name, entry: Entry)

  function AsListing(entries: seq<RemoteEntry>): Listing {
    if entries == [] then map[]
    else
      var last := entries[|entries| - 1];
      AsListing(entries[..|entries| - 1])[last.name := last.entry]
  }

  ghost predicate Distinct(entries: seq<RemoteEntry>) {
    forall i, j :: 0 <= i < j < |entries| ==> entries[i].name != entries[j].name
  }

  ghost function NamesOf(entries: seq<RemoteEntry>): (names: set<Name>)
    ensures entries == [] ==> names == {}
  {
    set i | 0 <= i < |entries| :: entries[i].name
  }

  lemma {:induction false} ListingHasTheLines(entries: seq<RemoteEntry>)
    requires Distinct(entries)
    ensures AsListing(entries).Keys == NamesOf(entries)
    ensures forall i :: 0 <= i < |entries| ==> AsListing(entries)[entries[i].name] == entries[i].entry
  {
    if entries != [] {
      var init := entries[..|entries| - 1];
      ListingHasTheLines(init);
      assert forall i :: 0 <= i < |init| ==> entries[i].name == init[i].name;
      assert NamesOf(entries) == NamesOf(init) + {entries[|entries| - 1].name};
    }
  }

  lemma NamesGrow(entries: seq<RemoteEntry>, i: nat)
    requires Distinct(entries) && i < |entries|
    ensures NamesOf(entries[..i + 1]) == NamesOf(entries[..i]) + {entries[i].name}
    ensures entries[i].name !in NamesOf(entries[..i])
  {
    assert forall j :: 0 <= j < i ==> entries[..i][j] == entries[..i + 1][j];
    assert entries[..i + 1][i] == entries[i];
  }

  /** Everything outside this thread: the server with its other clients, and the
      machine with its busy reports. */
  class World {
    /** Every state the server goes through, in order. */
    const versions: seq<Node>
    var now: nat
    /** Bumped on every local change of directory membership. */
    var writeEpoch: nat
    const activity: Activity
    /** How many listings failed. */
    ghost var failures: nat
    /** What each probe of the root's ETag came to. */
    ghost var probes: seq<Option<Etag>>

    ghost predicate Valid()
      reads this, activity
    {
      now < |versions| && activity.Valid()
    }

    constructor (versions: seq<Node>)
      requires versions != []
      ensures Valid() && this.versions == versions && now == 0 && probes == [] && fresh(activity)
    {
      this.versions := versions;
      now, writeEpoch, failures, probes := 0, 0, 0, [];
      activity := new Activity();
    }

    /** Whatever happens elsewhere before the next step of this thread. */
    method Pass()
      requires Valid()
      modifies this, activity
      ensures Valid()
      ensures old(now) <= now && old(writeEpoch) <= writeEpoch && failures == old(failures) && probes == old(probes)
      ensures old(activity.history) <= activity.history
    {
      var later: nat, bumps: nat, reports: nat := *, *, *;
      now := if now + later < |versions| then now + later else now;
      writeEpoch := writeEpoch + bumps;
      while reports > 0
        invariant Valid() && old(now) <= now && old(writeEpoch) <= writeEpoch
        invariant failures == old(failures) && probes == old(probes)
        invariant old(activity.history) <= activity.history
      {
        var busy: set<nat> := *;
        activity.SetBusy(busy);
        reports := reports - 1;
      }
    }

    /** A Depth-1 PROPFIND: the directory's lines as of one moment during the
        request, or a failure. */
    method Propfind(path: Path) returns (r: Result<seq<RemoteEntry>>, ghost at: nat)
      requires Valid()
      modifies this, activity
      ensures Valid()
      ensures old(now) <= at <= now && old(writeEpoch) <= writeEpoch
      ensures failures == old(failures) + (if r.Err? then 1 else 0) && probes == old(probes)
      ensures old(activity.history) <= activity.history
      ensures r.Ok? ==>
                && Distinct(r.value)
                && At(versions[at], path).Some? && At(versions[at], path).value.Dir?
                && AsListing(r.value) == ListingOf(At(versions[at], path).value.kids)
    {
      Pass();
      at := now;
      var node := At(versions[now], path);
      var lost: bool := *;
      if lost || node.None? || node.value.File? {
        r := Err;
        failures := failures + 1;
      } else {
        var lines := Lines(node.value.kids);
        r := Ok(lines);
      }
      Pass();
    }

    /** A Depth-0 PROPFIND of the account root; `None` when it failed or carried
        no ETag. */
    method RootEtag() returns (r: Option<Etag>, ghost at: nat)
      requires Valid()
      modifies this, activity
      ensures Valid()
      ensures old(now) <= at <= now && old(writeEpoch) <= writeEpoch && failures == old(failures)
      ensures probes == old(probes) + [r]
      ensures old(activity.history) <= activity.history
      ensures r.Some? ==> r.value == versions[at].etag
    {
      Pass();
      at := now;
      var lost: bool := *;
      r := if lost then None else Some(versions[now].etag);
      probes := probes + [r];
      Pass();
    }
  }

  lemma OneMoreLine(kids: map<Name, Node>, lines: seq<RemoteEntry>, left: set<Name>, n: Name)
    requires left <= kids.Keys && n in left
    requires Distinct(lines) && NamesOf(lines) == kids.Keys - left
    requires AsListing(lines) == ListingOf(map n | n in kids.Keys - left :: kids[n])
    ensures var more, rest := lines + [RemoteEntry(n, EntryOf(kids[n]))], left - {n};
            && Distinct(more) && NamesOf(more) == kids.Keys - rest
            && AsListing(more) == ListingOf(map n | n in kids.Keys - rest :: kids[n])
  {
    var more := lines + [RemoteEntry(n, EntryOf(kids[n]))];
    assert more[..|lines|] == lines && more[..|more|] == more;
    forall i | 0 <= i < |lines| ensures more[i].name != n {
      assert lines[i].name in NamesOf(lines);
    }
    NamesGrow(more, |lines|);
    assert kids.Keys - (left - {n}) == kids.Keys - left + {n};
  }

  method Lines(kids: map<Name, Node>) returns (lines: seq<RemoteEntry>)
    ensures Distinct(lines) && AsListing(lines) == ListingOf(kids)
  {
    lines := [];
    var left := kids.Keys;
    while left != {}
      invariant left <= kids.Keys
      invariant Distinct(lines) && NamesOf(lines) == kids.Keys - left
      invariant AsListing(lines) == ListingOf(map n | n in kids.Keys - left :: kids[n])
      decreases left
    {
      var n :| n in left;
      OneMoreLine(kids, lines, left, n);
      lines := lines + [RemoteEntry(n, EntryOf(kids[n]))];
      left := left - {n};
    }
    assert (map n | n in kids.Keys - left :: kids[n]) == kids;
  }

  /** The state database: the rows, changed one transaction at a time. */
  class StateDb {
    var rows: Rows
    const inodes: Inodes

    constructor (inodes: Inodes)
      ensures WellFormed(rows) && this.inodes == inodes
    {
      this.inodes := inodes;
      rows := map[[] := Row(ROOT_INODE, true, "", None, false)];
    }

    function ChildrenOf(p: Path): (children: map<Name, Row>)
      reads this
      ensures forall n :: n in children <==> p + [n] in rows
      ensures forall n :: n in children ==> children[n] == rows[p + [n]]
    {
      var names := set q | q in rows && q != [] && Parent(q) == p :: Last(q);
      assert forall n :: p + [n] in rows ==> Parent(p + [n]) == p && Last(p + [n]) == n;
      assert forall q: Path :: q != [] ==> Parent(q) + [Last(q)] == q;
      map n | n in names :: rows[p + [n]]
    }

    predicate ChildrenLoaded(p: Path)
      reads this
      ensures ChildrenLoaded(p) <==> p in rows && rows[p].loaded
    {
      p in rows && rows[p].loaded
    }
  }

  /** The invalidations sent and the pinned files found to have moved on. */
  class Sink {
    var events: seq<Invalidation>
    var stale: seq<Path>

    constructor ()
      ensures events == [] && stale == []
    {
      events, stale := [], [];
    }
  }

  /** The children of `p` the machine was changing since the count `since`. */
  function BusyAmong(rows: Rows, activity: Activity, since: nat, holder: Option<nat>, p: Path): (busy: set<nat>)
    requires activity.Valid()
    reads activity
    ensures since < |activity.history| ==>
              forall n :: p + [n] in rows ==>
                (rows[p + [n]].inode in busy <==>
                 && holder != Some(rows[p + [n]].inode)
                 && (since < activity.floor
                     || exists i :: since <= i < |activity.history| && rows[p + [n]].inode in activity.history[i]))
  {
    assert forall n :: p + [n] in rows ==> Parent(p + [n]) == p;
    set q | q in rows && q != [] && Parent(q) == p && !Quiet(activity, since, holder, rows[q].inode) :: rows[q].inode
  }

  /** A listing asked for at the count `since` may touch `o`: it is the flow of `o`
      itself that asked, or the count is not below the floor and `o` was in no busy
      set from it on. */
  predicate Quiet(activity: Activity, since: nat, holder: Option<nat>, o: nat)
    requires activity.Valid()
    reads activity
    ensures since < |activity.history| ==>
              (Quiet(activity, since, holder, o) <==>
               holder == Some(o)
               || (activity.floor <= since
                   && forall i :: since <= i < |activity.history| ==> o !in activity.history[i]))
  {
    holder == Some(o) || activity.QuietSince(o, since)
  }

  /** Merge a listing of `path` asked for at `since`, all of it or all but the
      children that were busy meanwhile, or nothing. */
  method ReconcileIfQuiet(db: StateDb, activity: Activity, since: nat, holder: Option<nat>, inode: nat, path: Path,
                          entries: seq<RemoteEntry>)
    returns (applied: bool)
    requires activity.Valid()
    modifies db
    ensures applied <==> Quiet(activity, since, holder, inode)
    ensures db.rows ==
            if applied then
              Merge(old(db.rows), path, AsListing(entries),
                    old(BusyAmong(db.rows, activity, since, holder, path)), db.inodes)
            else old(db.rows)
  {
    if !Quiet(activity, since, holder, inode) {
      return false;
    }
    db.rows := Merge(db.rows, path, AsListing(entries), BusyAmong(db.rows, activity, since, holder, path), db.inodes);
    return true;
  }

  // --- The invalidations ------------------------------------------------------------

  /** A name that goes: the server had it, and the listing does not. */
  ghost predicate IsRemoved(e: Invalidation, path: Path, children: map<Name, Row>, listing: Listing, among: set<Name>) {
    e.EntryChanged? && e.dir == path && e.name in among && e.name in children && children[e.name].fileId.Some?
        && e.name !in listing
  }

  /** A file that is there still, under another ETag. */
  ghost predicate IsMoved(e: Invalidation, path: Path, children: map<Name, Row>, entries: seq<RemoteEntry>) {
    e.ContentChanged? && exists i :: 0 <= i < |entries| && MovedBy(e.path, path, children, entries[i])
  }

  ghost predicate MovedBy(q: Path, path: Path, children: map<Name, Row>, line: RemoteEntry) {
    q == path + [line.name] && line.name in children && !children[line.name].isDir
        && children[line.name].etag != line.entry.etag
  }

  /** A name that comes: the listing has it, and no row did. */
  ghost predicate IsAdded(e: Invalidation, path: Path, children: map<Name, Row>, entries: seq<RemoteEntry>) {
    e.EntryChanged? && e.dir == path && e.name !in children && exists i ::
        0 <= i < |entries| && e.name == entries[i].name
  }

  method ReportRemoved(sink: Sink, path: Path, children: map<Name, Row>, listing: Listing)
    modifies sink`events
    ensures old(sink.events) <= sink.events
    ensures forall e :: e in sink.events[|old(sink.events)|..] <==> IsRemoved(e, path, children, listing, children.Keys)
  {
    ghost var before := |sink.events|;
    var left := children.Keys;
    while left != {}
      invariant left <= children.Keys
      invariant old(sink.events) <= sink.events
      invariant forall e :: e in sink.events[before..] <==> IsRemoved(e, path, children, listing, children.Keys - left)
      decreases left
    {
      var n :| n in left;
      left := left - {n};
      if children[n].fileId.Some? && n !in listing {
        assert (sink.events + [EntryChanged(path, n)])[before..] == sink.events[before..] + [EntryChanged(path, n)];
        sink.events := sink.events + [EntryChanged(path, n)];
      }
    }
  }

  method ReportMoved(sink: Sink, pinned: Path -> bool, path: Path, children: map<Name, Row>, entries: seq<RemoteEntry>)
    modifies sink
    ensures old(sink.events) <= sink.events && old(sink.stale) <= sink.stale
    ensures forall e :: e in sink.events[|old(sink.events)|..] <==> IsMoved(e, path, children, entries)
    ensures forall q :: q in sink.stale[|old(sink.stale)|..] <==>
              pinned(q) && IsMoved(ContentChanged(q), path, children, entries)
  {
    ghost var before, staleBefore := |sink.events|, |sink.stale|;
    for i := 0 to |entries|
      invariant old(sink.events) <= sink.events && old(sink.stale) <= sink.stale
      invariant forall e :: e in sink.events[before..] <==> IsMoved(e, path, children, entries[..i])
      invariant forall q :: q in sink.stale[staleBefore..] <==>
                  pinned(q) && IsMoved(ContentChanged(q), path, children, entries[..i])
    {
      var line := entries[i];
      LineByLine(path, children, entries, i);
      if line.name in children {
        var row := children[line.name];
        if !row.isDir && row.etag != line.entry.etag {
          assert (sink.events + [ContentChanged(path + [line.name])])[before..] == sink.events[before..]
              + [ContentChanged(path + [line.name])];
          sink.events := sink.events + [ContentChanged(path + [line.name])];
          if pinned(path + [line.name]) {
            assert (sink.stale + [path + [line.name]])[staleBefore..] == sink.stale[staleBefore..]
                + [path + [line.name]];
            sink.stale := sink.stale + [path + [line.name]];
          }
        }
      }
    }
    assert entries[..|entries|] == entries;
  }

  method ReportAdded(sink: Sink, path: Path, children: map<Name, Row>, entries: seq<RemoteEntry>)
    modifies sink`events
    ensures old(sink.events) <= sink.events
    ensures forall e :: e in sink.events[|old(sink.events)|..] <==> IsAdded(e, path, children, entries)
  {
    ghost var before := |sink.events|;
    for i := 0 to |entries|
      invariant old(sink.events) <= sink.events
      invariant forall e :: e in sink.events[before..] <==> IsAdded(e, path, children, entries[..i])
    {
      var line := entries[i];
      LineByLine(path, children, entries, i);
      if line.name !in children {
        assert (sink.events + [EntryChanged(path, line.name)])[before..] == sink.events[before..]
            + [EntryChanged(path, line.name)];
        sink.events := sink.events + [EntryChanged(path, line.name)];
      }
    }
    assert entries[..|entries|] == entries;
  }

  lemma LineByLine(path: Path, children: map<Name, Row>, entries: seq<RemoteEntry>, i: nat)
    requires i < |entries|
    ensures forall e :: IsMoved(e, path, children, entries[..i + 1]) <==>
              IsMoved(e, path, children, entries[..i])
                  || (e.ContentChanged? && MovedBy(e.path, path, children, entries[i]))
    ensures forall e :: IsAdded(e, path, children, entries[..i + 1]) <==>
              IsAdded(e, path, children, entries[..i])
                  || (e.EntryChanged? && e.dir == path && e.name !in children && e.name == entries[i].name)
  {
    assert entries[..i + 1] == entries[..i] + [entries[i]];
    assert entries[..i + 1][i] == entries[i];
    forall e ensures IsMoved(e, path, children, entries[..i]) ==> IsMoved(e, path, children, entries[..i + 1])
             ensures IsAdded(e, path, children, entries[..i]) ==> IsAdded(e, path, children, entries[..i + 1]) {
      if IsMoved(e, path, children, entries[..i]) {
        var j :| 0 <= j < i && MovedBy(e.path, path, children, entries[..i][j]);
        assert MovedBy(e.path, path, children, entries[..i + 1][j]);
      }
      if IsAdded(e, path, children, entries[..i]) {
        var j :| 0 <= j < i && e.name == entries[..i][j].name;
        assert e.name == entries[..i + 1][j].name;
      }
    }
  }

  /** The three reports together are what the listing owes. */
  lemma ReportsAreOwed(e: Invalidation, path: Path, children: map<Name, Row>, entries: seq<RemoteEntry>, rows: Rows,
                       at: nat)
    requires Distinct(entries)
    requires forall n :: n in children <==> path + [n] in rows
    requires forall n :: n in children ==> children[n] == rows[path + [n]]
    ensures Owed(rows, map[path := Visit(AsListing(entries), at)], e) <==>
            || IsRemoved(e, path, children, AsListing(entries), children.Keys)
            || IsMoved(e, path, children, entries)
            || IsAdded(e, path, children, entries)
  {
    match e
    case EntryChanged(dir, name) =>
      ListingHasTheLines(entries);
      assert name in AsListing(entries) <==> name in NamesOf(entries);
    case ContentChanged(q) =>
      MovedIsOwed(q, path, children, entries, rows, at);
  }

  lemma MovedIsOwed(q: Path, path: Path, children: map<Name, Row>, entries: seq<RemoteEntry>, rows: Rows, at: nat)
    requires Distinct(entries)
    requires forall n :: n in children <==> path + [n] in rows
    requires forall n :: n in children ==> children[n] == rows[path + [n]]
    ensures Owed(rows, map[path := Visit(AsListing(entries), at)], ContentChanged(q)) <==>
              IsMoved(ContentChanged(q), path, children, entries)
  {
    ListingHasTheLines(entries);
    hide AsListing, Distinct;
    if Owed(rows, map[path := Visit(AsListing(entries), at)], ContentChanged(q)) {
      assert q == path + [Last(q)] && Last(q) in NamesOf(entries);
      var i :| 0 <= i < |entries| && Last(q) == entries[i].name;
      assert MovedBy(q, path, children, entries[i]);
    }
    if IsMoved(ContentChanged(q), path, children, entries) {
      var i :| 0 <= i < |entries| && MovedBy(q, path, children, entries[i]);
      assert Parent(q) == path && Last(q) == entries[i].name;
    }
  }

  /** Report what the listing of `path` brought against the rows before it. */
  method Report(sink: Sink, pinned: Path -> bool, path: Path, children: map<Name, Row>, entries: seq<RemoteEntry>,
                ghost rows: Rows, ghost at: nat)
    returns (ghost events: seq<Invalidation>, ghost stale: seq<Path>)
    requires Distinct(entries)
    requires forall n :: n in children <==> path + [n] in rows
    requires forall n :: n in children ==> children[n] == rows[path + [n]]
    modifies sink
    ensures sink.events == old(sink.events) + events && sink.stale == old(sink.stale) + stale
    ensures forall e :: e in events <==> Owed(rows, map[path := Visit(AsListing(entries), at)], e)
    ensures forall q :: q in stale <==>
              pinned(q) && Owed(rows, map[path := Visit(AsListing(entries), at)], ContentChanged(q))
  {
    ghost var start := |sink.events|;
    ReportRemoved(sink, path, children, AsListing(entries));
    ghost var removed := sink.events[start..];
    ReportMoved(sink, pinned, path, children, entries);
    ghost var moved := sink.events[start + |removed|..];
    assert sink.events[start..] == removed + moved;
    ReportAdded(sink, path, children, entries);
    events, stale := sink.events[start..], sink.stale[|old(sink.stale)|..];
    assert events == removed + moved + sink.events[start + |removed + moved|..];
    forall e ensures e in events <==> Owed(rows, map[path := Visit(AsListing(entries), at)], e) {
      ReportsAreOwed(e, path, children, entries, rows, at);
    }
    forall q
      ensures IsMoved(ContentChanged(q), path, children, entries) <==>
                Owed(rows, map[path := Visit(AsListing(entries), at)], ContentChanged(q))
    {
      ReportsAreOwed(ContentChanged(q), path, children, entries, rows, at);
    }
  }

  // --- The walk -----------------------------------------------------------------------

  /** What the machine is busy with. */
  ghost function BusyNow(h: History): set<nat> {
    h[|h| - 1]
  }

  /** The walk was not disturbed: neither the write epoch nor the activity moved. */
  ghost predicate Calm(epoch: nat, h: History, epochNow: nat, hNow: History) {
    epochNow == epoch && hNow == h
  }

  /** What one walk did: the rows before and after, the span of server versions,
      the directories listed, the events sent, the pinned files found outdated. */
  datatype Outcome = Outcome(before: Rows, after: Rows, from: nat, until: nat, seen: Visits, events: seq<Invalidation>,
      stale: seq<Path>)

  /** The effect of an undisturbed walk of `p` on the rows and in reports. */
  ghost predicate Effect(versions: seq<Node>, inodes: Inodes, pinned: Path -> bool, busy: set<nat>, p: Path,
                         o: Outcome) {
    && o.from <= o.until < |versions|
    && SeenOn(versions, o.seen, o.from, o.until)
    && Walked(o.before, o.after, o.seen, busy, inodes, p)
    && (forall e :: e in o.events <==> Owed(o.before, o.seen, e))
    && (forall q :: q in o.stale <==> pinned(q) && Owed(o.before, o.seen, ContentChanged(q)))
  }

  /** An undisturbed walk of `p` so far, with the children in `done` behind it. */
  ghost predicate Progress(versions: seq<Node>, inodes: Inodes, pinned: Path -> bool, busy: set<nat>, p: Path,
                           listing: Listing, done: set<Name>, o: Outcome) {
    && WellFormed(o.before)
    && VisitRuleSoFar(o.before, o.seen, busy, p, done)
    && o.seen[p].listing == listing
    && Effect(versions, inodes, pinned, busy, p, o)
  }

  /** An undisturbed walk of `p` from beginning to end, the machine being busy
      with `busy` all along: if with `p` itself, or if `p` lies too deep, the walk
      left everything alone. */
  ghost predicate Complete(versions: seq<Node>, inodes: Inodes, pinned: Path -> bool, busy: set<nat>, p: Path,
                           o: Outcome) {
    if IsBusy(Lookup(o.before, p), busy) || |p| > SYNC_MAX_DEPTH then
      o.from <= o.until < |versions| && o.after == o.before && o.seen == map[] && o.events == [] && o.stale == []
    else
      VisitRule(o.before, o.seen, busy, p) && Effect(versions, inodes, pinned, busy, p, o)
  }

  ghost function Joined(o: Outcome, child: Outcome): (joined: Outcome)
    ensures joined.before == o.before && joined.after == child.after
    ensures joined.from == o.from && joined.until == child.until
    ensures joined.events == o.events + child.events && joined.stale == o.stale + child.stale
  {
    Outcome(o.before, child.after, o.from, child.until, o.seen + child.seen, o.events + child.events,
        o.stale + child.stale)
  }

  lemma ProgressCompletes(versions: seq<Node>, inodes: Inodes, pinned: Path -> bool, busy: set<nat>, p: Path,
                          listing: Listing, done: set<Name>, o: Outcome)
    requires Progress(versions, inodes, pinned, busy, p, listing, done, o)
    requires listing.Keys <= done && !IsBusy(Lookup(o.before, p), busy) && |p| <= SYNC_MAX_DEPTH
    ensures Complete(versions, inodes, pinned, busy, p, o)
  {
  }

  /** Whether to go into a child is decided by the rows the walk began with. */
  lemma ProgressDecides(versions: seq<Node>, inodes: Inodes, pinned: Path -> bool, busy: set<nat>, p: Path,
                        listing: Listing, done: set<Name>, o: Outcome, n: Name)
    requires Progress(versions, inodes, pinned, busy, p, listing, done, o)
    requires n in listing
    ensures Descends(o.before, listing, busy, p + [n]) <==>
              && listing[n].isDir && p + [n] in o.before && o.before[p + [n]].etag != listing[n].etag
              && p + [n] in o.after && o.after[p + [n]].loaded && o.before[p + [n]].inode !in busy
              && |p| < SYNC_MAX_DEPTH
  {
    DescendsAsAtFirst(o.before, o.after, o.seen, busy, inodes, p, p + [n]);
  }

  lemma ProgressSkips(versions: seq<Node>, inodes: Inodes, pinned: Path -> bool, busy: set<nat>, p: Path,
                      listing: Listing, done: set<Name>, o: Outcome, n: Name)
    requires Progress(versions, inodes, pinned, busy, p, listing, done, o)
    requires n in listing ==> !Descends(o.before, listing, busy, p + [n])
    ensures Progress(versions, inodes, pinned, busy, p, listing, done + {n}, o)
  {
    ChildSkipped(o.before, o.seen, busy, p, n, done);
  }

  lemma ProgressDescends(versions: seq<Node>, inodes: Inodes, pinned: Path -> bool, busy: set<nat>, p: Path,
                         listing: Listing, done: set<Name>, o: Outcome, child: Outcome, n: Name)
    requires Progress(versions, inodes, pinned, busy, p, listing, done, o)
    requires n !in done && Descends(o.before, listing, busy, p + [n])
    requires Complete(versions, inodes, pinned, busy, p + [n], child) && !IsBusy(Lookup(child.before, p + [n]), busy)
    requires child.before == o.after && child.from == o.until
    ensures Progress(versions, inodes, pinned, busy, p, listing, done + {n}, Joined(o, child))
  {
    var c := p + [n];
    var all := Joined(o, child);
    assert Parent(c) == p && Last(c) == n;
    ChildDone(o.before, o.after, child.after, o.seen, child.seen, busy, inodes, p, c, done);
    EffectsJoin(versions, inodes, pinned, busy, p, c, o, child);
    assert p !in child.seen by {
      assert !(c <= p);
    }
  }

  lemma EffectsJoin(versions: seq<Node>, inodes: Inodes, pinned: Path -> bool, busy: set<nat>, p: Path, c: Path,
                    o: Outcome, child: Outcome)
    requires Effect(versions, inodes, pinned, busy, p, o) && Effect(versions, inodes, pinned, busy, c, child)
    requires child.from == o.until
    requires Walked(o.before, child.after, o.seen + child.seen, busy, inodes, p)
    requires forall e :: Owed(o.before, o.seen + child.seen, e) <==>
               Owed(o.before, o.seen, e) || Owed(child.before, child.seen, e)
    ensures Effect(versions, inodes, pinned, busy, p, Joined(o, child))
  {
    var all := Joined(o, child);
    forall q ensures q in all.stale <==> pinned(q) && Owed(o.before, all.seen, ContentChanged(q)) {
      var e := ContentChanged(q);
      assert Owed(o.before, all.seen, e) <==> Owed(o.before, o.seen, e) || Owed(child.before, child.seen, e);
    }
  }

  datatype Step = Failed | Skipped | Listed(entries: seq<RemoteEntry>)

  /** The first half of a walk: list the directory, apply the listing unless a
      local change came in between, and report it. */
  method ListOne(db: StateDb, world: World, sink: Sink, pinned: Path -> bool, inode: nat, path: Path)
    returns (step: Step, ghost o: Outcome, ghost stages: seq<Stage>)
    requires world.Valid() && WellFormed(db.rows)
    requires path in db.rows && db.rows[path].loaded && db.rows[path].inode == inode
    modifies db, world, world.activity, sink
    ensures world.Valid() && WellFormed(db.rows)
    ensures old(world.now) <= world.now && old(world.writeEpoch) <= world.writeEpoch
    ensures old(world.activity.history) <= world.activity.history
    ensures NoneNewlyLoaded(old(db.rows), db.rows)
    ensures o.before == old(db.rows) && o.after == db.rows && o.from == old(world.now) && o.until == world.now
    ensures sink.events == old(sink.events) + o.events && sink.stale == old(sink.stale) + o.stale
    ensures step.Listed? ==> Distinct(step.entries)
    ensures world.failures == old(world.failures) + if step.Failed? then 1 else 0
    ensures world.probes == old(world.probes)
    // Whatever happened meanwhile:
    ensures step.Failed? <==> stages == []
    ensures step.Failed? ==> db.rows == old(db.rows) && o.events == [] && o.stale == []
    ensures !step.Failed? ==>
              Answered(step, stages, world, db, old(db.rows), path, old(world.activity.history), old(world.writeEpoch),
                  old(world.now), o, pinned)
    ensures Calm(old(world.writeEpoch), old(world.activity.history), world.writeEpoch, world.activity.history)
              && !step.Failed? && inode !in BusyNow(old(world.activity.history)) ==>
              step.Listed? && Progress(world.versions, db.inodes, pinned, BusyNow(old(world.activity.history)), path,
                  AsListing(step.entries), {}, o)
    ensures BusyAllAlong(inode, old(world.activity.history), world.activity.history) && !step.Failed? ==>
              step.Skipped? && db.rows == old(db.rows) && o.seen == map[] && o.events == [] && o.stale == []
  {
    hide *;
    ghost var rows0, from, h := db.rows, world.now, world.activity.history;
    LoadedReflexive(rows0);
    // Snapshot the children before the reconcile overwrites them.
    var children := db.ChildrenOf(path);
    var epoch := world.writeEpoch;
    WorldIsValid(world);
    var since := world.activity.Seq();
    var answer, at := world.Propfind(path);
    if answer.Err? {
      step, stages := Failed, [];
      o := Outcome(rows0, rows0, from, world.now, map[], [], []);
      assert sink.events + [] == sink.events && sink.stale + [] == sink.stale;
      return;
    }
    step, o, stages := UseAnswer(db, world, sink, pinned, inode, path, children, answer.value, at, epoch, since, h,
        from);
  }

  /** What becomes of the answer. */
  method UseAnswer(db: StateDb, world: World, sink: Sink, pinned: Path -> bool, inode: nat, path: Path,
                   children: map<Name, Row>, entries: seq<RemoteEntry>, ghost at: nat, epoch: nat, since: nat,
                   ghost h: History, ghost from: nat)
    returns (step: Step, ghost o: Outcome, ghost stages: seq<Stage>)
    requires world.Valid() && WellFormed(db.rows)
    requires path in db.rows && db.rows[path].loaded && db.rows[path].inode == inode
    requires forall n :: n in children <==> path + [n] in db.rows
    requires forall n :: n in children ==> children[n] == db.rows[path + [n]]
    requires Distinct(entries) && from <= at <= world.now < |world.versions|
    requires At(world.versions[at], path).Some? && At(world.versions[at], path).value.Dir?
    requires AsListing(entries) == ListingOf(At(world.versions[at], path).value.kids)
    requires since == |h| - 1 && h <= world.activity.history
    modifies db, sink
    ensures WellFormed(db.rows) && NoneNewlyLoaded(old(db.rows), db.rows)
    ensures o.before == old(db.rows) && o.after == db.rows && o.from == from && o.until == world.now
    ensures sink.events == old(sink.events) + o.events && sink.stale == old(sink.stale) + o.stale
    ensures !step.Failed? && (step.Listed? ==> Distinct(step.entries)) && stages != []
    ensures Answered(step, stages, world, db, old(db.rows), path, h, epoch, from, o, pinned)
    ensures Calm(epoch, h, world.writeEpoch, world.activity.history) && inode !in BusyNow(h) ==>
              step.Listed? && Progress(world.versions, db.inodes, pinned, BusyNow(h), path, AsListing(step.entries), {},
                  o)
    ensures BusyAllAlong(inode, h, world.activity.history) ==>
              step.Skipped? && db.rows == old(db.rows) && o.seen == map[] && o.events == [] && o.stale == []
  {
    hide *;
    ghost var rows0, listing := db.rows, AsListing(entries);
    LoadedReflexive(rows0);
    o := Outcome(rows0, rows0, from, world.now, map[], [], []);
    assert sink.events + [] == sink.events && sink.stale + [] == sink.stale;
    step := Skipped;
    WorldIsValid(world);
    ghost var asked := Stage(path, rows0, since, world.writeEpoch != epoch, at, listing, world.activity.history,
        world.activity.floor, rows0, []);
    stages := [asked];
    StageIsNow(world, db, asked, inode, h, epoch, from);
    if Calm(epoch, h, world.writeEpoch, world.activity.history) {
      CalmMeans(epoch, h, world.writeEpoch, world.activity.history);
    }
    if BusyAllAlong(inode, h, world.activity.history) {
      BusyIsNotQuiet(world.activity, h, since, inode);
    }
    if world.writeEpoch != epoch {
      DroppedStage(world, db, asked, inode, path, rows0, h, epoch, from, o, pinned);
      return;
    }
    ghost var busy := BusyAmong(db.rows, world.activity, since, None, path);
    if Calm(epoch, h, world.writeEpoch, world.activity.history) {
      BusyExactly(db.rows, world.activity, h, inode, path);
    }
    var applied := ReconcileIfQuiet(db, world.activity, since, None, inode, path, entries);
    if !applied {
      StageIsNow(world, db, asked, inode, h, epoch, from);
      DroppedStage(world, db, asked, inode, path, rows0, h, epoch, from, o, pinned);
      return;
    }
    AppliedListing(rows0, path, listing, busy, db.inodes);
    ghost var events, stale := Report(sink, pinned, path, children, entries, rows0, at);
    o := Outcome(rows0, db.rows, from, world.now, map[path := Visit(listing, at)], events, stale);
    if busy == BusyBelow(rows0, BusyNow(h), path) {
      ListedFirst(world.versions, db.inodes, pinned, BusyNow(h), path, listing, at, o);
    }
    stages := [asked.(after := db.rows, events := events)];
    step := Listed(entries);
    StageIsNow(world, db, stages[0], inode, h, epoch, from);
    UsedStage(world, db, stages[0], inode, busy, path, rows0, h, epoch, from, entries, o, pinned);
  }

  /** An answer is one stage of the walk as of now, and is used exactly if nothing
      local moved since the question, which was asked at the end of `h`. */
  ghost predicate Answered(step: Step, stages: seq<Stage>, world: World, db: StateDb, before: Rows, path: Path,
                           h: History, epoch: nat, from: nat, o: Outcome, pinned: Path -> bool)
    reads world, world.activity, db
  {
    && |stages| == 1
    && var s := stages[0];
       && IsStage(world.versions, db.inodes, s)
       && s.path == path && s.before == before && s.after == db.rows
       && s.since == |h| - 1 && s.h == world.activity.history && s.floor == world.activity.floor
       && (s.moved <==> world.writeEpoch != epoch)
       && from <= s.at <= world.now
       && (step.Listed? <==> Used(s))
       && (step.Listed? ==> AsListing(step.entries) == s.listing)
       && o.events == Reports(stages) && FollowsEvents(o, pinned)
  }

  lemma ReportsOfOne(s: Stage)
    ensures Reports([s]) == s.events
  {
    assert Reports([]) == [];
    assert [s][..0] == [];
  }

  lemma QuietIsUntroubled(activity: Activity, s: Stage, o: nat)
    requires activity.Valid() && s.h == activity.history && s.floor == activity.floor && s.since < |s.h|
    ensures Quiet(activity, s.since, None, o) <==> !Troubled(s, o)
  {
  }

  /** What the world shows of a stage. */
  ghost predicate StageNow(world: World, db: StateDb, s: Stage, inode: nat, path: Path, before: Rows, h: History,
                           epoch: nat, from: nat)
    reads world, world.activity, db
  {
    && world.Valid() && h <= world.activity.history
    && s.path == path && s.before == before && s.after == db.rows && s.since == |h| - 1
    && s.h == world.activity.history && s.floor == world.activity.floor && (s.moved <==> world.writeEpoch != epoch)
    && path in before && before[path].loaded && before[path].inode == inode
    && from <= s.at <= world.now < |world.versions|
    && At(world.versions[s.at], path).Some? && At(world.versions[s.at], path).value.Dir?
    && s.listing == ListingOf(At(world.versions[s.at], path).value.kids)
  }

  lemma StageIsNow(world: World, db: StateDb, s: Stage, inode: nat, h: History, epoch: nat, from: nat)
    requires world.Valid() && h <= world.activity.history
    requires s.after == db.rows && s.since == |h| - 1
    requires s.h == world.activity.history && s.floor == world.activity.floor
    requires s.moved <==> world.writeEpoch != epoch
    requires s.path in s.before && s.before[s.path].loaded && s.before[s.path].inode == inode
    requires from <= s.at <= world.now < |world.versions|
    requires At(world.versions[s.at], s.path).Some? && At(world.versions[s.at], s.path).value.Dir?
    requires s.listing == ListingOf(At(world.versions[s.at], s.path).value.kids)
    ensures StageNow(world, db, s, inode, s.path, s.before, h, epoch, from)
  {
    hide At, ListingOf;
  }

  /** An answer that came too late leaves everything alone. */
  lemma DroppedStage(world: World, db: StateDb, s: Stage, inode: nat, path: Path, before: Rows, h: History, epoch: nat,
                     from: nat, o: Outcome, pinned: Path -> bool)
    requires StageNow(world, db, s, inode, path, before, h, epoch, from)
    requires s.moved || !Quiet(world.activity, s.since, None, inode)
    requires s.after == s.before && s.events == [] && o.events == [] && o.stale == []
    ensures Answered(Skipped, [s], world, db, before, path, h, epoch, from, o, pinned)
  {
    hide At, ListingOf, Quiet;
    QuietIsUntroubled(world.activity, s, inode);
    ReportsOfOne(s);
  }

  /** Any other is merged and reported. */
  lemma UsedStage(world: World, db: StateDb, s: Stage, inode: nat, busy: set<nat>, path: Path, before: Rows, h: History,
                  epoch: nat, from: nat, entries: seq<RemoteEntry>, o: Outcome, pinned: Path -> bool)
    requires StageNow(world, db, s, inode, path, before, h, epoch, from)
    requires !s.moved && Quiet(world.activity, s.since, None, inode)
    requires busy == BusyAmong(before, world.activity, s.since, None, path)
    requires s.after == Merge(before, path, s.listing, busy, db.inodes) && AsListing(entries) == s.listing
    requires forall e :: e in s.events <==> Owed(before, map[path := Visit(s.listing, s.at)], e)
    requires o.events == s.events
    requires forall q :: q in o.stale <==>
               pinned(q) && Owed(before, map[path := Visit(s.listing, s.at)], ContentChanged(q))
    ensures Answered(Listed(entries), [s], world, db, before, path, h, epoch, from, o, pinned)
  {
    hide At, ListingOf, Quiet, Merge, Owed;
    QuietIsUntroubled(world.activity, s, inode);
    ReportsOfOne(s);
    assert SparesTroubled(s, busy);
  }

  /** The pinned files found outdated are those whose content is reported. */
  ghost predicate FollowsEvents(o: Outcome, pinned: Path -> bool) {
    forall q :: q in o.stale <==> pinned(q) && ContentChanged(q) in o.events
  }

  lemma ListedFirst(versions: seq<Node>, inodes: Inodes, pinned: Path -> bool, busy: set<nat>, p: Path,
                    listing: Listing, at: nat, o: Outcome)
    requires WellFormed(o.before) && p in o.before && o.before[p].loaded
    requires o.after == Merge(o.before, p, listing, BusyBelow(o.before, busy, p), inodes)
               && o.seen == map[p := Visit(listing, at)]
    requires o.from <= at <= o.until < |versions|
    requires At(versions[at], p).Some? && At(versions[at], p).value.Dir?
               && listing == ListingOf(At(versions[at], p).value.kids)
    requires forall e :: e in o.events <==> Owed(o.before, o.seen, e)
    requires forall q :: q in o.stale <==> pinned(q) && Owed(o.before, o.seen, ContentChanged(q))
    ensures Progress(versions, inodes, pinned, busy, p, listing, {}, o)
  {
    WalkBegins(o.before, listing, at, busy, inodes, p);
    MergeLooksAtChildren(o.before, p, listing, BusyBelow(o.before, busy, p), busy, inodes);
  }

  /** The busy ones among the children of `p`. */
  ghost function BusyBelow(rows: Rows, busy: set<nat>, p: Path): set<nat> {
    set q | q in rows && q != [] && Parent(q) == p && rows[q].inode in busy :: rows[q].inode
  }

  /** A listing asks only about the children. */
  lemma MergeLooksAtChildren(rows: Rows, p: Path, listing: Listing, some: set<nat>, all: set<nat>, inodes: Inodes)
    requires some == BusyBelow(rows, all, p)
    ensures Merge(rows, p, listing, some, inodes) == Merge(rows, p, listing, all, inodes)
  {
    forall q ensures MergedRow(rows, p, listing, some, inodes, q) == MergedRow(rows, p, listing, all, inodes, q) {
      if p < q {
        var child := q[..|p| + 1];
        assert Parent(child) == p;
      }
    }
  }

  lemma WorldIsValid(world: World)
    requires world.Valid()
    ensures world.activity.Valid()
  {
  }

  /** `inode` was busy before the step and no report came during it. */
  ghost predicate BusyAllAlong(inode: nat, h: History, hNow: History) {
    hNow == h && inode in h[|h| - 1]
  }

  lemma BusyIsNotQuiet(activity: Activity, h: History, since: nat, inode: nat)
    requires activity.Valid() && BusyAllAlong(inode, h, activity.history)
    ensures !Quiet(activity, since, None, inode)
  {
    assert inode in activity.history[|h| - 1];
  }

  /** With no report meanwhile, a listing finds busy exactly what was busy. */
  lemma BusyExactly(rows: Rows, activity: Activity, h: History, inode: nat, p: Path)
    requires activity.Valid() && activity.history == h
    ensures Quiet(activity, |h| - 1, None, inode) <==> inode !in BusyNow(h)
    ensures BusyAmong(rows, activity, |h| - 1, None, p) == BusyBelow(rows, BusyNow(h), p)
  {
    var since := |h| - 1;
    assert forall o :: QuietThroughout(h, o, since) <==> o !in h[since];
  }

  lemma CalmMeans(epoch: nat, h: History, epochNow: nat, hNow: History)
    requires Calm(epoch, h, epochNow, hNow)
    ensures epochNow == epoch && hNow == h
  {
  }

  lemma Appended<T>(a: seq<T>, b: seq<T>, c: seq<T>)
    ensures (a + b) + c == a + (b + c)
  {
  }

  lemma AppliedListing(rows: Rows, p: Path, listing: Listing, busy: set<nat>, inodes: Inodes)
    requires WellFormed(rows) && p in rows && rows[p].loaded
    ensures WellFormed(Merge(rows, p, listing, busy, inodes))
    ensures NoneNewlyLoaded(rows, Merge(rows, p, listing, busy, inodes))
  {
    assert p != [] ==> Parent(p) in rows;
    MergeKeepsWellFormed(rows, p, listing, busy, inodes);
    MergeLoadsNothingElse(rows, p, listing, busy, inodes);
  }

  lemma LoadedReflexive(rows: Rows)
    ensures NoneNewlyLoaded(rows, rows)
  {
  }

  lemma LoadedTransitive(a: Rows, b: Rows, c: Rows)
    requires NoneNewlyLoaded(a, b) && NoneNewlyLoaded(b, c)
    ensures NoneNewlyLoaded(a, c)
  {
  }

  lemma ChildWalked(versions: seq<Node>, inodes: Inodes, pinned: Path -> bool, busy: set<nat>, p: Path,
                    entries: seq<RemoteEntry>, i: nat, o: Outcome, child: Outcome)
    requires Distinct(entries) && i < |entries|
    requires Progress(versions, inodes, pinned, busy, p, AsListing(entries), NamesOf(entries[..i]), o)
    requires entries[i].entry.isDir && p + [entries[i].name] in o.before
               && o.before[p + [entries[i].name]].etag != entries[i].entry.etag
             && p + [entries[i].name] in o.after && o.after[p + [entries[i].name]].loaded
             && o.after[p + [entries[i].name]].inode == o.before[p + [entries[i].name]].inode
    requires Complete(versions, inodes, pinned, busy, p + [entries[i].name], child)
    requires child.before == o.after && child.from == o.until
    ensures Progress(versions, inodes, pinned, busy, p, AsListing(entries), NamesOf(entries[..i + 1]), Joined(o, child))
  {
    var n, done := entries[i].name, NamesOf(entries[..i]);
    ListingHasTheLines(entries);
    NamesGrow(entries, i);
    ProgressDecides(versions, inodes, pinned, busy, p, AsListing(entries), done, o, n);
    if o.before[p + [n]].inode in busy || |p| >= SYNC_MAX_DEPTH {
      ProgressSkips(versions, inodes, pinned, busy, p, AsListing(entries), done, o, n);
      ProgressWaits(versions, inodes, pinned, busy, p, AsListing(entries), done + {n}, o, child);
    } else {
      ProgressDescends(versions, inodes, pinned, busy, p, AsListing(entries), done, o, child, n);
    }
  }

  /** A child the machine is busy with costs time, and nothing else. */
  lemma ProgressWaits(versions: seq<Node>, inodes: Inodes, pinned: Path -> bool, busy: set<nat>, p: Path,
                      listing: Listing, done: set<Name>, o: Outcome, child: Outcome)
    requires Progress(versions, inodes, pinned, busy, p, listing, done, o)
    requires child.before == o.after && child.from == o.until <= child.until < |versions|
    requires child.after == child.before && child.seen == map[] && child.events == [] && child.stale == []
    ensures Progress(versions, inodes, pinned, busy, p, listing, done, Joined(o, child))
  {
    hide VisitRuleSoFar, Walked, Owed, WellFormed;
    assert o.seen + map[] == o.seen;
    assert Joined(o, child) == o.(until := child.until);
  }

  lemma ChildLeft(versions: seq<Node>, inodes: Inodes, pinned: Path -> bool, busy: set<nat>, p: Path,
                  entries: seq<RemoteEntry>, i: nat, o: Outcome)
    requires Distinct(entries) && i < |entries|
    requires Progress(versions, inodes, pinned, busy, p, AsListing(entries), NamesOf(entries[..i]), o)
    requires !(entries[i].entry.isDir && p + [entries[i].name] in o.before
               && o.before[p + [entries[i].name]].etag != entries[i].entry.etag
              && p + [entries[i].name] in o.after && o.after[p + [entries[i].name]].loaded)
    ensures Progress(versions, inodes, pinned, busy, p, AsListing(entries), NamesOf(entries[..i + 1]), o)
  {
    var n, done := entries[i].name, NamesOf(entries[..i]);
    ListingHasTheLines(entries);
    NamesGrow(entries, i);
    ProgressDecides(versions, inodes, pinned, busy, p, AsListing(entries), done, o, n);
    ProgressSkips(versions, inodes, pinned, busy, p, AsListing(entries), done, o, n);
  }

  /** The walk of `path` so far, its listing and those of the children in `done`. */
  ghost predicate SoFar(versions: seq<Node>, inodes: Inodes, stages: seq<Stage>, path: Path, listing: Listing,
                        o: Outcome, h: History, later: History, now: nat, moved: bool, pinned: Path -> bool,
                        done: set<Name>, rows: Rows) {
    && InTurn(versions, inodes, stages, o.before, rows)
    && ReachedSoFar(path, stages, done) && Undone(rows, stages[0], done)
    && Used(stages[0]) && stages[0].listing == listing && stages[0].before == o.before
    && During(stages, h, later, o.from, now, moved)
    && o.events == Reports(stages) && FollowsEvents(o, pinned)
  }

  ghost predicate Ready(world: World, db: StateDb, stages: seq<Stage>, path: Path, listing: Listing, o: Outcome,
                        epoch: nat, h: History, pinned: Path -> bool, done: set<Name>, ok: bool)
    reads world, world.activity, db
  {
    && SoFar(world.versions, db.inodes, stages, path, listing, o, h, world.activity.history, world.now,
           epoch != world.writeEpoch, pinned, done, db.rows)
    && (ok ==> ExhaustiveSoFar(stages, done))
  }

  lemma NamesSoFar(entries: seq<RemoteEntry>, i: nat)
    requires i <= |entries|
    ensures NamesOf(entries[..i]) <= NamesOf(entries)
  {
  }

  lemma MoreDone(world: World, db: StateDb, stages: seq<Stage>, path: Path, listing: Listing, o: Outcome, epoch: nat,
                 h: History, pinned: Path -> bool, done: set<Name>, more: set<Name>)
    requires Ready(world, db, stages, path, listing, o, epoch, h, pinned, done, false) && done <= more
    ensures Ready(world, db, stages, path, listing, o, epoch, h, pinned, more, false)
  {
    hide InTurn, Reached, Used, During, Reports, FollowsEvents;
  }

  lemma ReadyMeans(world: World, db: StateDb, stages: seq<Stage>, path: Path, listing: Listing, o: Outcome, epoch: nat,
                   h: History, pinned: Path -> bool, done: set<Name>)
    requires Ready(world, db, stages, path, listing, o, epoch, h, pinned, done, true)
    ensures SoFar(world.versions, db.inodes, stages, path, listing, o, h, world.activity.history, world.now,
                epoch != world.writeEpoch, pinned, done, db.rows)
    ensures ExhaustiveSoFar(stages, done)
  {
  }

  /** The walk of `path` from beginning to end, however it was disturbed: a run of
      listings that leads to every directory it goes into, if none failed, and
      reports what these listings showed. */
  ghost predicate WentThrough(world: World, db: StateDb, stages: seq<Stage>, path: Path, o: Outcome, epoch: nat,
                              h: History, pinned: Path -> bool, ok: bool)
    reads world, world.activity, db
  {
    && InTurn(world.versions, db.inodes, stages, o.before, db.rows) && Reached(path, stages)
    && During(stages, h, world.activity.history, o.from, world.now, epoch != world.writeEpoch)
    && (|path| > SYNC_MAX_DEPTH ==> stages == [])
    && (ok ==> (|path| <= SYNC_MAX_DEPTH ==> IsListed(stages, path)) && Exhaustive(stages))
    && o.events == Reports(stages) && FollowsEvents(o, pinned)
  }

  lemma NothingListed(world: World, db: StateDb, path: Path, o: Outcome, epoch: nat, h: History, pinned: Path -> bool,
                      ok: bool)
    requires o.before == db.rows && o.events == [] && o.stale == [] && (ok ==> |path| > SYNC_MAX_DEPTH)
    ensures WentThrough(world, db, [], path, o, epoch, h, pinned, ok)
  {
    NoListing(world.versions, db.inodes, db.rows, path);
  }

  lemma ListedSoFar(step: Step, stages: seq<Stage>, world: World, db: StateDb, path: Path, h: History, epoch: nat,
                    o: Outcome, pinned: Path -> bool)
    requires Answered(step, stages, world, db, o.before, path, h, epoch, o.from, o, pinned)
    requires |path| <= SYNC_MAX_DEPTH
    ensures !step.Listed? ==> WentThrough(world, db, stages, path, o, epoch, h, pinned, true)
    ensures step.Listed? ==> Ready(world, db, stages, path, AsListing(step.entries), o, epoch, h, pinned, {}, true)
  {
    hide IsStage, Used, AsListing, Reports, FollowsEvents;
    assert stages == [stages[0]];
    OneListing(world.versions, db.inodes, stages[0]);
    hide InTurn, Reached, ReachedSoFar, Exhaustive, ExhaustiveSoFar, IsListed, Undone;
  }

  lemma WalkedThrough(world: World, db: StateDb, stages: seq<Stage>, path: Path, listing: Listing, o: Outcome,
                      epoch: nat, h: History, pinned: Path -> bool, done: set<Name>, ok: bool)
    requires Ready(world, db, stages, path, listing, o, epoch, h, pinned, done, ok)
    requires listing.Keys <= done && |path| <= SYNC_MAX_DEPTH
    ensures WentThrough(world, db, stages, path, o, epoch, h, pinned, ok)
  {
    hide IsStage, Used, Reports, FollowsEvents, InTurn, During;
    if ok {
      hide Exhaustive, ExhaustiveSoFar, Reached;
      AllPassed(stages, done);
    }
  }

  /** The line's child was walked. */
  lemma ReadyDeeper(world: World, db: StateDb, stages: seq<Stage>, deeper: seq<Stage>, path: Path,
                    entries: seq<RemoteEntry>, i: nat, o: Outcome, child: Outcome, epoch: nat, epochMid: nat,
                    h: History, hMid: History, now: nat, pinned: Path -> bool, ok: bool)
    requires Distinct(entries) && i < |entries|
    requires SoFar(world.versions, db.inodes, stages, path, AsListing(entries), o, h, hMid, now, epoch != epochMid,
                 pinned, NamesOf(entries[..i]), child.before)
    requires ExhaustiveSoFar(stages, NamesOf(entries[..i]))
    requires WentThrough(world, db, deeper, path + [entries[i].name], child, epochMid, hMid, pinned, ok)
    requires h <= hMid <= world.activity.history && o.from <= now <= world.now && child.from == now
    requires epoch <= epochMid <= world.writeEpoch
    requires var c := path + [entries[i].name];
             entries[i].entry.isDir && c in o.before && o.before[c].etag != entries[i].entry.etag
             && c in child.before && child.before[c].loaded
    ensures Ready(world, db, stages + deeper, path, AsListing(entries), Joined(o, child), epoch, h, pinned,
                NamesOf(entries[..i + 1]), ok)
  {
    var n, done := entries[i].name, NamesOf(entries[..i]);
    ListingHasTheLines(entries);
    NamesGrow(entries, i);
    hide InTurn, ReachedSoFar, Reached, Undone, Used, During, Exhaustive, ExhaustiveSoFar, IsListed, FollowsEvents,
        Reports;
    ChildJoins(world.versions, db.inodes, path, n, done, stages, deeper, o.before, child.before, db.rows);
    DuringJoins(stages, deeper, h, hMid, world.activity.history, o.from, now, world.now, epoch != epochMid,
        epochMid != world.writeEpoch, epoch != world.writeEpoch);
    ReportsOfConcat(stages, deeper);
    FollowsJoined(o, child, pinned);
    FirstStays(path, stages, done, deeper);
  }

  lemma FirstStays(path: Path, stages: seq<Stage>, done: set<Name>, deeper: seq<Stage>)
    requires ReachedSoFar(path, stages, done)
    ensures stages != [] && (stages + deeper)[0] == stages[0]
  {
  }

  lemma FollowsJoined(o: Outcome, child: Outcome, pinned: Path -> bool)
    requires FollowsEvents(o, pinned) && FollowsEvents(child, pinned)
    ensures FollowsEvents(Joined(o, child), pinned)
  {
  }

  /** The line's child was not gone into. */
  lemma ReadyPassed(world: World, db: StateDb, stages: seq<Stage>, path: Path, entries: seq<RemoteEntry>, i: nat,
                    o: Outcome, epoch: nat, h: History, pinned: Path -> bool)
    requires Distinct(entries) && i < |entries|
    requires Ready(world, db, stages, path, AsListing(entries), o, epoch, h, pinned, NamesOf(entries[..i]), true)
    requires var c := path + [entries[i].name];
             !(entries[i].entry.isDir && c in o.before && o.before[c].etag != entries[i].entry.etag
               && c in db.rows && db.rows[c].loaded)
    ensures Ready(world, db, stages, path, AsListing(entries), o, epoch, h, pinned, NamesOf(entries[..i + 1]), true)
  {
    var n, done, c := entries[i].name, NamesOf(entries[..i]), path + [entries[i].name];
    ListingHasTheLines(entries);
    NamesGrow(entries, i);
    assert Parent(c) == path && Last(c) == n;
    hide InTurn, ReachedSoFar, Reached, Undone, Used, During, ExhaustiveSoFar, FollowsEvents, Reports;
    FirstIsThere(path, stages, done);
    FewerUndone(db.rows, stages[0], done, n);
    ChildPassed(path, n, done, stages);
  }

  lemma FirstIsThere(path: Path, stages: seq<Stage>, done: set<Name>)
    requires ReachedSoFar(path, stages, done)
    ensures stages != [] && stages[0].path == path
  {
  }

  /** One directory, and then those of its loaded child directories that the
      listing shows under another ETag. An undisturbed walk that ends well is
      `Complete`. */
  method WalkDir(db: StateDb, world: World, sink: Sink, pinned: Path -> bool, inode: nat, path: Path, depth: nat)
    returns (ok: bool, ghost o: Outcome, ghost stages: seq<Stage>)
    requires world.Valid() && WellFormed(db.rows)
    requires path in db.rows && db.rows[path].loaded && db.rows[path].inode == inode && depth == |path|
    modifies db, world, world.activity, sink
    ensures world.Valid() && WellFormed(db.rows)
    ensures old(world.now) <= world.now && old(world.writeEpoch) <= world.writeEpoch
    ensures old(world.activity.history) <= world.activity.history
    // The first listing that fails ends the whole walk, and nothing else does.
    ensures world.failures == old(world.failures) + if ok then 0 else 1
    ensures world.probes == old(world.probes)
    ensures NoneNewlyLoaded(old(db.rows), db.rows)
    ensures o.before == old(db.rows) && o.after == db.rows && o.from == old(world.now) && o.until == world.now
    ensures sink.events == old(sink.events) + o.events && sink.stale == old(sink.stale) + o.stale
    // However it was disturbed:
    ensures WentThrough(world, db, stages, path, o, old(world.writeEpoch), old(world.activity.history), pinned, ok)
    ensures depth > SYNC_MAX_DEPTH ==> ok
    ensures ok && Calm(old(world.writeEpoch), old(world.activity.history), world.writeEpoch, world.activity.history) ==>
              Complete(world.versions, db.inodes, pinned, BusyNow(old(world.activity.history)), path, o)
    ensures ok && BusyAllAlong(inode, old(world.activity.history), world.activity.history) ==>
              db.rows == old(db.rows) && o.events == [] && o.stale == []
    decreases SYNC_MAX_DEPTH + 1 - depth, 1
  {
    ok, o, stages := true, Outcome(db.rows, db.rows, world.now, world.now, map[], [], []), [];
    if depth > SYNC_MAX_DEPTH {
      hide *;
      NothingListed(world, db, path, o, world.writeEpoch, world.activity.history, pinned, true);
      return;
    }
    hide *;
    ghost var epoch, h := world.writeEpoch, world.activity.history;
    var children := db.ChildrenOf(path);
    var step;
    step, o, stages := ListOne(db, world, sink, pinned, inode, path);
    if step.Failed? {
      NothingListed(world, db, path, o, epoch, h, pinned, false);
    } else {
      ListedSoFar(step, stages, world, db, path, h, epoch, o, pinned);
    }
    if !step.Listed? {
      ok := step.Skipped?;
      WorldSpans(world, o.from);
      if ok {
        SkippedIsComplete(world.versions, db.inodes, pinned, inode, epoch, h, world.writeEpoch, world.activity.history,
            path, o);
      }
      return;
    }
    ghost var listedAt := world.activity.history;
    ListedWasIdle(inode, epoch, h, world.writeEpoch, listedAt, listedAt);
    ok, o, stages := WalkChildren(db, world, sink, pinned, path, depth, children, step.entries, o, stages, epoch, h,
        old(sink.events), old(sink.stale));
    ListingHasTheLines(step.entries);
    WalkedThrough(world, db, stages, path, AsListing(step.entries), o, epoch, h, pinned, NamesOf(step.entries), ok);
    ListedWasIdle(inode, epoch, h, world.writeEpoch, listedAt, world.activity.history);
    if ok && Calm(epoch, h, world.writeEpoch, world.activity.history) {
      NotBusyHere(o.before, path, BusyNow(h));
      ProgressCompletes(world.versions, db.inodes, pinned, BusyNow(h), path, AsListing(step.entries),
          NamesOf(step.entries), o);
    }
  }

  /** The second half: descend only where the ETag changed, and only into what has
      been listed. `first` is what the first half did. */
  method WalkChildren(db: StateDb, world: World, sink: Sink, pinned: Path -> bool, path: Path, depth: nat,
                      children: map<Name, Row>, entries: seq<RemoteEntry>, ghost first: Outcome,
                      ghost begun: seq<Stage>, ghost epoch: nat, ghost h: History, ghost events: seq<Invalidation>,
                      ghost stale: seq<Path>)
    returns (ok: bool, ghost o: Outcome, ghost stages: seq<Stage>)
    requires world.Valid() && WellFormed(db.rows) && Distinct(entries)
    requires depth == |path| <= SYNC_MAX_DEPTH
    requires forall n :: n in children <==> path + [n] in first.before
    requires forall n :: n in children ==> children[n] == first.before[path + [n]]
    requires NoneNewlyLoaded(first.before, db.rows) && first.after == db.rows && first.until == world.now
               && first.from <= world.now
    requires epoch <= world.writeEpoch && h <= world.activity.history
    requires sink.events == events + first.events && sink.stale == stale + first.stale
    requires Calm(epoch, h, world.writeEpoch, world.activity.history) ==>
               Progress(world.versions, db.inodes, pinned, BusyNow(h), path, AsListing(entries), {}, first)
    requires Ready(world, db, begun, path, AsListing(entries), first, epoch, h, pinned, {}, true)
    modifies db, world, world.activity, sink
    ensures world.Valid() && WellFormed(db.rows)
    ensures old(world.now) <= world.now && old(world.writeEpoch) <= world.writeEpoch
    ensures old(world.activity.history) <= world.activity.history
    ensures world.failures == old(world.failures) + if ok then 0 else 1
    ensures world.probes == old(world.probes)
    ensures NoneNewlyLoaded(first.before, db.rows)
    ensures o.before == first.before && o.after == db.rows && o.from == first.from && o.until == world.now
    ensures sink.events == events + o.events && sink.stale == stale + o.stale
    ensures ok && Calm(epoch, h, world.writeEpoch, world.activity.history) ==>
              Progress(world.versions, db.inodes, pinned, BusyNow(h), path, AsListing(entries), NamesOf(entries), o)
    ensures Ready(world, db, stages, path, AsListing(entries), o, epoch, h, pinned, NamesOf(entries), ok)
    decreases SYNC_MAX_DEPTH + 1 - depth, 0
  {
    hide *;
    ok, o, stages := true, first, begun;
    var i := 0;
    assert entries[..0] == [] && NamesOf(entries[..0]) == {};
    while ok && i < |entries|
      invariant i <= |entries|
      invariant world.Valid() && WellFormed(db.rows)
      invariant old(world.now) <= world.now && old(world.writeEpoch) <= world.writeEpoch
      invariant old(world.activity.history) <= world.activity.history
      invariant world.failures == old(world.failures) + if ok then 0 else 1
      invariant world.probes == old(world.probes)
      invariant NoneNewlyLoaded(first.before, db.rows)
      invariant o.before == first.before && o.after == db.rows && o.from == first.from && o.until == world.now
      invariant sink.events == events + o.events && sink.stale == stale + o.stale
      invariant ok && Calm(epoch, h, world.writeEpoch, world.activity.history) ==>
                  Progress(world.versions, db.inodes, pinned, BusyNow(h), path, AsListing(entries),
                      NamesOf(entries[..i]), o)
      invariant Ready(world, db, stages, path, AsListing(entries), o, epoch, h, pinned, NamesOf(entries[..i]), ok)
    {
      var line := entries[i];
      var c := path + [line.name];
      if line.entry.isDir && line.name in children && children[line.name].etag != line.entry.etag
          && db.ChildrenLoaded(c) {
        ghost var child, mid, epochMid, hMid := o, db.rows, world.writeEpoch, world.activity.history;
        ghost var now, deeper := world.now, stages;
        LoadedKeepsItsInode(first.before, mid, c);
        ReadyMeans(world, db, stages, path, AsListing(entries), o, epoch, h, pinned, NamesOf(entries[..i]));
        ok, child, deeper := WalkDir(db, world, sink, pinned, children[line.name].inode, c, depth + 1);
        LoadedTransitive(first.before, mid, db.rows);
        if ok && Calm(epoch, h, world.writeEpoch, world.activity.history) {
          CalmThroughout(epoch, h, epochMid, hMid, world.writeEpoch, world.activity.history);
          ChildWalked(world.versions, db.inodes, pinned, BusyNow(h), path, entries, i, o, child);
        }
        Appended(events, o.events, child.events);
        Appended(stale, o.stale, child.stale);
        ReadyDeeper(world, db, stages, deeper, path, entries, i, o, child, epoch, epochMid, h, hMid, now, pinned, ok);
        stages := stages + deeper;
        o := Joined(o, child);
      } else {
        if Calm(epoch, h, world.writeEpoch, world.activity.history) {
          ChildLeft(world.versions, db.inodes, pinned, BusyNow(h), path, entries, i, o);
        }
        ReadyPassed(world, db, stages, path, entries, i, o, epoch, h, pinned);
      }
      i := i + 1;
    }
    assert ok ==> entries[..i] == entries;
    if !ok {
      NamesSoFar(entries, i);
      MoreDone(world, db, stages, path, AsListing(entries), o, epoch, h, pinned, NamesOf(entries[..i]),
          NamesOf(entries));
    }
  }

  lemma BusyMeans(inode: nat, h: History, hNow: History)
    requires hNow == h
    ensures BusyAllAlong(inode, h, hNow) <==> inode in BusyNow(h)
  {
  }

  lemma WorldSpans(world: World, from: nat)
    requires world.Valid() && from <= world.now
    ensures from <= world.now < |world.versions|
  {
  }

  /** An undisturbed directory was skipped because it was busy. */
  lemma SkippedIsComplete(versions: seq<Node>, inodes: Inodes, pinned: Path -> bool, inode: nat, epoch: nat, h: History,
                          epochNow: nat, hNow: History, p: Path, o: Outcome)
    requires p in o.before && o.before[p].inode == inode && o.from <= o.until < |versions|
    requires Calm(epoch, h, epochNow, hNow) ==> inode in BusyNow(h)
    requires BusyAllAlong(inode, h, hNow) ==>
               o.after == o.before && o.seen == map[] && o.events == [] && o.stale == []
    ensures Calm(epoch, h, epochNow, hNow) ==> Complete(versions, inodes, pinned, BusyNow(h), p, o)
  {
  }

  /** A directory whose listing was used was not busy all along. */
  lemma ListedWasIdle(inode: nat, epoch: nat, h: History, epochNow: nat, listedAt: History, hNow: History)
    requires h <= listedAt <= hNow && !BusyAllAlong(inode, h, listedAt)
    ensures !BusyAllAlong(inode, h, hNow)
    ensures Calm(epoch, h, epochNow, hNow) ==> inode !in BusyNow(h)
  {
    if hNow == h {
      assert listedAt == h;
    }
  }

  lemma NotBusyHere(rows: Rows, p: Path, busy: set<nat>)
    requires p in rows && rows[p].inode !in busy
    ensures !IsBusy(Lookup(rows, p), busy)
  {
  }

  lemma LoadedKeepsItsInode(before: Rows, after: Rows, q: Path)
    requires NoneNewlyLoaded(before, after) && q in after && after[q].loaded
    ensures q in before && before[q].loaded && after[q].inode == before[q].inode
  {
  }

  /** Calm to the end is calm at every moment in between, and from each on. */
  lemma CalmThroughout(epoch: nat, h: History, epochMid: nat, hMid: History, epochNow: nat, hNow: History)
    requires Calm(epoch, h, epochNow, hNow)
    requires epoch <= epochMid <= epochNow && h <= hMid <= hNow
    ensures Calm(epoch, h, epochMid, hMid)
    ensures Calm(epochMid, hMid, epochNow, hNow)
  {
    assert hMid == h;
  }

  // --- A listing beside the walks -----------------------------------------------------

  /** One listing of `path`, as a step of the flow of `holder` or beside the
      machine: applied if nothing else was changing the directory, and then
      reported by the names that came and went. */
  method ReloadDir(db: StateDb, world: World, sink: Sink, holder: Option<nat>, path: Path)
    returns (ok: bool, ghost applied: bool, ghost at: nat, ghost busy: set<nat>)
    requires world.Valid()
    modifies db, world, world.activity, sink`events
    ensures world.Valid() && old(world.now) <= world.now && old(world.activity.history) <= world.activity.history
    ensures world.failures == old(world.failures) + if ok then 0 else 1
    ensures world.probes == old(world.probes)
    ensures path !in old(db.rows) ==> ok && !applied
    ensures !applied ==> db.rows == old(db.rows) && sink.events == old(sink.events)
    ensures applied ==>
              && ok && old(world.now) <= at <= world.now
              && At(world.versions[at], path).Some? && At(world.versions[at], path).value.Dir?
              && db.rows == Merge(old(db.rows), path, ListingOf(At(world.versions[at], path).value.kids), busy,
                  db.inodes)
              && old(sink.events) <= sink.events
              && forall e :: e in sink.events[|old(sink.events)|..] <==>
                   e.EntryChanged? && e.dir == path
                       && CameOrWent(old(db.rows), path, ListingOf(At(world.versions[at], path).value.kids), e.name)
    // A listing that came is applied exactly if the directory was quiet since it
    // was asked for, and then kept away from exactly the children that were not.
    ensures ok && path in old(db.rows) ==>
              (applied <==> Quiet(world.activity, |old(world.activity.history)| - 1, holder, old(db.rows)[path].inode))
    ensures applied ==> busy == BusyAmong(old(db.rows), world.activity, |old(world.activity.history)| - 1, holder, path)
    // If nothing was reported meanwhile, that is an idle directory, and the busy
    // children.
    ensures ok && path in old(db.rows) && holder.None? && world.activity.history == old(world.activity.history) ==>
              && (applied <==> old(db.rows)[path].inode !in BusyNow(world.activity.history))
              && (applied ==> busy == BusyBelow(old(db.rows), BusyNow(world.activity.history), path))
    // Whoever was changing the directory from before the request on, except the
    // holder itself, keeps the listing away.
    ensures applied && holder != Some(old(InodeAt(db, path))) ==>
              !BusyAllAlong(old(InodeAt(db, path)), old(world.activity.history), world.activity.history)
  {
    hide Merge, At, WellFormed, IsRemoved, IsAdded, AsListing, QuietThroughout, Indexes;
    applied, at, busy := false, 0, {};
    if path !in db.rows {
      return true, applied, at, busy;
    }
    var inode, children := db.rows[path].inode, db.ChildrenOf(path);
    ghost var h := world.activity.history;
    var since := world.activity.Seq();
    var answer;
    answer, at := world.Propfind(path);
    if answer.Err? {
      return false, applied, at, busy;
    }
    busy := BusyAmong(db.rows, world.activity, since, holder, path);
    ReloadWasNotBusy(world.activity, h, since, holder, inode);
    if holder.None? && world.activity.history == h {
      BusyExactly(db.rows, world.activity, h, inode, path);
    }
    var quiet := ReconcileIfQuiet(db, world.activity, since, holder, inode, path, answer.value);
    ok := true;
    if !quiet {
      return;
    }
    applied := true;
    ListingHasTheLines(answer.value);
    ReportRemoved(sink, path, children, AsListing(answer.value));
    ghost var between := |sink.events|;
    ReportAdded(sink, path, children, answer.value);
    assert sink.events[|old(sink.events)|..] == sink.events[|old(sink.events)|..between] + sink.events[between..];
    ReloadReports(old(db.rows), path, children, answer.value);
  }

  function InodeAt(db: StateDb, path: Path): nat
    reads db
  {
    if path in db.rows then db.rows[path].inode else 0
  }

  /** The name is new to the directory, or gone from the server. */
  predicate CameOrWent(rows: Rows, path: Path, listing: Listing, n: Name) {
    if path + [n] in rows then rows[path + [n]].fileId.Some? && n !in listing else n in listing
  }

  lemma ReloadWasNotBusy(activity: Activity, h: History, since: nat, holder: Option<nat>, inode: nat)
    requires activity.Valid() && h <= activity.history && since == |h| - 1
    ensures Quiet(activity, since, holder, inode) && holder != Some(inode) ==> !BusyAllAlong(inode, h, activity.history)
  {
    if BusyAllAlong(inode, h, activity.history) {
      BusyIsNotQuiet(activity, h, since, inode);
    }
  }

  lemma ReloadReports(rows: Rows, path: Path, children: map<Name, Row>, entries: seq<RemoteEntry>)
    requires Distinct(entries)
    requires forall n :: n in children <==> path + [n] in rows
    requires forall n :: n in children ==> children[n] == rows[path + [n]]
    ensures forall e ::
              (IsRemoved(e, path, children, AsListing(entries), children.Keys) || IsAdded(e, path, children, entries))
              <==>
              e.EntryChanged? && e.dir == path && CameOrWent(rows, path, AsListing(entries), e.name)
  {
    ListingHasTheLines(entries);
    assert forall n :: n in AsListing(entries) <==> n in NamesOf(entries);
  }
}

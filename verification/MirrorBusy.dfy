/** What a walk beside a busy machine is worth: the ETag it is remembered with
    stands for the mirror on every server iff the machine was busy with nothing
    the walk could come to list or to merge, and nothing loaded lies deeper than
    walks go. */
module MirrorBusy {
  import opened Common
  import opened MirrorRows
  import opened MirrorWalk
  import opened MirrorSync
  import opened MirrorTheorems

  /** No loaded directory is busy, and no child of one. */
  ghost predicate Clear(rows: Rows, busy: set<nat>) {
    forall q {:trigger Reached(rows, q)} :: Reached(rows, q) ==> rows[q].inode !in busy
  }

  ghost predicate Reached(rows: Rows, q: Path) {
    q in rows && (rows[q].loaded || (q != [] && Parent(q) in rows && rows[Parent(q)].loaded))
  }

  /** A walk the loop would remember, begun on a coherent mirror, the machine being
      busy with `busy` throughout, with the root's ETag read at `probed`. */
  ghost predicate Remembered(versions: seq<Node>, inodes: Inodes, pinned: Path -> bool, busy: set<nat>, o: Outcome,
                             probed: nat) {
    && EtagLaw(versions)
    && Coherent(o.before, versions, o.from)
    && Complete(versions, inodes, pinned, busy, [], o)
    && probed <= o.from
  }

  ghost predicate VouchedAfter(versions: seq<Node>, o: Outcome, probed: nat) {
    probed < |versions| && Vouched(o.after, versions, probed, o.until, versions[probed].etag)
  }

  // --- A walk that met nothing busy -----------------------------------------------

  /** It did what it would have done beside an idle machine. */
  lemma ClearWalkIsIdle(versions: seq<Node>, inodes: Inodes, pinned: Path -> bool, busy: set<nat>, o: Outcome)
    requires WellFormed(o.before) && o.before[[]].loaded && Clear(o.before, busy)
    requires Complete(versions, inodes, pinned, busy, [], o)
    ensures Complete(versions, inodes, pinned, {}, [], o)
  {
    assert Reached(o.before, []);
    SameRule(o.before, o.seen, busy);
    forall q: Path ensures Lookup(o.after, q) == WalkedRow(o.before, o.seen, {}, inodes, [], q) {
      SameRow(o.before, o.seen, busy, inodes, q);
      assert [] <= q;
    }
    hide WellFormed, Clear, WalkedRow, VisitRule, SeenOn, Owed;
    assert Walked(o.before, o.after, o.seen, {}, inodes, []);
  }

  lemma SameRule(rows: Rows, seen: Visits, busy: set<nat>)
    requires WellFormed(rows) && rows[[]].loaded && Clear(rows, busy)
    requires VisitRule(rows, seen, busy, [])
    ensures VisitRule(rows, seen, {}, [])
  {
    forall q, n | q in seen && n in seen[q].listing && Descends(rows, seen[q].listing, {}, q + [n])
      ensures q + [n] in seen
    {
      assert Reached(rows, q + [n]);
      assert Descends(rows, seen[q].listing, busy, q + [n]);
    }
  }

  lemma {:induction false} SameRow(rows: Rows, seen: Visits, busy: set<nat>, inodes: Inodes, q: Path)
    requires WellFormed(rows) && rows[[]].loaded && Clear(rows, busy)
    requires VisitRule(rows, seen, busy, [])
    ensures WalkedRow(rows, seen, busy, inodes, [], q) == WalkedRow(rows, seen, {}, inodes, [], q)
    decreases |q|
  {
    if q != [] {
      if Parent(q) in seen {
        VisitedIsLoaded(rows, seen, busy, Parent(q));
        assert q in rows ==> Reached(rows, q);
      } else {
        SameRow(rows, seen, busy, inodes, Parent(q));
      }
    }
  }

  // --- What it is worth ------------------------------------------------------------

  lemma ClearWalkVouches(versions: seq<Node>, inodes: Inodes, pinned: Path -> bool, busy: set<nat>, o: Outcome,
                         probed: nat)
    requires WellFormed(o.before) && o.before[[]].loaded && Clear(o.before, busy) && WithinDepth(o.before)
    requires Remembered(versions, inodes, pinned, busy, o, probed)
    ensures VouchedAfter(versions, o, probed)
  {
    hide WellFormed, Clear, Coherent, EtagLaw, Vouched, WithinDepth;
    ClearWalkIsIdle(versions, inodes, pinned, busy, o);
    WalkVouches(versions, inodes, pinned, o, probed);
    WalkSpans(versions, inodes, pinned, o);
  }

  /** The listings of a walk, as if all had been taken at once. */
  function AtOnce(seen: Visits): Visits {
    map q | q in seen :: Visit(seen[q].listing, 0)
  }

  lemma {:induction false} AtOnceWalksTheSame(rows: Rows, seen: Visits, inodes: Inodes, q: Path)
    ensures WalkedRow(rows, AtOnce(seen), {}, inodes, [], q) == WalkedRow(rows, seen, {}, inodes, [], q)
    decreases |q|
  {
    if q != [] && Parent(q) !in seen {
      AtOnceWalksTheSame(rows, seen, inodes, Parent(q));
    }
  }

  lemma AtOnceOwesTheSame(rows: Rows, seen: Visits, event: Invalidation)
    ensures Owed(rows, AtOnce(seen), event) <==> Owed(rows, seen, event)
  {
  }

  lemma AtOnceFollowsTheRule(rows: Rows, seen: Visits)
    requires VisitRule(rows, seen, {}, [])
    ensures VisitRule(rows, AtOnce(seen), {}, [])
  {
    hide Descends;
    forall q, n | q in AtOnce(seen) && n in AtOnce(seen)[q].listing
           && Descends(rows, AtOnce(seen)[q].listing, {}, q + [n])
      ensures q + [n] in AtOnce(seen)
    {
      assert Descends(rows, seen[q].listing, {}, q + [n]);
    }
  }

  /** While the server holds still, a walk is a walk of its one tree. */
  lemma WalkOfOneTree(versions: seq<Node>, inodes: Inodes, pinned: Path -> bool, o: Outcome, tree: Node)
    requires Complete(versions, inodes, pinned, {}, [], o)
    requires forall j :: o.from <= j <= o.until ==> versions[j] == tree
    ensures Complete([tree], inodes, pinned, {}, [], o.(from := 0, until := 0, seen := AtOnce(o.seen)))
  {
    AtOnceFollowsTheRule(o.before, o.seen);
    WalkedAtOnce(o, inodes);
    forall event ensures Owed(o.before, AtOnce(o.seen), event) <==> Owed(o.before, o.seen, event) {
      AtOnceOwesTheSame(o.before, o.seen, event);
    }
    hide Walked, Owed, VisitRule;
    assert SeenOn([tree], AtOnce(o.seen), 0, 0);
  }

  lemma WalkedAtOnce(o: Outcome, inodes: Inodes)
    requires Walked(o.before, o.after, o.seen, {}, inodes, [])
    ensures Walked(o.before, o.after, AtOnce(o.seen), {}, inodes, [])
  {
    hide WalkedRow;
    forall q: Path
      ensures WalkedRow(o.before, AtOnce(o.seen), {}, inodes, [], q) == WalkedRow(o.before, o.seen, {}, inodes, [], q)
    {
      AtOnceWalksTheSame(o.before, o.seen, inodes, q);
    }
  }

  /** A walk that could come to nothing busy vouches for the ETag read before it
      iff the server has moved on from that ETag, or the rows' ETags could be
      trusted against the tree it has had all along. */
  lemma ClearWalkVouchesExactly(versions: seq<Node>, inodes: Inodes, pinned: Path -> bool, busy: set<nat>, o: Outcome,
                                probed: nat, now: nat)
    requires EtagLaw(versions) && WellFormed(o.before) && o.before[[]].loaded && Clear(o.before, busy)
               && WithinDepth(o.before)
    requires Complete(versions, inodes, pinned, busy, [], o)
    requires probed <= o.from && o.until <= now < |versions|
    ensures Vouched(o.after, versions, probed, now, versions[probed].etag)
            <==> (versions[now].etag == versions[probed].etag ==> Trusted(o.before, versions[now]))
  {
    hide WellFormed, Clear, EtagLaw, Vouched, Trusted, Agrees, Complete, WithinDepth;
    ClearWalkIsIdle(versions, inodes, pinned, busy, o);
    WalkSpans(versions, inodes, pinned, o);
    PromiseIsAboutOneTree(o.after, versions, probed, versions[probed].etag, now);
    if versions[now].etag == versions[probed].etag {
      forall j | o.from <= j <= o.until ensures versions[j] == versions[now] {
        SameTree(versions, probed, j, now);
      }
      WalkOfOneTree(versions, inodes, pinned, o, versions[now]);
      PrunedWalkIsAFullResync(versions[now], inodes, pinned, o.(from := 0, until := 0, seen := AtOnce(o.seen)));
    }
  }

  lemma WalkSpans(versions: seq<Node>, inodes: Inodes, pinned: Path -> bool, o: Outcome)
    requires Complete(versions, inodes, pinned, {}, [], o)
    ensures o.from <= o.until < |versions|
  {
  }

  // --- A walk that met something busy ---------------------------------------------

  /** A server that has only what lies on the way to one file in the directory
      `t`, all of it under the ETag `e`. */
  function Chain(t: Path, e: Etag): Node {
    Dir(e, 0, if t == [] then map["f" := File(e, 0)] else map[t[0] := Chain(t[1..], e)])
  }

  /** The next name on the way. */
  function NextName(t: Path, p: Path): Name
    requires p <= t
  {
    if p == t then "f" else t[|p|]
  }

  lemma {:induction false} ChainAt(t: Path, e: Etag, q: Path)
    ensures At(Chain(t, e), q) ==
            if q <= t then Some(Chain(t[|q|..], e)) else if q == t + ["f"] then Some(File(e, 0)) else None
    decreases |q|
  {
    if q != [] {
      var up := Parent(q);
      ChainAt(t, e, up);
      assert q == up + [Last(q)];
      if up <= t && |up| < |t| {
        assert t[|up|..][1..] == t[|q|..];
        assert q <= t <==> Last(q) == t[|up|];
      } else if up == t {
        assert t[|t|..] == [];
      }
    } else {
      assert t[0..] == t;
    }
  }

  /** The directories above `t`. */
  function Above(t: Path): set<Path> {
    set i | 0 <= i < |t| :: t[..i]
  }

  function ShownOnTheWay(t: Path, e: Etag, p: Path): Listing
    requires |p| < |t|
  {
    map[t[|p|] := Entry(true, e, 0)]
  }

  /** The walk that goes all the way. */
  function SeenOnTheWay(t: Path, e: Etag): Visits {
    map p | p in Above(t) :: Visit(ShownOnTheWay(t, e, p), 0)
  }

  /** Where a walk does not go on: the machine is busy there, or a loaded directory
      lies too deep. */
  predicate Stops(rows: Rows, busy: set<nat>, q: Path)
    requires q in rows
  {
    rows[q].inode in busy || (rows[q].loaded && |q| > SYNC_MAX_DEPTH)
  }

  /** The way is free down to `t`, where a walk stops; no ETag in the rows is `e`. */
  ghost predicate Blocked(rows: Rows, busy: set<nat>, t: Path, e: Etag) {
    && t != [] && t in rows && Stops(rows, busy, t)
    && (forall p :: p in Above(t) ==> p in rows && rows[p].loaded && !Stops(rows, busy, p))
    && forall q :: q in rows ==> rows[q].etag != e
  }

  lemma AboveIsPrefix(t: Path, p: Path)
    ensures p in Above(t) <==> p < t
  {
    if p < t {
      assert p == t[..|p|];
    }
  }

  lemma WayGoesOn(rows: Rows, busy: set<nat>, t: Path, e: Etag, q: Path)
    requires Blocked(rows, busy, t, e) && q in Above(t) && q != []
    ensures Parent(q) in Above(t) && Descends(rows, ShownOnTheWay(t, e, Parent(q)), busy, q)
  {
    AboveIsPrefix(t, q);
    AboveIsPrefix(t, Parent(q));
  }

  lemma WayEnds(rows: Rows, busy: set<nat>, t: Path, e: Etag, q: Path, n: Name)
    requires Blocked(rows, busy, t, e) && q in Above(t) && n in ShownOnTheWay(t, e, q)
    requires Descends(rows, ShownOnTheWay(t, e, q), busy, q + [n])
    ensures q + [n] in Above(t)
  {
    AboveIsPrefix(t, q);
    AboveIsPrefix(t, q + [n]);
    assert Last(q + [n]) == n == t[|q|];
    assert q + [n] <= t;
    assert !Descends(rows, ShownOnTheWay(t, e, q), busy, t);
    assert q + [n] == t || q + [n] < t;
  }

  lemma WayFollowsTheRule(rows: Rows, busy: set<nat>, t: Path, e: Etag)
    requires Blocked(rows, busy, t, e)
    ensures VisitRule(rows, SeenOnTheWay(t, e), busy, [])
  {
    var seen := SeenOnTheWay(t, e);
    AboveIsPrefix(t, []);
    assert [] in seen;
    hide Blocked, Descends, Above, ShownOnTheWay;
    forall q | q in seen && q != []
      ensures Parent(q) in seen && Descends(rows, seen[Parent(q)].listing, busy, q) && seen[Parent(q)].at <= seen[q].at
    {
      WayGoesOn(rows, busy, t, e, q);
    }
    forall q, n | q in seen && n in seen[q].listing && Descends(rows, seen[q].listing, busy, q + [n])
      ensures q + [n] in seen
    {
      WayEnds(rows, busy, t, e, q, n);
    }
  }

  lemma WayIsShown(t: Path, e: Etag, q: Path)
    requires q in Above(t)
    ensures At(Chain(t, e), q).Some? && At(Chain(t, e), q).value.Dir?
    ensures ShownOnTheWay(t, e, q) == ListingOf(At(Chain(t, e), q).value.kids)
  {
    AboveIsPrefix(t, q);
    ChainAt(t, e, q);
    var rest := t[|q|..];
    assert rest != [] && rest[0] == t[|q|];
    assert EntryOf(Chain(rest[1..], e)) == Entry(true, e, 0);
  }

  lemma WayIsSeen(t: Path, e: Etag)
    ensures SeenOn([Chain(t, e)], SeenOnTheWay(t, e), 0, 0)
  {
    hide Chain, At, Above, ShownOnTheWay;
    var seen := SeenOnTheWay(t, e);
    forall q | q in seen
      ensures At(Chain(t, e), q).Some? && At(Chain(t, e), q).value.Dir?
      ensures seen[q].listing == ListingOf(At(Chain(t, e), q).value.kids)
    {
      WayIsShown(t, e, q);
    }
  }

  /** Its rows are the old ones at most. */
  lemma WayAddsNothing(rows: Rows, busy: set<nat>, inodes: Inodes, t: Path, e: Etag, q: Path)
    requires Blocked(rows, busy, t, e) && WalkedRow(rows, SeenOnTheWay(t, e), busy, inodes, [], q).Some?
    ensures q in rows
  {
    if q != [] && Parent(q) in Above(t) {
      AboveIsPrefix(t, Parent(q));
      AboveIsPrefix(t, q);
      assert q == Parent(q) + [Last(q)];
      if Last(q) == t[|Parent(q)|] {
        assert q <= t;
        assert q == t || q < t;
        assert q in rows;
      } else {
        assert Last(q) !in ShownOnTheWay(t, e, Parent(q));
      }
    }
  }

  ghost function WayRows(rows: Rows, busy: set<nat>, inodes: Inodes, t: Path, e: Etag): Rows {
    map q | q in rows && WalkedRow(rows, SeenOnTheWay(t, e), busy, inodes, [], q).Some?
      :: WalkedRow(rows, SeenOnTheWay(t, e), busy, inodes, [], q).value
  }

  ghost function EntriesOwed(rows: Rows, seen: Visits): set<Invalidation> {
    set q | q in rows && q != [] && Owed(rows, seen, EntryChanged(Parent(q), Last(q))) ::
        EntryChanged(Parent(q), Last(q))
  }

  ghost function ContentsOwed(rows: Rows, seen: Visits): set<Path> {
    set q | q in rows && Owed(rows, seen, ContentChanged(q))
  }

  lemma {:induction false} InSomeOrder<T>(all: set<T>) returns (order: seq<T>)
    ensures forall x :: x in order <==> x in all
    decreases |all|
  {
    if all == {} {
      order := [];
    } else {
      var x :| x in all;
      var rest := InSomeOrder(all - {x});
      order := rest + [x];
    }
  }

  /** What that walk owes is about rows there were. */
  lemma OwedOnTheWay(rows: Rows, busy: set<nat>, t: Path, e: Etag, event: Invalidation)
    requires Blocked(rows, busy, t, e)
    ensures var seen := SeenOnTheWay(t, e);
            Owed(rows, seen, event) <==>
              match event
              case EntryChanged(_, _) => event in EntriesOwed(rows, seen)
              case ContentChanged(q) => q in ContentsOwed(rows, seen)
  {
    match event
    case EntryChanged(dir, name) =>
      var q := dir + [name];
      assert Parent(q) == dir && Last(q) == name;
      if dir in Above(t) && name == t[|dir|] {
        AboveIsPrefix(t, dir);
        AboveIsPrefix(t, q);
        assert q == t[..|q|];
      }
    case ContentChanged(q) =>
  }

  lemma WayIsReported(rows: Rows, busy: set<nat>, pinned: Path -> bool, t: Path, e: Etag)
    returns (events: seq<Invalidation>, stale: seq<Path>)
    requires Blocked(rows, busy, t, e)
    ensures forall event :: event in events <==> Owed(rows, SeenOnTheWay(t, e), event)
    ensures forall q :: q in stale <==> pinned(q) && Owed(rows, SeenOnTheWay(t, e), ContentChanged(q))
  {
    hide *;
    var seen := SeenOnTheWay(t, e);
    var entries, contents := EntriesOwed(rows, seen), ContentsOwed(rows, seen);
    events := InSomeOrder(entries + set q | q in contents :: ContentChanged(q));
    stale := InSomeOrder(set q | q in contents && pinned(q));
    forall event ensures event in events <==> Owed(rows, seen, event) {
      OwedOnTheWay(rows, busy, t, e, event);
      if event in entries {
        EntriesAreEntries(rows, seen, event);
      }
    }
    forall q ensures q in stale <==> pinned(q) && Owed(rows, seen, ContentChanged(q)) {
      OwedOnTheWay(rows, busy, t, e, ContentChanged(q));
    }
  }

  lemma EntriesAreEntries(rows: Rows, seen: Visits, event: Invalidation)
    requires event in EntriesOwed(rows, seen)
    ensures event.EntryChanged?
  {
  }

  lemma WayIsWalked(rows: Rows, busy: set<nat>, inodes: Inodes, t: Path, e: Etag)
    requires Blocked(rows, busy, t, e)
    ensures Walked(rows, WayRows(rows, busy, inodes, t, e), SeenOnTheWay(t, e), busy, inodes, [])
  {
    forall q: Path
      ensures Lookup(WayRows(rows, busy, inodes, t, e), q) == WalkedRow(rows, SeenOnTheWay(t, e), busy, inodes, [], q)
    {
      if WalkedRow(rows, SeenOnTheWay(t, e), busy, inodes, [], q).Some? {
        WayAddsNothing(rows, busy, inodes, t, e, q);
      }
    }
  }

  /** Something busy on the way: the walk the server `Chain` makes of it. */
  lemma BlockedWalk(rows: Rows, busy: set<nat>, inodes: Inodes, pinned: Path -> bool, t: Path, e: Etag)
    returns (o: Outcome)
    requires Blocked(rows, busy, t, e)
    ensures o.before == rows && o.from == 0 && o.until == 0
    ensures Complete([Chain(t, e)], inodes, pinned, busy, [], o)
    ensures o.after == WayRows(rows, busy, inodes, t, e)
  {
    hide *;
    RootIsFree(rows, busy, t, e);
    var events, stale := WayIsReported(rows, busy, pinned, t, e);
    o := Outcome(rows, WayRows(rows, busy, inodes, t, e), 0, 0, SeenOnTheWay(t, e), events, stale);
    WayFollowsTheRule(rows, busy, t, e);
    WayIsSeen(t, e);
    WayIsWalked(rows, busy, inodes, t, e);
    PartsComplete([Chain(t, e)], inodes, pinned, busy, o);
  }

  lemma RootIsFree(rows: Rows, busy: set<nat>, t: Path, e: Etag)
    requires Blocked(rows, busy, t, e)
    ensures !IsBusy(Lookup(rows, []), busy)
  {
    AboveIsPrefix(t, []);
  }

  lemma PartsComplete(versions: seq<Node>, inodes: Inodes, pinned: Path -> bool, busy: set<nat>, o: Outcome)
    requires !IsBusy(Lookup(o.before, []), busy) && VisitRule(o.before, o.seen, busy, [])
    requires o.from <= o.until < |versions|
    requires SeenOn(versions, o.seen, o.from, o.until)
    requires Walked(o.before, o.after, o.seen, busy, inodes, [])
    requires forall e :: e in o.events <==> Owed(o.before, o.seen, e)
    requires forall q :: q in o.stale <==> pinned(q) && Owed(o.before, o.seen, ContentChanged(q))
    ensures Complete(versions, inodes, pinned, busy, [], o)
  {
  }

  /** It leaves a directory loaded whose next child on the way it did not take over:
      the one above a busy row, or the one that lies too deep. */
  lemma WayIsCutOff(rows: Rows, busy: set<nat>, inodes: Inodes, t: Path, e: Etag) returns (p: Path)
    requires WellFormed(rows) && Blocked(rows, busy, t, e)
    ensures p <= t
    ensures var after, n := WayRows(rows, busy, inodes, t, e), NextName(t, p);
            p in after && after[p].loaded && (p + [n] in after ==> after[p + [n]].etag != e)
  {
    if rows[t].inode in busy {
      p := Parent(t);
      BusyRowStays(rows, busy, inodes, t, e);
    } else {
      p := t;
      DeepRowStays(rows, busy, inodes, t, e);
    }
  }

  lemma BusyRowStays(rows: Rows, busy: set<nat>, inodes: Inodes, t: Path, e: Etag)
    requires WellFormed(rows) && Blocked(rows, busy, t, e) && rows[t].inode in busy
    ensures var after := WayRows(rows, busy, inodes, t, e);
            && Parent(t) in after && after[Parent(t)].loaded
            && Parent(t) + [NextName(t, Parent(t))] == t && t in after && after[t] == rows[t]
  {
    var up := Parent(t);
    AboveIsPrefix(t, up);
    if up != [] {
      WayGoesOn(rows, busy, t, e, up);
    }
  }

  lemma DeepRowStays(rows: Rows, busy: set<nat>, inodes: Inodes, t: Path, e: Etag)
    requires WellFormed(rows) && Blocked(rows, busy, t, e) && rows[t].inode !in busy
    ensures var after := WayRows(rows, busy, inodes, t, e);
            && t in after && after[t].loaded
            && (t + ["f"] in after ==> t + ["f"] in rows && after[t + ["f"]] == rows[t + ["f"]])
  {
    var up := Parent(t);
    AboveIsPrefix(t, up);
    AboveIsPrefix(t, t);
    assert Parent(t + ["f"]) == t;
  }

  lemma NotShownThere(rows: Rows, t: Path, e: Etag, p: Path)
    requires p <= t && p in rows && rows[p].loaded
    requires p + [NextName(t, p)] in rows ==> rows[p + [NextName(t, p)]].etag != e
    ensures !Agrees(rows, Chain(t, e))
  {
    ChainAt(t, e, p);
    var n, kids := NextName(t, p), Chain(t[|p|..], e).kids;
    assert n in ListingOf(kids) && ListingOf(kids)[n].etag == e by {
      assert t[|p|..] == [] <==> p == t;
    }
    assert !Shows(rows, p, ListingOf(kids));
    assert !ShowsTree(rows, p, Chain(t, e));
  }

  /** A mirror none of whose ETags the server has is coherent with it. */
  lemma ForeignServerIsCoherent(rows: Rows, t: Path, e: Etag)
    requires forall q :: q in rows ==> rows[q].etag != e
    ensures Coherent(rows, [Chain(t, e)], 0) && EtagLaw([Chain(t, e)])
  {
    OneVersionObeysTheLaw(Chain(t, e));
    forall q | q != [] && q in rows && rows[q].loaded ensures ShownIfCurrent(rows, q, Chain(t, e)) {
      ChainAt(t, e, q);
    }
  }

  lemma {:induction false} SomeOtherEtag(used: set<Etag>) returns (e: Etag)
    ensures forall u :: u in used ==> |u| < |e|
    decreases |used|
  {
    if used == {} {
      e := "";
    } else {
      var u :| u in used;
      e := SomeOtherEtag(used - {u});
      e := e + u + "x";
    }
  }

  /** The first place on the way to one where a walk stops. */
  lemma {:induction false} FirstOnTheWay(rows: Rows, busy: set<nat>, q: Path) returns (t: Path)
    requires WellFormed(rows) && rows[[]].loaded && rows[[]].inode !in busy
    requires Reached(rows, q) && Stops(rows, busy, q)
    ensures t != [] && t in rows && Stops(rows, busy, t)
    ensures forall p :: p in Above(t) ==> p in rows && rows[p].loaded && !Stops(rows, busy, p)
    decreases |q|
  {
    if p :| p in Above(q) && p in rows && Stops(rows, busy, p) {
      AboveIsPrefix(q, p);
      LoadedAboveReached(rows, p, q);
      t := FirstOnTheWay(rows, busy, p);
    } else {
      t := q;
      forall p | p in Above(q) ensures p in rows && rows[p].loaded {
        AboveIsPrefix(q, p);
        LoadedAboveReached(rows, p, q);
      }
    }
  }

  lemma LoadedAboveReached(rows: Rows, p: Path, q: Path)
    requires WellFormed(rows) && Reached(rows, q) && p < q
    ensures p in rows && rows[p].loaded
  {
    var up := Parent(q);
    assert up in rows && rows[up].loaded;
    if p != up {
      LoadedAbove(rows, p, up);
    }
  }

  // --- Exactly --------------------------------------------------------------------

  /** Every remembered walk on every server vouches iff nothing the walk can reach
      was busy, and nothing loaded lies deeper than walks go. */
  lemma RememberedWalkVouchesExactly(rows: Rows, inodes: Inodes, pinned: Path -> bool, busy: set<nat>)
    requires WellFormed(rows) && rows[[]].loaded
    ensures (forall versions: seq<Node>, o: Outcome, probed: nat ::
               o.before == rows && Remembered(versions, inodes, pinned, busy, o, probed) ==>
                   VouchedAfter(versions, o, probed))
            <==> Clear(rows, busy) && WithinDepth(rows)
  {
    if Clear(rows, busy) && WithinDepth(rows) {
      forall versions: seq<Node>, o: Outcome, probed: nat | o.before == rows
             && Remembered(versions, inodes, pinned, busy, o, probed)
        ensures VouchedAfter(versions, o, probed)
      {
        ClearWalkVouches(versions, inodes, pinned, busy, o, probed);
      }
    } else {
      var versions, o := WalkThatVouchesWrongly(rows, inodes, pinned, busy);
      assert o.before == rows && Remembered(versions, inodes, pinned, busy, o, 0) && !VouchedAfter(versions, o, 0);
    }
  }

  /** Something busy, or a directory too deep. */
  lemma WalkStopsSomewhere(rows: Rows, busy: set<nat>) returns (q: Path)
    requires WellFormed(rows) && !(Clear(rows, busy) && WithinDepth(rows))
    ensures Reached(rows, q) && Stops(rows, busy, q)
  {
    if !Clear(rows, busy) {
      q :| Reached(rows, q) && rows[q].inode in busy;
    } else {
      q :| q in rows && rows[q].loaded && |q| > SYNC_MAX_DEPTH;
    }
  }

  lemma WalkThatVouchesWrongly(rows: Rows, inodes: Inodes, pinned: Path -> bool, busy: set<nat>)
    returns (versions: seq<Node>, o: Outcome)
    requires WellFormed(rows) && rows[[]].loaded && !(Clear(rows, busy) && WithinDepth(rows))
    ensures o.before == rows && Remembered(versions, inodes, pinned, busy, o, 0) && !VouchedAfter(versions, o, 0)
  {
    var e := SomeOtherEtag(set q | q in rows :: rows[q].etag);
    var t: Path, p: Path;
    if rows[[]].inode in busy {
      t, p := [], [];
      o := Outcome(rows, rows, 0, 0, map[], [], []);
    } else {
      var q := WalkStopsSomewhere(rows, busy);
      t := FirstOnTheWay(rows, busy, q);
      o := BlockedWalk(rows, busy, inodes, pinned, t, e);
      p := WayIsCutOff(rows, busy, inodes, t, e);
    }
    versions := [Chain(t, e)];
    ForeignServerIsCoherent(rows, t, e);
    NotShownThere(o.after, t, e, p);
    hide WellFormed, Clear, Coherent, EtagLaw, Agrees, Stops, WithinDepth;
    assert versions[0].etag == versions[0].etag && !Agrees(o.after, versions[0]);
  }
}

/** A walk of the mirror as a run of listings, whatever happens between them: other
    clients change the server, flows begin and end, and a listing that came too
    late is dropped where it would have been applied. */
module MirrorStages {
  import opened Common
  import opened Activity
  import opened MirrorRows
  import opened MirrorWalk

  /** One listing: the directory, the rows it found, the count and whether the write
      epoch had moved when the answer `listing` (of version `at`) was there, the
      busy history and its floor by then, the rows it left and what it reported. */
  datatype Stage = Stage(path: Path, before: Rows, since: nat, moved: bool, at: nat, listing: Listing, h: History,
      floor: nat, after: Rows, events: seq<Invalidation>)

  /** `o` was changing at some time between the question and the answer, or nobody
      remembers. */
  ghost predicate Troubled(s: Stage, o: nat) {
    s.since < s.floor || exists i :: s.since <= i < |s.h| && o in s.h[i]
  }

  /** The listing is used exactly if no local change came in between, to the write
      epoch or to the directory. */
  ghost predicate Used(s: Stage) {
    !s.moved && s.path in s.before && !Troubled(s, s.before[s.path].inode)
  }

  /** What a listing does: nothing, or a merge that leaves alone just the children
      that were changing, with a report of what it showed. */
  ghost predicate IsStage(versions: seq<Node>, inodes: Inodes, s: Stage) {
    && s.path in s.before && s.before[s.path].loaded && s.since < |s.h|
    && s.at < |versions| && At(versions[s.at], s.path).Some? && At(versions[s.at], s.path).value.Dir?
    && s.listing == ListingOf(At(versions[s.at], s.path).value.kids)
    && (!Used(s) ==> s.after == s.before && s.events == [])
    && (Used(s) ==>
          exists busy: set<nat> ::
            SparesTroubled(s, busy) && s.after == Merge(s.before, s.path, s.listing, busy, inodes))
    && (Used(s) ==> forall e :: e in s.events <==> Owed(s.before, map[s.path := Visit(s.listing, s.at)], e))
  }

  ghost predicate SparesTroubled(s: Stage, busy: set<nat>) {
    forall n :: s.path + [n] in s.before ==>
      (s.before[s.path + [n]].inode in busy <==> Troubled(s, s.before[s.path + [n]].inode))
  }

  /** From the directory of this listing the walk goes on into `c`: a child directory
      that had a row with another ETag and has a loaded one now. */
  ghost predicate GoesInto(s: Stage, c: Path) {
    && Used(s) && c != [] && Parent(c) == s.path && |c| <= SYNC_MAX_DEPTH
    && Last(c) in s.listing && s.listing[Last(c)].isDir
    && c in s.before && s.before[c].etag != s.listing[Last(c)].etag
    && c in s.after && s.after[c].loaded
  }

  /** One listing after another, nothing else touching the rows. */
  ghost predicate InTurn(versions: seq<Node>, inodes: Inodes, stages: seq<Stage>, before: Rows, after: Rows) {
    && (forall i :: 0 <= i < |stages| ==> IsStage(versions, inodes, stages[i]))
    && (forall i :: 0 < i < |stages| ==> stages[i].before == stages[i - 1].after)
    && (if stages == [] then after == before
        else stages[0].before == before && stages[|stages| - 1].after == after)
  }

  /** `p` first, every other directory after the one it was gone into from, and none
      twice. */
  ghost predicate Reached(p: Path, stages: seq<Stage>) {
    && (stages != [] ==> stages[0].path == p)
    && (forall i :: 0 <= i < |stages| ==> p <= stages[i].path)
    && (forall i :: 0 < i < |stages| ==> exists k :: 0 <= k < i && GoesInto(stages[k], stages[i].path))
    && (forall i, j :: 0 <= i < j < |stages| ==> stages[i].path != stages[j].path)
  }

  ghost predicate IsListed(stages: seq<Stage>, c: Path) {
    exists i :: 0 <= i < |stages| && stages[i].path == c
  }

  /** Nothing the walk was to go into was left out. */
  ghost predicate Exhaustive(stages: seq<Stage>) {
    forall k, c :: 0 <= k < |stages| && GoesInto(stages[k], c) ==> IsListed(stages, c)
  }

  /** The same, with the children of the first directory behind it as far as `done`. */
  ghost predicate ReachedSoFar(p: Path, stages: seq<Stage>, done: set<Name>) {
    && stages != [] && Reached(p, stages)
    && forall i :: 0 < i < |stages| ==> p < stages[i].path && stages[i].path[|p|] in done
  }

  ghost predicate ExhaustiveSoFar(stages: seq<Stage>, done: set<Name>) {
    forall k, c :: 0 <= k < |stages| && GoesInto(stages[k], c) && (k == 0 ==> Last(c) in done) ==> IsListed(stages, c)
  }

  function Reports(stages: seq<Stage>): seq<Invalidation> {
    if stages == [] then [] else Reports(stages[..|stages| - 1]) + stages[|stages| - 1].events
  }

  lemma {:induction false} ReportsOfConcat(a: seq<Stage>, b: seq<Stage>)
    ensures Reports(a + b) == Reports(a) + Reports(b)
    decreases |b|
  {
    if b == [] {
      assert a + b == a;
    } else {
      var init := b[..|b| - 1];
      assert (a + b)[..|a + b| - 1] == a + init;
      ReportsOfConcat(a, init);
    }
  }

  /** A listing changes rows of its directory and below it only. */
  lemma StageStaysBelow(versions: seq<Node>, inodes: Inodes, s: Stage, q: Path)
    requires IsStage(versions, inodes, s) && !(s.path <= q)
    ensures Lookup(s.after, q) == Lookup(s.before, q)
  {
    if Used(s) {
      var busy: set<nat> :| SparesTroubled(s, busy) && s.after == Merge(s.before, s.path, s.listing, busy, inodes);
      MergePointwise(s.before, s.path, s.listing, busy, inodes, q);
    }
  }

  lemma {:induction false} StagesStayBelow(versions: seq<Node>, inodes: Inodes, stages: seq<Stage>, before: Rows,
                                           after: Rows, c: Path, q: Path)
    requires InTurn(versions, inodes, stages, before, after)
    requires forall i :: 0 <= i < |stages| ==> c <= stages[i].path
    requires !(c <= q)
    ensures Lookup(after, q) == Lookup(before, q)
    decreases |stages|
  {
    if stages != [] {
      var last := stages[|stages| - 1];
      StageStaysBelow(versions, inodes, last, q);
      StagesStayBelow(versions, inodes, stages[..|stages| - 1], before, last.before, c, q);
    }
  }

  /** The listings lie between two moments of the world, given by the busy history,
      the server's version and whether the write epoch moved in between. */
  ghost predicate During(stages: seq<Stage>, h: History, later: History, from: nat, until: nat, moved: bool) {
    forall i :: 0 <= i < |stages| ==>
      && |h| <= stages[i].since + 1 && stages[i].h <= later
      && from <= stages[i].at <= until
      && (stages[i].moved ==> moved)
  }

  lemma DuringJoins(a: seq<Stage>, b: seq<Stage>, h: History, mid: History, later: History, from: nat, at: nat,
                    until: nat, movedA: bool, movedB: bool, moved: bool)
    requires During(a, h, mid, from, at, movedA) && During(b, mid, later, at, until, movedB)
    requires h <= mid <= later && from <= at <= until && (movedA || movedB ==> moved)
    ensures During(a + b, h, later, from, until, moved)
  {
  }

  // --- Walks join ---------------------------------------------------------------------

  lemma InTurnJoins(versions: seq<Node>, inodes: Inodes, a: seq<Stage>, b: seq<Stage>, before: Rows, mid: Rows,
                    after: Rows)
    requires InTurn(versions, inodes, a, before, mid) && InTurn(versions, inodes, b, mid, after)
    ensures InTurn(versions, inodes, a + b, before, after)
  {
    hide IsStage;
    var all := a + b;
    forall i | 0 < i < |all| ensures all[i].before == all[i - 1].after {
      if i >= |a| {
        assert all[i] == b[i - |a|];
      }
    }
  }

  lemma ReachedJoins(p: Path, c: Path, done: set<Name>, a: seq<Stage>, b: seq<Stage>)
    requires ReachedSoFar(p, a, done) && Reached(c, b)
    requires GoesInto(a[0], c) && Last(c) !in done
    ensures ReachedSoFar(p, a + b, done + {Last(c)})
  {
    var all := a + b;
    assert Parent(c) == p && c[|p|] == Last(c);
    forall i | |a| <= i < |all| ensures p < all[i].path && all[i].path[|p|] == Last(c) {
      assert all[i] == b[i - |a|] && c <= all[i].path;
    }
    forall i | 0 < i < |all| ensures exists k :: 0 <= k < i && GoesInto(all[k], all[i].path) {
      ParentIsEarlier(p, c, done, a, b, i);
    }
    hide GoesInto;
    DistinctJoins(p, c, done, a, b);
  }

  lemma ParentIsEarlier(p: Path, c: Path, done: set<Name>, a: seq<Stage>, b: seq<Stage>, i: nat)
    requires ReachedSoFar(p, a, done) && Reached(c, b) && GoesInto(a[0], c) && 0 < i < |a + b|
    ensures exists k :: 0 <= k < i && GoesInto((a + b)[k], (a + b)[i].path)
  {
    hide GoesInto;
    var all := a + b;
    if i < |a| {
      var k :| 0 <= k < i && GoesInto(a[k], a[i].path);
      assert GoesInto(all[k], all[i].path);
    } else if i == |a| {
      assert all[i] == b[0] && GoesInto(all[0], all[i].path);
    } else {
      var k :| 0 <= k < i - |a| && GoesInto(b[k], b[i - |a|].path);
      assert GoesInto(all[k + |a|], all[i].path);
    }
  }

  lemma DistinctJoins(p: Path, c: Path, done: set<Name>, a: seq<Stage>, b: seq<Stage>)
    requires ReachedSoFar(p, a, done) && Reached(c, b) && c != [] && Parent(c) == p && Last(c) !in done
    ensures forall i, j :: 0 <= i < j < |a + b| ==> (a + b)[i].path != (a + b)[j].path
  {
    hide GoesInto;
    var all := a + b;
    assert c[|p|] == Last(c);
    forall i, j | 0 <= i < |a| <= j < |all| ensures all[i].path != all[j].path {
      assert all[j] == b[j - |a|] && c <= all[j].path;
      assert all[j].path[|p|] == Last(c) && all[i] == a[i];
    }
    forall i, j | |a| <= i < j < |all| ensures all[i].path != all[j].path {
      assert b[i - |a|].path != b[j - |a|].path;
    }
  }

  lemma ListedInBoth(a: seq<Stage>, b: seq<Stage>, c: Path)
    ensures IsListed(a + b, c) <==> IsListed(a, c) || IsListed(b, c)
  {
    if i :| 0 <= i < |a| && a[i].path == c {
      assert (a + b)[i].path == c;
    }
    if i :| 0 <= i < |b| && b[i].path == c {
      assert (a + b)[|a| + i].path == c;
    }
  }

  lemma ExhaustiveJoins(p: Path, c: Path, done: set<Name>, a: seq<Stage>, b: seq<Stage>)
    requires a != [] && a[0].path == p && ExhaustiveSoFar(a, done) && Exhaustive(b)
    requires c != [] && Parent(c) == p && (|c| <= SYNC_MAX_DEPTH ==> IsListed(b, c))
    ensures ExhaustiveSoFar(a + b, done + {Last(c)})
  {
    hide Used;
    var all := a + b;
    forall k, d | 0 <= k < |all| && GoesInto(all[k], d) && (k == 0 ==> Last(d) in done + {Last(c)})
      ensures IsListed(all, d)
    {
      ListedInBoth(a, b, d);
      if k >= |a| {
        assert all[k] == b[k - |a|];
      } else if k == 0 && Last(d) == Last(c) {
        assert d == p + [Last(c)] == c;
      } else {
        assert all[k] == a[k];
      }
    }
  }

  /** A child that is not gone into needs nothing more. */
  lemma ChildPassed(p: Path, n: Name, done: set<Name>, stages: seq<Stage>)
    requires ReachedSoFar(p, stages, done) && !GoesInto(stages[0], p + [n])
    ensures ReachedSoFar(p, stages, done + {n})
    ensures ExhaustiveSoFar(stages, done) ==> ExhaustiveSoFar(stages, done + {n})
  {
    hide Used;
    if ExhaustiveSoFar(stages, done) {
      forall k, d | 0 <= k < |stages| && GoesInto(stages[k], d) && (k == 0 ==> Last(d) in done + {n})
        ensures IsListed(stages, d)
      {
        assert k == 0 && Last(d) == n ==> d == p + [n];
      }
    }
  }

  lemma AllPassed(stages: seq<Stage>, done: set<Name>)
    requires stages != [] && stages[0].listing.Keys <= done && ExhaustiveSoFar(stages, done)
    ensures Exhaustive(stages)
  {
    hide Used;
  }

  /** The children's rows that no walk has come to yet are as their directory's
      listing left them. */
  ghost predicate Undone(rows: Rows, s: Stage, done: set<Name>) {
    forall n {:trigger s.path + [n]} :: n !in done ==> Lookup(rows, s.path + [n]) == Lookup(s.after, s.path + [n])
  }

  /** A walk that is one listing so far. */
  lemma OneListing(versions: seq<Node>, inodes: Inodes, s: Stage)
    requires IsStage(versions, inodes, s)
    ensures InTurn(versions, inodes, [s], s.before, s.after) && Undone(s.after, s, {})
    ensures ReachedSoFar(s.path, [s], {}) && ExhaustiveSoFar([s], {})
    ensures IsListed([s], s.path) && (!Used(s) ==> Exhaustive([s]))
  {
    hide IsStage;
    assert [s][0].path == s.path;
  }

  lemma NoListing(versions: seq<Node>, inodes: Inodes, rows: Rows, p: Path)
    ensures InTurn(versions, inodes, [], rows, rows) && Reached(p, []) && Exhaustive([])
    ensures Reports([]) == []
  {
  }

  /** What the walk of a child adds, deep or shallow. */
  lemma ChildJoins(versions: seq<Node>, inodes: Inodes, p: Path, n: Name, done: set<Name>, a: seq<Stage>,
                   b: seq<Stage>, before: Rows, mid: Rows, after: Rows)
    requires InTurn(versions, inodes, a, before, mid) && InTurn(versions, inodes, b, mid, after)
    requires ReachedSoFar(p, a, done) && Reached(p + [n], b) && n !in done && Undone(mid, a[0], done)
    requires var s, c := a[0], p + [n];
             Used(s) && n in s.listing && s.listing[n].isDir && c in s.before && s.before[c].etag != s.listing[n].etag
             && c in mid && mid[c].loaded
    requires |p| + 1 > SYNC_MAX_DEPTH ==> b == []
    ensures InTurn(versions, inodes, a + b, before, after)
    ensures ReachedSoFar(p, a + b, done + {n}) && Undone(after, a[0], done + {n})
    ensures ExhaustiveSoFar(a, done) && Exhaustive(b) && (|p| + 1 <= SYNC_MAX_DEPTH ==> IsListed(b, p + [n])) ==>
              ExhaustiveSoFar(a + b, done + {n})
  {
    var s, c := a[0], p + [n];
    assert Lookup(mid, c) == Lookup(s.after, c);
    assert Parent(c) == p && Last(c) == n;
    assert GoesInto(s, c) <==> |c| <= SYNC_MAX_DEPTH;
    hide GoesInto, IsStage, Used;
    InTurnJoins(versions, inodes, a, b, before, mid, after);
    StaysUndone(versions, inodes, p, n, done, s, b, mid, after);
    hide InTurn, Undone;
    if |c| <= SYNC_MAX_DEPTH {
      ReachedJoins(p, c, done, a, b);
    } else {
      ChildPassed(p, n, done, a);
      assert a + b == a;
    }
    if ExhaustiveSoFar(a, done) && Exhaustive(b) && (|p| + 1 <= SYNC_MAX_DEPTH ==> IsListed(b, c)) {
      ExhaustiveJoins(p, c, done, a, b);
    }
  }

  lemma SiblingsApart(p: Path, n: Name, m: Name)
    ensures p + [n] <= p + [m] ==> n == m
  {
    assert (p + [m])[|p|] == m && (p + [n])[|p|] == n;
  }

  lemma StaysUndone(versions: seq<Node>, inodes: Inodes, p: Path, n: Name, done: set<Name>, s: Stage, b: seq<Stage>,
                    mid: Rows, after: Rows)
    requires s.path == p && Undone(mid, s, done) && InTurn(versions, inodes, b, mid, after) && Reached(p + [n], b)
    ensures Undone(after, s, done + {n})
  {
    forall m | m !in done + {n} ensures Lookup(after, p + [m]) == Lookup(s.after, p + [m]) {
      SiblingsApart(p, n, m);
      assert forall i :: 0 <= i < |b| ==> p + [n] <= b[i].path;
      hide InTurn, Reached;
      StagesStayBelow(versions, inodes, b, mid, after, p + [n], p + [m]);
    }
  }

  lemma FewerUndone(rows: Rows, s: Stage, done: set<Name>, n: Name)
    requires Undone(rows, s, done)
    ensures Undone(rows, s, done + {n})
    ensures n !in done ==> Lookup(rows, s.path + [n]) == Lookup(s.after, s.path + [n])
  {
  }
}

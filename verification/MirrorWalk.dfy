/** The sync walk of `provider.rs`: list a directory, apply the listing, report
    what changed, and descend only where a child directory's ETag moved. */
module MirrorWalk {
  import opened Common
  import opened MirrorRows

  /** How deep the walk descends. */
  const SYNC_MAX_DEPTH: nat := 64

  datatype Invalidation =
    | EntryChanged(dir: Path, name: Name)
    | ContentChanged(path: Path)

  // --- What a walk does to the rows, path by path ---------------------------------

  /** A directory the walk listed: what it was shown, and at which version of the
      server. */
  datatype Visit = Visit(listing: Listing, at: nat)

  type Visits = map<Path, Visit>

  /** The walk lists `c` too: a loaded child directory whose ETag moved, that the
      machine is not busy with and that lies no deeper than walks go. */
  predicate Descends(rows: Rows, listing: Listing, busy: set<nat>, c: Path) {
    && c != [] && |c| <= SYNC_MAX_DEPTH
    && Last(c) in listing && listing[Last(c)].isDir
    && c in rows && rows[c].etag != listing[Last(c)].etag
    && rows[c].loaded
    && rows[c].inode !in busy
  }

  /** The visited directories below `p` are `p` itself and, from there on, exactly
      those the walk descends into, each listed after its parent. */
  ghost predicate VisitRule(rows: Rows, seen: Visits, busy: set<nat>, p: Path) {
    && p in seen
    && (forall q :: q in seen ==> p <= q)
    && (forall q {:trigger Parent(q)} :: q in seen && q != p ==>
          && Parent(q) in seen
          && Descends(rows, seen[Parent(q)].listing, busy, q)
          && seen[Parent(q)].at <= seen[q].at)
    && (forall q, n {:trigger Descends(rows, seen[q].listing, busy, q + [n])} ::
        q in seen && n in seen[q].listing && Descends(rows, seen[q].listing, busy, q + [n]) ==> q + [n] in seen)
  }

  /** Every listing was the server's at the version it was taken. */
  ghost predicate SeenOn(versions: seq<Node>, seen: Visits, from: nat, until: nat) {
    forall q :: q in seen ==>
      && from <= seen[q].at <= until < |versions|
      && At(versions[seen[q].at], q).Some?
      && At(versions[seen[q].at], q).value.Dir?
      && seen[q].listing == ListingOf(At(versions[seen[q].at], q).value.kids)
  }

  /** The row at `q`, at or below `p`, after a walk of `p` during which the machine
      was busy with `busy` throughout. */
  ghost function WalkedRow(rows: Rows, seen: Visits, busy: set<nat>, inodes: Inodes, p: Path, q: Path): Option<Row>
    requires p <= q
    decreases |q|
  {
    if q == p then Lookup(rows, p)
    else
      var up := Parent(q);
      if up in seen then
        MergedChild(Lookup(rows, q), Lookup(seen[up].listing, Last(q)), IsBusy(Lookup(rows, q), busy), inodes(q))
      else
        var above := WalkedRow(rows, seen, busy, inodes, p, up);
        if above.Some? && above.value.isDir && up in rows && rows[up].isDir then Lookup(rows, q) else None
  }

  /** The rows after an undisturbed walk of `p`: `WalkedRow` at and below it, the
      old rows everywhere else. */
  ghost predicate Walked(before: Rows, after: Rows, seen: Visits, busy: set<nat>, inodes: Inodes, p: Path) {
    forall q :: Lookup(after, q) == if p <= q then WalkedRow(before, seen, busy, inodes, p, q) else Lookup(before, q)
  }

  /** The events a walk owes: a name that came or went in a directory it listed,
      and a file whose ETag moved. */
  ghost predicate Owed(rows: Rows, seen: Visits, event: Invalidation) {
    match event
    case EntryChanged(dir, name) =>
      && dir in seen
      && if dir + [name] in rows then rows[dir + [name]].fileId.Some? && name !in seen[dir].listing
         else name in seen[dir].listing
    case ContentChanged(path) =>
      && path != [] && Parent(path) in seen && path in rows
      && !rows[path].isDir
      && Last(path) in seen[Parent(path)].listing
      && rows[path].etag != seen[Parent(path)].listing[Last(path)].etag
  }

  /** Nothing loaded lies deeper than the walk goes. */
  ghost predicate WithinDepth(rows: Rows) {
    forall q :: q in rows && rows[q].loaded ==> |q| <= SYNC_MAX_DEPTH
  }

  // --- The lemmas the walk rests on -------------------------------------------------

  /** Only what was listed strictly above a path, below `p`, bears on its row. */
  lemma {:induction false} OnlyAncestorsMatter(rows: Rows, seen: Visits, more: Visits, busy: set<nat>, inodes: Inodes,
                                               p: Path, q: Path)
    requires p <= q
    requires forall r :: p <= r < q ==> Lookup(seen, r) == Lookup(more, r)
    ensures WalkedRow(rows, seen, busy, inodes, p, q) == WalkedRow(rows, more, busy, inodes, p, q)
    decreases |q|
  {
    if q != p {
      var up := Parent(q);
      assert p <= up < q;
      assert Lookup(seen, up) == Lookup(more, up);
      OnlyAncestorsMatter(rows, seen, more, busy, inodes, p, up);
    }
  }

  /** Below a directory that survived and was not listed, nothing moves. */
  lemma {:induction false} UntouchedBelow(rows: Rows, seen: Visits, busy: set<nat>, inodes: Inodes, p: Path, c: Path,
                                          q: Path)
    requires WellFormed(rows)
    requires p <= c < q
    requires forall r :: r in seen ==> !(c <= r)
    requires c in rows && rows[c].isDir
    requires WalkedRow(rows, seen, busy, inodes, p, c).Some? && WalkedRow(rows, seen, busy, inodes, p, c).value.isDir
    ensures WalkedRow(rows, seen, busy, inodes, p, q) == Lookup(rows, q)
    decreases |q|
  {
    var up := Parent(q);
    assert c <= up;
    if up != c {
      UntouchedBelow(rows, seen, busy, inodes, p, c, up);
    }
  }

  /** Applying the first listing is a walk that listed `p` alone. */
  lemma {:induction false} FirstListing(rows: Rows, listing: Listing, at: nat, busy: set<nat>, inodes: Inodes, p: Path,
                                        q: Path)
    requires WellFormed(rows)
    requires p in rows && rows[p].loaded && p <= q
    ensures MergedRow(rows, p, listing, busy, inodes, q) ==
              WalkedRow(rows, map[p := Visit(listing, at)], busy, inodes, p, q)
    decreases |q|
  {
    if |q| > |p| + 1 {
      var up, child := Parent(q), q[..|p| + 1];
      assert up[..|p| + 1] == child && p < up && up != p;
      FirstListing(rows, listing, at, busy, inodes, p, up);
      if up == child {
        KeptIfStillADirectory(rows, listing, IsBusy(Lookup(rows, child), busy), inodes, p, child);
      } else {
        hide MergedChild, Kept;
        assert up in rows ==> rows[Parent(up)].isDir;
        assert q in rows ==> up in rows && rows[up].isDir;
      }
    } else if q != p {
      assert q[..|p| + 1] == q && Parent(q) == p;
    }
  }

  /** A directory's subtree is kept exactly when its row is still a directory. */
  lemma KeptIfStillADirectory(rows: Rows, listing: Listing, busy: bool, inodes: Inodes, p: Path, child: Path)
    requires p < child && |child| == |p| + 1
    ensures var was, entry := Lookup(rows, child), Lookup(listing, child[|p|]);
            was.Some? && was.value.isDir ==>
              (Kept(was, entry, busy) <==>
               MergedChild(was, entry, busy, inodes(child)).Some?
                   && MergedChild(was, entry, busy, inodes(child)).value.isDir)
  {
  }

  /** A walk of a child directory, done on the rows so far, extends the walk. */
  lemma {:induction false} ChildWalkExtends(rows: Rows, mid: Rows, seen: Visits, deeper: Visits, busy: set<nat>,
                                            inodes: Inodes, p: Path, c: Path, q: Path)
    requires WellFormed(rows)
    requires p < c <= q && Parent(c) == p
    requires p in seen && (forall r :: r in seen ==> p <= r && !(c <= r))
    requires forall r :: r in deeper ==> c <= r
    requires c in rows && rows[c].isDir
    requires c in mid && mid[c].isDir
    requires forall r :: p <= r ==> Lookup(mid, r) == WalkedRow(rows, seen, busy, inodes, p, r)
    ensures WalkedRow(mid, deeper, busy, inodes, c, q) == WalkedRow(rows, seen + deeper, busy, inodes, p, q)
    decreases |q|
  {
    var both := seen + deeper;
    if q == c {
      OnlyAncestorsMatter(rows, seen, both, busy, inodes, p, c);
      assert Lookup(mid, c) == WalkedRow(rows, seen, busy, inodes, p, c);
    } else {
      var up := Parent(q);
      assert c <= up;
      ChildWalkExtends(rows, mid, seen, deeper, busy, inodes, p, c, up);
      UntouchedBelow(rows, seen, busy, inodes, p, c, q);
      assert Lookup(mid, q) == Lookup(rows, q);
      if up != c {
        UntouchedBelow(rows, seen, busy, inodes, p, c, up);
        assert Lookup(mid, up) == Lookup(rows, up);
      }
    }
  }

  /** The visit rule with the children of `p` decided only as far as `done`. */
  ghost predicate VisitRuleSoFar(rows: Rows, seen: Visits, busy: set<nat>, p: Path, done: set<Name>) {
    && p in seen
    && (forall q :: q in seen ==> p <= q)
    && (forall q {:trigger Parent(q)} :: q in seen && q != p ==>
          && Parent(q) in seen
          && Descends(rows, seen[Parent(q)].listing, busy, q)
          && seen[Parent(q)].at <= seen[q].at)
    && (forall q :: q in seen && q != p ==> q[|p|] in done)
    && (forall q, n {:trigger Descends(rows, seen[q].listing, busy, q + [n])} ::
          && q in seen && n in seen[q].listing && (q == p ==> n in done)
          && Descends(rows, seen[q].listing, busy, q + [n]) ==>
            q + [n] in seen)
  }

  lemma AboveInBoth(rows: Rows, mid: Rows, seen: Visits, deeper: Visits, busy: set<nat>, p: Path, c: Path,
                    done: set<Name>, q: Path)
    requires VisitRuleSoFar(rows, seen, busy, p, done)
    requires p < c && Parent(c) == p && Last(c) !in done
    requires Descends(rows, seen[p].listing, busy, c)
    requires VisitRule(mid, deeper, busy, c) && seen[p].at <= deeper[c].at
    requires forall q :: c < q ==> Lookup(mid, q) == Lookup(rows, q)
    requires forall r :: r in seen ==> !(c <= r)
    requires q in seen + deeper && q != p
    ensures var both := seen + deeper;
            && Parent(q) in both && Descends(rows, both[Parent(q)].listing, busy, q)
            && both[Parent(q)].at <= both[q].at && q[|p|] in done + {Last(c)}
  {
    if q in deeper {
      assert c <= q && q[|p|] == Last(c);
      if q != c {
        assert Parent(q) in deeper;
        assert Lookup(mid, q) == Lookup(rows, q);
      }
    } else {
      assert !(c <= Parent(q));
    }
  }

  lemma BelowInBoth(rows: Rows, mid: Rows, seen: Visits, deeper: Visits, busy: set<nat>, p: Path, c: Path,
                    done: set<Name>, q: Path, n: Name)
    requires VisitRuleSoFar(rows, seen, busy, p, done)
    requires p < c && Parent(c) == p && Last(c) !in done
    requires Descends(rows, seen[p].listing, busy, c)
    requires VisitRule(mid, deeper, busy, c) && seen[p].at <= deeper[c].at
    requires forall q :: c < q ==> Lookup(mid, q) == Lookup(rows, q)
    requires forall r :: r in seen ==> !(c <= r)
    requires q in seen + deeper && n in (seen + deeper)[q].listing && (q == p ==> n in done + {Last(c)})
    requires Descends(rows, (seen + deeper)[q].listing, busy, q + [n])
    ensures q + [n] in seen + deeper
  {
    if q in deeper {
      assert c < q + [n];
      assert Lookup(mid, q + [n]) == Lookup(rows, q + [n]);
      assert Descends(mid, deeper[q].listing, busy, q + [n]);
    } else if q == p && n == Last(c) {
      assert p + [n] == c;
    }
  }

  lemma RuleExtends(rows: Rows, mid: Rows, seen: Visits, deeper: Visits, busy: set<nat>, p: Path, c: Path,
                    done: set<Name>)
    requires VisitRuleSoFar(rows, seen, busy, p, done)
    requires p < c && Parent(c) == p && Last(c) !in done
    requires Descends(rows, seen[p].listing, busy, c)
    requires VisitRule(mid, deeper, busy, c) && seen[p].at <= deeper[c].at
    requires forall q :: c < q ==> Lookup(mid, q) == Lookup(rows, q)
    ensures VisitRuleSoFar(rows, seen + deeper, busy, p, done + {Last(c)})
    ensures forall q :: q in seen ==> !(c <= q)
  {
    hide Descends;
    var both := seen + deeper;
    assert forall q :: c <= q ==> p < q && q[|p|] == Last(c);
    forall q | q in both && q != p
      ensures Parent(q) in both && Descends(rows, both[Parent(q)].listing, busy, q) && both[Parent(q)].at <= both[q].at
                && q[|p|] in done + {Last(c)}
    {
      AboveInBoth(rows, mid, seen, deeper, busy, p, c, done, q);
    }
    forall q, n | q in both && n in both[q].listing && (q == p ==> n in done + {Last(c)})
           && Descends(rows, both[q].listing, busy, q + [n])
      ensures q + [n] in both
    {
      BelowInBoth(rows, mid, seen, deeper, busy, p, c, done, q, n);
    }
  }

  lemma OwedExtends(rows: Rows, mid: Rows, seen: Visits, deeper: Visits, c: Path, event: Invalidation)
    requires forall q :: q in seen ==> !(c <= q)
    requires forall q :: q in deeper ==> c <= q
    requires forall q :: c < q ==> Lookup(mid, q) == Lookup(rows, q)
    ensures Owed(rows, seen + deeper, event) <==> Owed(rows, seen, event) || Owed(mid, deeper, event)
  {
    match event
    case EntryChanged(dir, name) =>
      if dir in deeper {
        assert c < dir + [name];
        assert Lookup(mid, dir + [name]) == Lookup(rows, dir + [name]);
      }
    case ContentChanged(path) =>
      if path != [] && Parent(path) in deeper {
        assert c < path;
        assert Lookup(mid, path) == Lookup(rows, path);
      }
  }

  lemma MergedRowHasItsParent(rows: Rows, p: Path, listing: Listing, busy: set<nat>, inodes: Inodes, q: Path)
    requires WellFormed(rows) && p in rows && rows[p].isDir
    requires p != [] ==> rows[p].fileId.Some? && rows[Parent(p)].loaded
    requires q != [] && MergedRow(rows, p, listing, busy, inodes, q).Some?
    ensures var row, up := MergedRow(rows, p, listing, busy, inodes, q).value,
              MergedRow(rows, p, listing, busy, inodes, Parent(q));
            && up.Some? && up.value.isDir
            && (row.loaded ==> row.isDir && row.fileId.Some? && up.value.loaded)
  {
    var up := Parent(q);
    if p < q && |q| > |p| + 1 {
      var child := q[..|p| + 1];
      assert up[..|p| + 1] == child && up[|p|] == q[|p|] && p < up;
      assert child in rows && q in rows;
    } else if p < q {
      assert up == p;
      assert q[..|p| + 1] == q;
    } else if q != p {
      assert !(p < up);
    }
  }

  /** A listing keeps the rows a tree, and loaded directories under loaded ones. */
  lemma MergeKeepsWellFormed(rows: Rows, p: Path, listing: Listing, busy: set<nat>, inodes: Inodes)
    requires WellFormed(rows) && p in rows && rows[p].isDir
    requires p != [] ==> rows[p].fileId.Some? && rows[Parent(p)].loaded
    ensures WellFormed(Merge(rows, p, listing, busy, inodes))
  {
    var after := Merge(rows, p, listing, busy, inodes);
    MergePointwise(rows, p, listing, busy, inodes, []);
    forall q | q in after && q != []
      ensures Parent(q) in after && after[Parent(q)].isDir
      ensures after[q].loaded ==> after[q].isDir && after[q].fileId.Some? && after[Parent(q)].loaded
    {
      MergePointwise(rows, p, listing, busy, inodes, q);
      MergePointwise(rows, p, listing, busy, inodes, Parent(q));
      MergedRowHasItsParent(rows, p, listing, busy, inodes, q);
    }
  }

  /** Before its own walk, nothing below a child has moved. */
  lemma BelowAsBefore(rows: Rows, mid: Rows, seen: Visits, busy: set<nat>, inodes: Inodes, p: Path, c: Path,
                      done: set<Name>)
    requires WellFormed(rows)
    requires VisitRuleSoFar(rows, seen, busy, p, done) && Walked(rows, mid, seen, busy, inodes, p)
    requires p < c && Parent(c) == p && Last(c) !in done && Descends(rows, seen[p].listing, busy, c)
    ensures forall q :: q in seen ==> !(c <= q)
    ensures c in mid && mid[c].isDir && c in rows && rows[c].isDir
    ensures forall q :: c < q ==> Lookup(mid, q) == Lookup(rows, q)
  {
    assert forall q :: c <= q ==> p < q && q[|p|] == Last(c);
    assert Lookup(mid, c) == WalkedRow(rows, seen, busy, inodes, p, c);
    forall q | c < q ensures Lookup(mid, q) == Lookup(rows, q) {
      UntouchedBelow(rows, seen, busy, inodes, p, c, q);
    }
  }

  lemma WalkedExtends(rows: Rows, mid: Rows, after: Rows, seen: Visits, deeper: Visits, busy: set<nat>, inodes: Inodes,
                      p: Path, c: Path)
    requires WellFormed(rows)
    requires p < c && Parent(c) == p && p in seen
    requires forall q :: q in seen ==> p <= q && !(c <= q)
    requires forall q :: q in deeper ==> c <= q
    requires c in mid && mid[c].isDir && c in rows && rows[c].isDir
    requires Walked(rows, mid, seen, busy, inodes, p) && Walked(mid, after, deeper, busy, inodes, c)
    ensures Walked(rows, after, seen + deeper, busy, inodes, p)
  {
    hide WalkedRow;
    forall q
      ensures Lookup(after, q) == if p <= q then WalkedRow(rows, seen + deeper, busy, inodes, p, q) else Lookup(rows, q)
    {
      if c <= q {
        ChildWalkExtends(rows, mid, seen, deeper, busy, inodes, p, c, q);
      } else if p <= q {
        OnlyAncestorsMatter(rows, seen, seen + deeper, busy, inodes, p, q);
      }
    }
  }

  /** A finished child joins the walk of its parent. */
  lemma ChildDone(rows: Rows, mid: Rows, after: Rows, seen: Visits, deeper: Visits, busy: set<nat>, inodes: Inodes,
                  p: Path, c: Path, done: set<Name>)
    requires WellFormed(rows)
    requires VisitRuleSoFar(rows, seen, busy, p, done) && Walked(rows, mid, seen, busy, inodes, p)
    requires p < c && Parent(c) == p && Last(c) !in done && Descends(rows, seen[p].listing, busy, c)
    requires VisitRule(mid, deeper, busy, c) && Walked(mid, after, deeper, busy, inodes, c)
    requires seen[p].at <= deeper[c].at
    ensures VisitRuleSoFar(rows, seen + deeper, busy, p, done + {Last(c)})
    ensures Walked(rows, after, seen + deeper, busy, inodes, p)
    ensures forall e :: Owed(rows, seen + deeper, e) <==> Owed(rows, seen, e) || Owed(mid, deeper, e)
  {
    hide Walked, WellFormed, Owed, Descends;
    BelowAsBefore(rows, mid, seen, busy, inodes, p, c, done);
    RuleExtends(rows, mid, seen, deeper, busy, p, c, done);
    WalkedExtends(rows, mid, after, seen, deeper, busy, inodes, p, c);
    forall e ensures Owed(rows, seen + deeper, e) <==> Owed(rows, seen, e) || Owed(mid, deeper, e) {
      OwedExtends(rows, mid, seen, deeper, c, e);
    }
  }

  /** A child the walk does not go into needs nothing more. */
  lemma ChildSkipped(rows: Rows, seen: Visits, busy: set<nat>, p: Path, n: Name, done: set<Name>)
    requires VisitRuleSoFar(rows, seen, busy, p, done)
    requires n in seen[p].listing ==> !Descends(rows, seen[p].listing, busy, p + [n])
    ensures VisitRuleSoFar(rows, seen, busy, p, done + {n})
  {
  }

  /** Whether the rows so far still say to go into `c` is decided by the rows the
      walk began with. */
  lemma DescendsAsAtFirst(rows: Rows, mid: Rows, seen: Visits, busy: set<nat>, inodes: Inodes, p: Path, c: Path)
    requires WellFormed(rows) && Walked(rows, mid, seen, busy, inodes, p)
    requires p < c && Parent(c) == p && p in seen && Last(c) in seen[p].listing
    ensures Descends(rows, seen[p].listing, busy, c) <==>
              && seen[p].listing[Last(c)].isDir && c in rows && rows[c].etag != seen[p].listing[Last(c)].etag
              && c in mid && mid[c].loaded && rows[c].inode !in busy && |c| <= SYNC_MAX_DEPTH
  {
    assert Lookup(mid, c) == WalkedRow(rows, seen, busy, inodes, p, c);
  }

  lemma WalkBegins(rows: Rows, listing: Listing, at: nat, busy: set<nat>, inodes: Inodes, p: Path)
    requires WellFormed(rows) && p in rows && rows[p].loaded
    ensures Walked(rows, Merge(rows, p, listing, busy, inodes), map[p := Visit(listing, at)], busy, inodes, p)
    ensures VisitRuleSoFar(rows, map[p := Visit(listing, at)], busy, p, {})
  {
    forall q ensures Lookup(Merge(rows, p, listing, busy, inodes), q) ==
                     if p <= q then WalkedRow(rows, map[p := Visit(listing, at)], busy, inodes, p, q)
                         else Lookup(rows, q) {
      MergePointwise(rows, p, listing, busy, inodes, q);
      if p <= q {
        FirstListing(rows, listing, at, busy, inodes, p, q);
      }
    }
  }

  /** A listing marks only its own directory as loaded, and what is loaded keeps
      its inode. */
  ghost predicate NoneNewlyLoaded(before: Rows, after: Rows) {
    forall q :: q in after && after[q].loaded ==> q in before && before[q].loaded && after[q].inode == before[q].inode
  }

  lemma MergeLoadsNothingElse(rows: Rows, p: Path, listing: Listing, busy: set<nat>, inodes: Inodes)
    requires p in rows && rows[p].loaded
    ensures NoneNewlyLoaded(rows, Merge(rows, p, listing, busy, inodes))
  {
    var after := Merge(rows, p, listing, busy, inodes);
    forall q | q in after && after[q].loaded ensures q in rows && rows[q].loaded && after[q].inode == rows[q].inode {
      MergePointwise(rows, p, listing, busy, inodes, q);
    }
  }
}

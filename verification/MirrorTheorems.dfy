/** What the sync walk is for: after it the mirror agrees with the server, its
    reports are the differences it made, and an unchanged root ETag means there
    is nothing to do. */
module MirrorTheorems {
  import opened Common
  import opened MirrorRows
  import opened MirrorWalk
  import opened MirrorSync

  // --- A directory the walk listed, and one it did not ----------------------------

  lemma ListedShows(before: Rows, after: Rows, seen: Visits, inodes: Inodes, q: Path)
    requires Walked(before, after, seen, {}, inodes, []) && q in seen
    ensures Shows(after, q, seen[q].listing)
  {
    forall n
      ensures Lookup(after, q + [n]) == MergedChild(Lookup(before, q + [n]), Lookup(seen[q].listing, n), false,
                inodes(q + [n]))
    {
      assert Parent(q + [n]) == q && Last(q + [n]) == n && [] <= q + [n];
      assert Lookup(after, q + [n]) == WalkedRow(before, seen, {}, inodes, [], q + [n]);
    }
    forall n | n in seen[q].listing ensures q + [n] in after && RowIs(after[q + [n]], seen[q].listing[n]) {
      assert Lookup(after, q + [n]) == MergedChild(Lookup(before, q + [n]), Lookup(seen[q].listing, n), false,
          inodes(q + [n]));
    }
    forall n | q + [n] in after && after[q + [n]].fileId.Some? ensures n in seen[q].listing {
      assert Lookup(after, q + [n]) == MergedChild(Lookup(before, q + [n]), Lookup(seen[q].listing, n), false,
          inodes(q + [n]));
    }
  }

  /** In a directory that survived without being listed, no child's row moved. */
  lemma UnlistedStays(before: Rows, after: Rows, seen: Visits, busy: set<nat>, inodes: Inodes, q: Path)
    requires WellFormed(before) && Walked(before, after, seen, busy, inodes, []) && q !in seen
    requires q in before && before[q].isDir && q in after && after[q].isDir
    ensures forall n :: Lookup(after, q + [n]) == Lookup(before, q + [n])
  {
    forall n ensures Lookup(after, q + [n]) == Lookup(before, q + [n]) {
      assert Parent(q + [n]) == q && [] <= q + [n] && [] <= q;
      assert Lookup(after, q + [n]) == WalkedRow(before, seen, busy, inodes, [], q + [n]);
      assert Lookup(after, q) == WalkedRow(before, seen, busy, inodes, [], q);
    }
  }

  lemma ShowsDependsOnChildren(rows: Rows, other: Rows, q: Path, listing: Listing)
    requires forall n :: Lookup(rows, q + [n]) == Lookup(other, q + [n])
    ensures Shows(rows, q, listing) <==> Shows(other, q, listing)
  {
    forall n ensures q + [n] in rows <==> q + [n] in other {
      assert Lookup(rows, q + [n]) == Lookup(other, q + [n]);
    }
    forall n | q + [n] in rows ensures rows[q + [n]] == other[q + [n]] {
      assert Lookup(rows, q + [n]) == Lookup(other, q + [n]);
    }
  }

  lemma MergedLoaded(was: Option<Row>, entry: Option<Entry>, inode: nat)
    ensures var row := MergedChild(was, entry, false, inode);
            row.Some? && row.value.loaded ==>
              && was.Some? && was.value.loaded && row.value.isDir == was.value.isDir
              && (entry.Some? ==> entry.value.isDir == was.value.isDir && row.value.etag == entry.value.etag)
              && (entry.None? ==> was.value.fileId.None? && row == was)
  {
  }

  /** A loaded directory after the walk was the same loaded directory before it:
      no listing makes one. Unless it was listed itself, its row's ETag stood. */
  lemma LoadedWasLoaded(before: Rows, after: Rows, seen: Visits, inodes: Inodes, q: Path)
    requires WellFormed(before) && WithinDepth(before)
    requires VisitRule(before, seen, {}, []) && Walked(before, after, seen, {}, inodes, [])
    requires q != [] && q in after && after[q].loaded
    ensures q in before && before[q].loaded && after[q].isDir
    ensures q !in seen ==> after[q].etag == before[q].etag
    ensures q in seen ==>
              && Parent(q) in seen && Last(q) in seen[Parent(q)].listing
              && after[q].etag == seen[Parent(q)].listing[Last(q)].etag
  {
    assert [] <= q;
    assert Lookup(after, q) == WalkedRow(before, seen, {}, inodes, [], q);
    var up := Parent(q);
    if up in seen {
      assert up + [Last(q)] == q;
      MergedLoaded(Lookup(before, q), Lookup(seen[up].listing, Last(q)), inodes(q));
      if q !in seen && Last(q) in seen[up].listing {
        assert !Descends(before, seen[up].listing, {}, q);
      }
    } else {
      assert q !in seen;
    }
  }

  // --- A walk leaves a tree -------------------------------------------------------

  lemma VisitedIsLoaded(rows: Rows, seen: Visits, busy: set<nat>, q: Path)
    requires VisitRule(rows, seen, busy, []) && [] in rows && rows[[]].loaded && q in seen
    ensures q in rows && rows[q].loaded
  {
    if q != [] {
      assert Parent(q) in seen;
    }
  }

  lemma WalkedRowOfVisited(rows: Rows, seen: Visits, inodes: Inodes, q: Path)
    requires WellFormed(rows) && rows[[]].loaded && VisitRule(rows, seen, {}, []) && q in seen
    ensures var row := WalkedRow(rows, seen, {}, inodes, [], q); row.Some? && row.value.isDir && row.value.loaded
  {
    VisitedIsLoaded(rows, seen, {}, q);
    if q != [] {
      assert Parent(q) in seen;
    }
  }

  /** Above every row a walk leaves there is a directory, and above every loaded
      one a loaded one. */
  lemma WalkedRowHasItsParent(rows: Rows, seen: Visits, inodes: Inodes, q: Path)
    requires WellFormed(rows) && rows[[]].loaded && VisitRule(rows, seen, {}, []) && q != []
    requires WalkedRow(rows, seen, {}, inodes, [], q).Some?
    ensures var row, up := WalkedRow(rows, seen, {}, inodes, [], q).value,
              WalkedRow(rows, seen, {}, inodes, [], Parent(q));
            && up.Some? && up.value.isDir
            && (row.loaded ==> row.isDir && row.fileId.Some? && up.value.loaded)
  {
    var up := Parent(q);
    assert [] in seen;
    if up in seen {
      WalkedRowOfVisited(rows, seen, inodes, up);
    } else {
      hide VisitRule;
      assert up in rows;
    }
  }

  lemma WalkLeavesATree(versions: seq<Node>, inodes: Inodes, pinned: Path -> bool, o: Outcome)
    requires WellFormed(o.before) && o.before[[]].loaded && Complete(versions, inodes, pinned, {}, [], o)
    ensures WellFormed(o.after)
  {
    var root: Path := [];
    assert root <= root && Lookup(o.after, root) == WalkedRow(o.before, o.seen, {}, inodes, [], root);
    forall q | q in o.after && q != []
      ensures Parent(q) in o.after && o.after[Parent(q)].isDir
      ensures o.after[q].loaded ==> o.after[q].isDir && o.after[q].fileId.Some? && o.after[Parent(q)].loaded
    {
      assert [] <= q && [] <= Parent(q);
      assert Lookup(o.after, q) == WalkedRow(o.before, o.seen, {}, inodes, [], q);
      assert Lookup(o.after, Parent(q)) == WalkedRow(o.before, o.seen, {}, inodes, [], Parent(q));
      WalkedRowHasItsParent(o.before, o.seen, inodes, q);
    }
  }

  // --- The walk restores coherence, whatever other clients do meanwhile -----------

  /** An undisturbed walk of a coherent mirror leaves a coherent mirror, with the
      root showing the listing it got: for every interleaving of server changes
      with the walk's requests. */
  lemma WalkKeepsCoherence(versions: seq<Node>, inodes: Inodes, pinned: Path -> bool, o: Outcome)
    requires EtagLaw(versions) && WellFormed(o.before) && WithinDepth(o.before)
    requires Complete(versions, inodes, pinned, {}, [], o)
    requires Coherent(o.before, versions, o.from)
    ensures Coherent(o.after, versions, o.until)
    ensures Shows(o.after, [], o.seen[[]].listing)
  {
    ListedShows(o.before, o.after, o.seen, inodes, []);
    forall q | q != [] ensures CoherentAt(o.after, versions, o.until, q) {
      if q in o.after && o.after[q].loaded {
        forall k | o.until <= k < |versions| ensures ShownIfCurrent(o.after, q, versions[k]) {
          CoherentAgain(versions, inodes, pinned, o, q, k);
        }
      }
    }
  }

  lemma CoherentAgain(versions: seq<Node>, inodes: Inodes, pinned: Path -> bool, o: Outcome, q: Path, k: nat)
    requires EtagLaw(versions) && WellFormed(o.before) && WithinDepth(o.before)
    requires Complete(versions, inodes, pinned, {}, [], o)
    requires CoherentAt(o.before, versions, o.from, q)
    requires q != [] && q in o.after && o.after[q].loaded && o.until <= k < |versions|
    ensures ShownIfCurrent(o.after, q, versions[k])
  {
    LoadedWasLoaded(o.before, o.after, o.seen, inodes, q);
    if q in o.seen {
      ListedAgain(versions, inodes, pinned, o, q, k);
    } else {
      UnlistedStays(o.before, o.after, o.seen, {}, inodes, q);
      hide WellFormed, VisitRule, Walked, SeenOn, EtagLaw, Shows;
      assert ShownIfCurrent(o.before, q, versions[k]);
      if At(versions[k], q).Some? && At(versions[k], q).value.Dir? {
        ShowsDependsOnChildren(o.before, o.after, q, ListingOf(At(versions[k], q).value.kids));
      }
    }
  }

  /** A listed directory shows the version its parent's listing named, if the
      server ever comes back to that. */
  lemma ListedAgain(versions: seq<Node>, inodes: Inodes, pinned: Path -> bool, o: Outcome, q: Path, k: nat)
    requires EtagLaw(versions)
    requires Complete(versions, inodes, pinned, {}, [], o)
    requires q != [] && q in o.seen && q in o.after && o.until <= k < |versions|
    requires Parent(q) in o.seen && Last(q) in o.seen[Parent(q)].listing
               && o.after[q].etag == o.seen[Parent(q)].listing[Last(q)].etag
    ensures ShownIfCurrent(o.after, q, versions[k])
  {
    hide VisitRule, SeenOn, Walked, Owed, Shows;
    ListedShows(o.before, o.after, o.seen, inodes, q);
    ListedAfterItsParent(versions, o.before, o.seen, o.from, o.until, q);
    ListedWhatWasThere(versions, o.seen, o.from, o.until, q);
    ListedWhatWasThere(versions, o.seen, o.from, o.until, Parent(q));
    var i, j := o.seen[Parent(q)].at, o.seen[q].at;
    assert Parent(q) + [Last(q)] == q;
    AtChild(versions[i], Parent(q), Last(q));
    assert Unchanged(versions, q, i, j, k);
  }

  lemma ListedWhatWasThere(versions: seq<Node>, seen: Visits, from: nat, until: nat, q: Path)
    requires SeenOn(versions, seen, from, until) && q in seen
    ensures until < |versions| && seen[q].at <= until
    ensures At(versions[seen[q].at], q).Some? && At(versions[seen[q].at], q).value.Dir?
    ensures seen[q].listing == ListingOf(At(versions[seen[q].at], q).value.kids)
  {
  }

  lemma ListedAfterItsParent(versions: seq<Node>, before: Rows, seen: Visits, from: nat, until: nat, q: Path)
    requires VisitRule(before, seen, {}, []) && SeenOn(versions, seen, from, until) && q != [] && q in seen
    ensures Parent(q) in seen && seen[Parent(q)].at <= seen[q].at <= until < |versions|
  {
  }

  // --- The pruned walk is as good as a full resync ----------------------------------

  /** The rows' ETags can be trusted against this tree: a loaded directory whose
      row carries the tree's ETag shows the tree's directory. */
  ghost predicate Trusted(rows: Rows, tree: Node) {
    forall q :: q != [] && q in rows && rows[q].loaded ==> ShownIfCurrent(rows, q, tree)
  }

  /** The server holding still, an undisturbed walk makes the mirror agree with it
      exactly when the rows' ETags could be trusted before. */
  lemma PrunedWalkIsAFullResync(tree: Node, inodes: Inodes, pinned: Path -> bool, o: Outcome)
    requires WellFormed(o.before) && WithinDepth(o.before) && o.before[[]].loaded
    requires Complete([tree], inodes, pinned, {}, [], o)
    ensures Agrees(o.after, tree) <==> Trusted(o.before, tree)
  {
    if Trusted(o.before, tree) {
      TrustIsEnough(tree, inodes, pinned, o);
    }
    if Agrees(o.after, tree) {
      forall q | q != [] && q in o.before && o.before[q].loaded ensures ShownIfCurrent(o.before, q, tree) {
        AgreementWasEarned(tree, inodes, pinned, o, q);
      }
    }
  }

  lemma TrustIsEnough(tree: Node, inodes: Inodes, pinned: Path -> bool, o: Outcome)
    requires WellFormed(o.before) && WithinDepth(o.before) && o.before[[]].loaded
    requires Complete([tree], inodes, pinned, {}, [], o)
    requires Trusted(o.before, tree)
    ensures Agrees(o.after, tree)
  {
    OneVersionObeysTheLaw(tree);
    TrustedIsCoherent(o.before, tree);
    RootWasShown(tree, inodes, pinned, o);
    WalkLeavesATree([tree], inodes, pinned, o);
    hide WellFormed, Trusted, Coherent, EtagLaw, Complete, Shows, Agrees, WithinDepth;
    WalkKeepsCoherence([tree], inodes, pinned, o);
    CoherenceCarriesDown(o.after, [tree], 0, 0);
  }

  lemma TrustedIsCoherent(rows: Rows, tree: Node)
    requires Trusted(rows, tree)
    ensures Coherent(rows, [tree], 0)
  {
  }

  /** With one version there is only one listing of the root. */
  lemma RootWasShown(tree: Node, inodes: Inodes, pinned: Path -> bool, o: Outcome)
    requires Complete([tree], inodes, pinned, {}, [], o)
    ensures o.from == 0 && o.until == 0 && [] in o.seen
    ensures tree.Dir? && o.seen[[]].listing == ListingOf(tree.kids)
  {
    hide Walked, Owed;
    assert At([tree][0], []) == Some(tree);
  }

  lemma OneVersionObeysTheLaw(tree: Node)
    ensures EtagLaw([tree])
  {
  }

  lemma AgreementWasEarned(tree: Node, inodes: Inodes, pinned: Path -> bool, o: Outcome, q: Path)
    requires WellFormed(o.before)
    requires Complete([tree], inodes, pinned, {}, [], o)
    requires Agrees(o.after, tree)
    requires q != [] && q in o.before && o.before[q].loaded
    ensures ShownIfCurrent(o.before, q, tree)
  {
    if At(tree, q).Some? && At(tree, q).value.Dir? && At(tree, q).value.etag == o.before[q].etag {
      SurvivesIfOnTheServer(tree, inodes, pinned, o, q);
      CurrentIsNotListed(tree, inodes, pinned, o, q);
      UnlistedStays(o.before, o.after, o.seen, {}, inodes, q);
      hide WellFormed, VisitRule, Walked, SeenOn, Owed, Shows;
      assert ShowsTree(o.after, q, tree);
      ShowsDependsOnChildren(o.before, o.after, q, ListingOf(At(tree, q).value.kids));
    }
  }

  /** A directory whose row carries the tree's ETag is not listed. */
  lemma CurrentIsNotListed(tree: Node, inodes: Inodes, pinned: Path -> bool, o: Outcome, q: Path)
    requires Complete([tree], inodes, pinned, {}, [], o)
    requires q != [] && q in o.before && At(tree, q).Some? && At(tree, q).value.etag == o.before[q].etag
    ensures q !in o.seen
  {
    if q in o.seen {
      ListedHasMoved(tree, o.before, o.seen, o.until, q);
    }
  }

  lemma ListedHasMoved(tree: Node, before: Rows, seen: Visits, until: nat, q: Path)
    requires VisitRule(before, seen, {}, []) && SeenOn([tree], seen, 0, until)
    requires q != [] && q in seen
    ensures q in before && (At(tree, q).Some? ==> At(tree, q).value.etag != before[q].etag)
  {
    hide VisitRule, SeenOn;
    ListedMoved(before, seen, q);
    ListedWhatWasThere([tree], seen, 0, until, Parent(q));
    assert Parent(q) + [Last(q)] == q;
    AtChild(tree, Parent(q), Last(q));
  }

  lemma ListedMoved(before: Rows, seen: Visits, q: Path)
    requires VisitRule(before, seen, {}, []) && q != [] && q in seen
    ensures Parent(q) in seen && Last(q) in seen[Parent(q)].listing && q in before
    ensures before[q].etag != seen[Parent(q)].listing[Last(q)].etag
  {
  }

  /** A loaded directory the server still has survives the walk. */
  lemma {:induction false} SurvivesIfOnTheServer(tree: Node, inodes: Inodes, pinned: Path -> bool, o: Outcome, q: Path)
    requires WellFormed(o.before)
    requires Complete([tree], inodes, pinned, {}, [], o)
    requires q in o.before && o.before[q].loaded
    requires At(tree, q).Some? && At(tree, q).value.Dir?
    ensures q in o.after && o.after[q].isDir && o.after[q].loaded
    decreases |q|
  {
    hide Owed, VisitRule, EtagLaw;
    assert [] <= q;
    assert Lookup(o.after, q) == WalkedRow(o.before, o.seen, {}, inodes, [], q);
    if q != [] {
      var up := Parent(q);
      assert up + [Last(q)] == q;
      AtChild(tree, up, Last(q));
      SurvivesIfOnTheServer(tree, inodes, pinned, o, up);
      assert Lookup(o.after, up) == WalkedRow(o.before, o.seen, {}, inodes, [], up);
      hide WellFormed, Walked;
      if up in o.seen {
        assert o.seen[up].listing == ListingOf(At(tree, up).value.kids);
      }
    }
  }

  // --- The reports are the differences ----------------------------------------------

  /** In every loaded directory that survived, a name whose row the machine was not
      busy with is reported exactly when it came or went. */
  lemma EntryReportsAreTheDifferences(versions: seq<Node>, inodes: Inodes, pinned: Path -> bool, busy: set<nat>,
                                      o: Outcome, q: Path, n: Name)
    requires WellFormed(o.before)
    requires Complete(versions, inodes, pinned, busy, [], o)
    requires q in o.before && o.before[q].loaded && q in o.after && o.after[q].isDir
    requires !IsBusy(Lookup(o.before, q + [n]), busy)
    ensures EntryChanged(q, n) in o.events <==> (q + [n] in o.before) != (q + [n] in o.after)
  {
    if !IsBusy(Lookup(o.before, []), busy) {
      if q in o.seen {
        assert Parent(q + [n]) == q && Last(q + [n]) == n && [] <= q + [n];
        assert Lookup(o.after, q + [n]) == WalkedRow(o.before, o.seen, busy, inodes, [], q + [n]);
      } else {
        UnlistedStays(o.before, o.after, o.seen, busy, inodes, q);
        assert Lookup(o.after, q + [n]) == Lookup(o.before, q + [n]);
      }
    }
  }

  /** A file's content is reported exactly when its row, which the machine was not
      busy with, is still there under another ETag; among the pinned ones, exactly
      those are found outdated. */
  lemma ContentReportsAreTheDifferences(versions: seq<Node>, inodes: Inodes, pinned: Path -> bool, busy: set<nat>,
                                        o: Outcome, q: Path)
    requires WellFormed(o.before)
    requires Complete(versions, inodes, pinned, busy, [], o)
    requires q in o.before && !o.before[q].isDir && o.before[q].inode !in busy
    ensures ContentChanged(q) in o.events <==> q in o.after && o.after[q].etag != o.before[q].etag
    ensures q in o.stale <==> pinned(q) && q in o.after && o.after[q].etag != o.before[q].etag
  {
    assert [] <= q && q != [];
    hide WellFormed, VisitRule, SeenOn;
    if !IsBusy(Lookup(o.before, []), busy) {
      assert Lookup(o.after, q) == WalkedRow(o.before, o.seen, busy, inodes, [], q);
      assert ContentChanged(q) in o.events <==> Owed(o.before, o.seen, ContentChanged(q));
    }
  }

  // --- The root probe ------------------------------------------------------------------

  /** The promise an ETag remembered from before a walk stands for: since version
      `probed` carried it, whenever the server carries it again from `now` on, the
      mirror agrees with the server. */
  ghost predicate Vouched(rows: Rows, versions: seq<Node>, probed: nat, now: nat, etag: Etag) {
    && probed <= now < |versions| && versions[probed].etag == etag
    && forall k :: now <= k < |versions| && versions[k].etag == etag ==> Agrees(rows, versions[k])
  }

  lemma SameTree(versions: seq<Node>, i: nat, j: nat, k: nat)
    requires EtagLaw(versions) && i <= j <= k < |versions| && versions[i].etag == versions[k].etag
    ensures versions[j] == versions[k]
  {
    assert Unchanged(versions, [], i, j, k);
  }

  /** Under the law an ETag is current for one stretch of versions with one tree:
      the promise is about that tree, and void once the stretch is over. */
  lemma PromiseIsAboutOneTree(rows: Rows, versions: seq<Node>, probed: nat, etag: Etag, now: nat)
    requires EtagLaw(versions) && probed <= now < |versions| && versions[probed].etag == etag
    ensures Vouched(rows, versions, probed, now, etag) <==> (versions[now].etag == etag ==> Agrees(rows, versions[now]))
  {
    hide Agrees, EtagLaw;
    if versions[now].etag == etag ==> Agrees(rows, versions[now]) {
      forall k | now <= k < |versions| && versions[k].etag == etag ensures Agrees(rows, versions[k]) {
        SameTree(versions, probed, now, k);
      }
    }
  }

  /** The ETag from before an undisturbed walk of a coherent mirror vouches for
      it, however the server changed between the walk's requests. */
  lemma WalkVouches(versions: seq<Node>, inodes: Inodes, pinned: Path -> bool, o: Outcome, probed: nat)
    requires EtagLaw(versions) && WellFormed(o.before) && WithinDepth(o.before) && o.before[[]].loaded
    requires Complete(versions, inodes, pinned, {}, [], o)
    requires Coherent(o.before, versions, o.from)
    requires probed <= o.from
    ensures Vouched(o.after, versions, probed, o.until, versions[probed].etag)
  {
    WalkKeepsCoherence(versions, inodes, pinned, o);
    WalkLeavesATree(versions, inodes, pinned, o);
    var at := o.seen[[]].at;
    forall k | o.until <= k < |versions| && versions[k].etag == versions[probed].etag
      ensures Agrees(o.after, versions[k])
    {
      assert Unchanged(versions, [], probed, at, k);
      CoherenceCarriesDown(o.after, versions, o.until, k);
    }
  }

  lemma {:induction false} LoadedAbove(rows: Rows, c: Path, r: Path)
    requires WellFormed(rows) && c < r && r in rows && rows[r].loaded
    ensures c in rows && rows[c].loaded
    decreases |r|
  {
    assert c <= Parent(r);
    if Parent(r) != c {
      LoadedAbove(rows, c, Parent(r));
    }
  }

  /** A local change commits rows only after it changed the server, and an ETag
      the server has moved on from never returns: the promise is kept vacuously. */
  lemma LocalCommitKeepsTheVouch(rows: Rows, after: Rows, versions: seq<Node>, probed: nat, now: nat, etag: Etag,
                                 changed: nat, later: nat)
    requires EtagLaw(versions)
    requires Vouched(rows, versions, probed, now, etag)
    requires probed <= changed <= later < |versions| && now <= later && versions[changed].etag != etag
    ensures Vouched(after, versions, probed, later, etag)
  {
    forall k | later <= k < |versions| ensures versions[k].etag != etag {
      assert Unchanged(versions, [], probed, changed, k);
      assert At(versions[probed], []) != At(versions[changed], []);
    }
  }
}

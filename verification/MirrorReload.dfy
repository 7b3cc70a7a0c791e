/** A listing of one directory beside the walks, asked for at any time and applied
    at any later one: exactly when the promise of the remembered ETag outlives it. */
module MirrorReload {
  import opened Common
  import opened MirrorRows
  import opened MirrorTheorems

  /** What a row says the server has there; a row it never had says nothing. */
  function Said(row: Option<Row>): Option<Entry> {
    match row
    case Some(Row(_, isDir, etag, Some(fileId), _)) => Some(Entry(isDir, etag, fileId))
    case _ => None
  }

  /** What the rows will say of the child `n` of `q` once the answer is applied. */
  function SaidAfter(rows: Rows, q: Path, answer: Listing, busy: set<nat>, n: Name): Option<Entry> {
    if IsBusy(Lookup(rows, q + [n]), busy) then Said(Lookup(rows, q + [n])) else Lookup(answer, n)
  }

  /** With the answer applied, the rows will say of `q` what this tree holds there. */
  ghost predicate Harmless(rows: Rows, tree: Node, q: Path, answer: Listing, busy: set<nat>) {
    && At(tree, q).Some? && At(tree, q).value.Dir?
    && forall n :: SaidAfter(rows, q, answer, busy, n) == Lookup(ListingOf(At(tree, q).value.kids), n)
  }

  /** The answer says what the rows said when it came, but of children the machine
      is busy with. */
  ghost predicate SaysWhatTheRowsSay(rows: Rows, q: Path, answer: Listing, busy: set<nat>) {
    forall n :: SaidAfter(rows, q, answer, busy, n) == Said(Lookup(rows, q + [n]))
  }

  // --- What an answer does to the rows --------------------------------------------

  lemma ShowsByName(rows: Rows, q: Path, listing: Listing)
    ensures Shows(rows, q, listing) <==> forall n :: Said(Lookup(rows, q + [n])) == Lookup(listing, n)
  {
    if Shows(rows, q, listing) {
      forall n ensures Said(Lookup(rows, q + [n])) == Lookup(listing, n) {
        if n in listing {
          assert RowIs(rows[q + [n]], listing[n]);
        }
      }
    }
    if forall n :: Said(Lookup(rows, q + [n])) == Lookup(listing, n) {
      forall n | n in listing ensures q + [n] in rows && RowIs(rows[q + [n]], listing[n]) {
        assert Said(Lookup(rows, q + [n])) == Some(listing[n]);
      }
      forall n | q + [n] in rows && rows[q + [n]].fileId.Some? ensures n in listing {
        assert Said(Lookup(rows, q + [n])) == Lookup(listing, n);
      }
    }
  }

  lemma MergedSays(rows: Rows, q: Path, answer: Listing, busy: set<nat>, inodes: Inodes, n: Name)
    ensures Said(Lookup(Merge(rows, q, answer, busy, inodes), q + [n])) == SaidAfter(rows, q, answer, busy, n)
  {
    MergePointwise(rows, q, answer, busy, inodes, q + [n]);
    assert (q + [n])[..|q| + 1] == q + [n];
  }

  /** The directory itself. */
  lemma ListedDirShows(rows: Rows, tree: Node, q: Path, answer: Listing, busy: set<nat>, inodes: Inodes)
    ensures ShowsTree(Merge(rows, q, answer, busy, inodes), q, tree) <==> Harmless(rows, tree, q, answer, busy)
  {
    var after := Merge(rows, q, answer, busy, inodes);
    forall n ensures Said(Lookup(after, q + [n])) == SaidAfter(rows, q, answer, busy, n) {
      MergedSays(rows, q, answer, busy, inodes, n);
    }
    if At(tree, q).Some? && At(tree, q).value.Dir? {
      ShowsByName(after, q, ListingOf(At(tree, q).value.kids));
    }
  }

  /** Any other loaded directory was there before and says what it said. */
  lemma OthersSayTheSame(rows: Rows, q: Path, answer: Listing, busy: set<nat>, inodes: Inodes, r: Path, n: Name)
    requires r != q && r in Merge(rows, q, answer, busy, inodes) && Merge(rows, q, answer, busy, inodes)[r].loaded
    ensures r in rows && rows[r].loaded
    ensures Said(Lookup(Merge(rows, q, answer, busy, inodes), r + [n])) == Said(Lookup(rows, r + [n]))
  {
    MergePointwise(rows, q, answer, busy, inodes, r);
    MergePointwise(rows, q, answer, busy, inodes, r + [n]);
    if q < r {
      assert (r + [n])[..|q| + 1] == r[..|q| + 1] && (r + [n])[|q|] == r[|q|];
    } else {
      assert q < r + [n] ==> q <= r;
    }
  }

  lemma OthersStillShow(rows: Rows, tree: Node, q: Path, answer: Listing, busy: set<nat>, inodes: Inodes, r: Path)
    requires Agrees(rows, tree)
    requires r != q && r in Merge(rows, q, answer, busy, inodes) && Merge(rows, q, answer, busy, inodes)[r].loaded
    ensures ShowsTree(Merge(rows, q, answer, busy, inodes), r, tree)
  {
    hide Merge, Shows;
    var after := Merge(rows, q, answer, busy, inodes);
    OthersSayTheSame(rows, q, answer, busy, inodes, r, "");
    assert ShowsTree(rows, r, tree);
    var listing := ListingOf(At(tree, r).value.kids);
    ShowsByName(rows, r, listing);
    ShowsByName(after, r, listing);
    forall n ensures Said(Lookup(after, r + [n])) == Lookup(listing, n) {
      OthersSayTheSame(rows, q, answer, busy, inodes, r, n);
    }
  }

  /** A mirror that agrees goes on agreeing iff the answer was harmless. */
  lemma AgreesAfterExactly(rows: Rows, tree: Node, q: Path, answer: Listing, busy: set<nat>, inodes: Inodes)
    requires Agrees(rows, tree) && q in rows
    ensures Agrees(Merge(rows, q, answer, busy, inodes), tree) <==> Harmless(rows, tree, q, answer, busy)
  {
    var after := Merge(rows, q, answer, busy, inodes);
    MergePointwise(rows, q, answer, busy, inodes, q);
    hide Merge, ShowsTree, Harmless;
    assert q in after && after[q].loaded;
    ListedDirShows(rows, tree, q, answer, busy, inodes);
    if Harmless(rows, tree, q, answer, busy) {
      forall r | r in after && after[r].loaded ensures ShowsTree(after, r, tree) {
        if r != q {
          OthersStillShow(rows, tree, q, answer, busy, inodes, r);
        }
      }
    }
  }

  // --- What it does to the promise ------------------------------------------------

  /** Whatever was answered, whenever it was asked for: applying it keeps the
      promise iff the vouched-for ETag is gone from the server or the answer is
      harmless to what the server has. */
  lemma ReloadKeepsTheVouchExactly(rows: Rows, versions: seq<Node>, probed: nat, now: nat, etag: Etag, q: Path,
                                   answer: Listing, later: nat, busy: set<nat>, inodes: Inodes)
    requires EtagLaw(versions) && Vouched(rows, versions, probed, now, etag) && now <= later < |versions|
    requires q in rows
    ensures Vouched(Merge(rows, q, answer, busy, inodes), versions, probed, later, etag)
            <==> (versions[later].etag == etag ==> Harmless(rows, versions[later], q, answer, busy))
  {
    hide Agrees, Merge, Harmless, EtagLaw;
    PromiseIsAboutOneTree(Merge(rows, q, answer, busy, inodes), versions, probed, etag, later);
    if versions[later].etag == etag {
      AgreesAfterExactly(rows, versions[later], q, answer, busy, inodes);
    }
  }

  /** Of a directory that was listed before, that can be told without the server:
      the answer must say what the rows say. */
  lemma LoadedReloadKeepsTheVouchExactly(rows: Rows, versions: seq<Node>, probed: nat, now: nat, etag: Etag, q: Path,
                                         answer: Listing, later: nat, busy: set<nat>, inodes: Inodes)
    requires EtagLaw(versions) && Vouched(rows, versions, probed, now, etag) && now <= later < |versions|
    requires q in rows && rows[q].loaded
    ensures Vouched(Merge(rows, q, answer, busy, inodes), versions, probed, later, etag)
            <==> (versions[later].etag == etag ==> SaysWhatTheRowsSay(rows, q, answer, busy))
  {
    hide Merge, EtagLaw;
    ReloadKeepsTheVouchExactly(rows, versions, probed, now, etag, q, answer, later, busy, inodes);
    if versions[later].etag == etag {
      assert ShowsTree(rows, q, versions[later]);
      ShowsByName(rows, q, ListingOf(At(versions[later], q).value.kids));
    }
  }

  /** The rows of the busy children say what was answered of them. */
  ghost predicate BusyOnesShow(rows: Rows, q: Path, answer: Listing, busy: set<nat>) {
    forall n :: IsBusy(Lookup(rows, q + [n]), busy) ==> Said(Lookup(rows, q + [n])) == Lookup(answer, n)
  }

  /** An answer no older than the probe is as good as the walk's own listing: it
      can only go wrong in a directory never listed before, by what it must leave
      alone there. */
  lemma FreshReloadKeepsTheVouchExactly(rows: Rows, versions: seq<Node>, probed: nat, now: nat, etag: Etag, q: Path,
                                        at: nat, later: nat, busy: set<nat>, inodes: Inodes)
    requires EtagLaw(versions) && Vouched(rows, versions, probed, now, etag) && now <= later < |versions|
    requires probed <= at <= later && At(versions[at], q).Some? && At(versions[at], q).value.Dir?
    requires q in rows
    ensures var answer := ListingOf(At(versions[at], q).value.kids);
            Vouched(Merge(rows, q, answer, busy, inodes), versions, probed, later, etag)
            <==> (versions[later].etag == etag && !rows[q].loaded ==> BusyOnesShow(rows, q, answer, busy))
  {
    hide Merge, EtagLaw;
    var answer := ListingOf(At(versions[at], q).value.kids);
    ReloadKeepsTheVouchExactly(rows, versions, probed, now, etag, q, answer, later, busy, inodes);
    if versions[later].etag == etag {
      SameTree(versions, probed, at, later);
      HarmlessHere(rows, versions[later], q, busy);
      if rows[q].loaded {
        assert ShowsTree(rows, q, versions[later]);
        ShowsByName(rows, q, answer);
      }
    }
  }

  lemma HarmlessHere(rows: Rows, tree: Node, q: Path, busy: set<nat>)
    requires At(tree, q).Some? && At(tree, q).value.Dir?
    ensures var answer := ListingOf(At(tree, q).value.kids);
            Harmless(rows, tree, q, answer, busy) <==> BusyOnesShow(rows, q, answer, busy)
  {
    var answer := ListingOf(At(tree, q).value.kids);
    if BusyOnesShow(rows, q, answer, busy) {
      forall n ensures SaidAfter(rows, q, answer, busy, n) == Lookup(answer, n) {
      }
    }
    if Harmless(rows, tree, q, answer, busy) {
      forall n | IsBusy(Lookup(rows, q + [n]), busy) ensures Said(Lookup(rows, q + [n])) == Lookup(answer, n) {
        assert SaidAfter(rows, q, answer, busy, n) == Lookup(answer, n);
      }
    }
  }
}

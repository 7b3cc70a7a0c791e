/** Reloads that are applied in the middle of a walk: the walk goes by its listings,
    one at a time, and between any two of them some other directory's rows may be
    brought to whatever a refresh was answered. */
module MirrorBeside {
  import opened Common
  import opened MirrorRows
  import opened MirrorWalk
  import opened MirrorTheorems
  import opened MirrorReload

  /** A directory the walk has listed: the rows just before, and what it was shown. */
  datatype Seen = Seen(before: Rows, listing: Listing)

  /** A walk under way, with the directories it found no longer loaded when their
      turn came. */
  datatype Walking = Walking(rows: Rows, seen: map<Path, Seen>, skipped: set<Path>)

  datatype Move =
    /** the walk lists a directory, at version `at`; */
    | List(dir: Path, at: nat)
    /** a directory whose ETag moved is not loaded any more; */
    | Skip(dir: Path)
    /** a refresh applies its answer. */
    | Reload(dir: Path, answer: Listing, busy: set<nat>)

  /** The walk means to go into `c`: its ETag moved between the rows before its
      parent's listing and that listing. */
  predicate Due(w: Walking, c: Path) {
    && c != [] && |c| <= SYNC_MAX_DEPTH
    && Parent(c) in w.seen && c !in w.seen && c !in w.skipped
    && Moved(w.seen[Parent(c)], c)
  }

  predicate Moved(up: Seen, c: Path)
    requires c != []
  {
    && Last(c) in up.listing && up.listing[Last(c)].isDir
    && c in up.before && up.before[c].etag != up.listing[Last(c)].etag
  }

  /** And it is the directory it was. */
  predicate Expected(w: Walking, c: Path) {
    Due(w, c) && c in w.rows && w.rows[c].inode == w.seen[Parent(c)].before[c].inode
  }

  /** And loaded, so that the walk will go into it. */
  predicate Awaited(w: Walking, c: Path) {
    Expected(w, c) && w.rows[c].loaded
  }

  ghost predicate Enabled(versions: seq<Node>, inodes: Inodes, w: Walking, move: Move) {
    match move
    case List(dir, at) =>
      && at < |versions| && At(versions[at], dir).Some? && At(versions[at], dir).value.Dir?
      && if dir == [] then w.seen == map[] else Awaited(w, dir)
    case Skip(dir) => Due(w, dir) && !Awaited(w, dir)
    case Reload(dir, answer, busy) => dir in w.rows && WellFormed(Merge(w.rows, dir, answer, busy, inodes))
  }

  ghost function After(versions: seq<Node>, inodes: Inodes, w: Walking, move: Move): Walking
    requires Enabled(versions, inodes, w, move)
  {
    match move
    case List(dir, at) =>
      var listing := ListingOf(At(versions[at], dir).value.kids);
      w.(rows := Merge(w.rows, dir, listing, {}, inodes), seen := w.seen[dir := Seen(w.rows, listing)])
    case Skip(dir) => w.(skipped := w.skipped + {dir})
    case Reload(dir, answer, busy) => w.(rows := Merge(w.rows, dir, answer, busy, inodes))
  }

  function Begin(rows: Rows): Walking {
    Walking(rows, map[], {})
  }

  ghost function Run(versions: seq<Node>, inodes: Inodes, rows: Rows, moves: seq<Move>): Option<Walking> {
    if moves == [] then Some(Begin(rows))
    else
      match Run(versions, inodes, rows, moves[..|moves| - 1])
      case Some(w) =>
        var move := moves[|moves| - 1];
        if Enabled(versions, inodes, w, move) then Some(After(versions, inodes, w, move)) else None
      case None => None
  }

  ghost predicate Finished(w: Walking) {
    [] in w.seen && forall c :: !Due(w, c)
  }

  // --- The reloads that do no harm ------------------------------------------------

  /** The row says the directory is what this tree has there. */
  predicate Current(rows: Rows, q: Path, tree: Node)
    requires q in rows
  {
    At(tree, q).Some? && At(tree, q).value.Dir? && At(tree, q).value.etag == rows[q].etag
  }

  /** The answer gives a loaded child directory the tree's ETag, which it did not
      have, though it does not show what the tree has there. */
  ghost predicate Misleads(rows: Rows, tree: Node, dir: Path, answer: Listing, busy: set<nat>, n: Name) {
    var c := dir + [n];
    && c in rows && rows[c].loaded && rows[c].inode !in busy
    && n in answer && answer[n].isDir && answer[n].etag != rows[c].etag
    && At(tree, c).Some? && At(tree, c).value.Dir? && At(tree, c).value.etag == answer[n].etag
    && !ShowsTree(rows, c, tree)
  }

  /** It misleads about no child that the walk will not list; and of a directory that
      the walk will not list, and whose row names the tree's version, it says what
      the tree has. */
  ghost predicate Beside(w: Walking, tree: Node, move: Move) {
    match move
    case Reload(dir, answer, busy) =>
      && |dir| <= SYNC_MAX_DEPTH
      && (forall n :: Misleads(w.rows, tree, dir, answer, busy, n) ==> Awaited(w, dir + [n]))
      && dir in w.rows
      && ((if dir == [] then dir in w.seen else Current(w.rows, dir, tree) && !Expected(w, dir)) ==>
            Harmless(w.rows, tree, dir, answer, busy))
    case _ => true
  }

  /** Every listing was of this tree. */
  ghost predicate AllListed(versions: seq<Node>, moves: seq<Move>, tree: Node) {
    forall i :: 0 <= i < |moves| && moves[i].List? ==> moves[i].at < |versions| && versions[moves[i].at] == tree
  }

  /** No reload did harm to it. */
  ghost predicate AllBeside(versions: seq<Node>, inodes: Inodes, rows: Rows, moves: seq<Move>, tree: Node) {
    moves == [] ||
    var init, move := moves[..|moves| - 1], moves[|moves| - 1];
    && AllBeside(versions, inodes, rows, init, tree)
    && (Run(versions, inodes, rows, init).Some? ==> Beside(Run(versions, inodes, rows, init).value, tree, move))
  }

  // --- What every move keeps ------------------------------------------------------

  /** The rows' ETags can be trusted, but for the directories the walk will list. */
  ghost predicate Inv(w: Walking, tree: Node) {
    && WellFormed(w.rows) && WithinDepth(w.rows) && w.rows[[]].loaded
    && (forall q {:trigger Parent(q)} :: q != [] && (q in w.seen || q in w.skipped) ==> Parent(q) in w.seen)
    && (forall q :: q != [] && q in w.rows && w.rows[q].loaded && !Awaited(w, q) ==> ShownIfCurrent(w.rows, q, tree))
    && ([] in w.seen ==> ShowsTree(w.rows, [], tree))
  }

  /** A loaded directory other than the listed one is the directory it was; its ETag
      moves only if it is a child, to that of the listing. */
  lemma OtherRows(rows: Rows, dir: Path, answer: Listing, busy: set<nat>, inodes: Inodes, q: Path)
    requires q != dir && q in Merge(rows, dir, answer, busy, inodes) && Merge(rows, dir, answer, busy, inodes)[q].loaded
    ensures var after := Merge(rows, dir, answer, busy, inodes);
            && q in rows && rows[q].loaded && after[q].inode == rows[q].inode
            && (after[q].etag == rows[q].etag ||
                (q != [] && Parent(q) == dir && rows[q].inode !in busy && Last(q) in answer
                 && answer[Last(q)].isDir == rows[q].isDir && after[q].etag == answer[Last(q)].etag))
  {
    MergePointwise(rows, dir, answer, busy, inodes, q);
    if dir < q && |q| == |dir| + 1 {
      assert Parent(q) == dir && Last(q) == q[|dir|];
    }
  }

  lemma ShownByOthers(rows: Rows, dir: Path, answer: Listing, busy: set<nat>, inodes: Inodes, q: Path, listing: Listing)
    requires q != dir && q in Merge(rows, dir, answer, busy, inodes) && Merge(rows, dir, answer, busy, inodes)[q].loaded
    requires Shows(rows, q, listing)
    ensures Shows(Merge(rows, dir, answer, busy, inodes), q, listing)
  {
    hide Merge, Shows;
    var after := Merge(rows, dir, answer, busy, inodes);
    ShowsByName(rows, q, listing);
    ShowsByName(after, q, listing);
    forall n ensures Said(Lookup(after, q + [n])) == Lookup(listing, n) {
      OthersSayTheSame(rows, dir, answer, busy, inodes, q, n);
    }
  }

  /** What a merge of `dir` leaves trusted elsewhere: everything whose ETag did not
      move, and what shows the tree anyway. */
  lemma TrustStays(rows: Rows, tree: Node, dir: Path, answer: Listing, busy: set<nat>, inodes: Inodes, q: Path)
    requires q != dir && q in Merge(rows, dir, answer, busy, inodes) && Merge(rows, dir, answer, busy, inodes)[q].loaded
    requires q in rows && (Merge(rows, dir, answer, busy, inodes)[q].etag == rows[q].etag ==>
               ShownIfCurrent(rows, q, tree))
    requires Merge(rows, dir, answer, busy, inodes)[q].etag != rows[q].etag
               && Current(Merge(rows, dir, answer, busy, inodes), q, tree) ==>
               ShowsTree(rows, q, tree)
    ensures ShownIfCurrent(Merge(rows, dir, answer, busy, inodes), q, tree)
  {
    hide Merge, Shows;
    if Current(Merge(rows, dir, answer, busy, inodes), q, tree) {
      ShownByOthers(rows, dir, answer, busy, inodes, q, ListingOf(At(tree, q).value.kids));
    }
  }

  lemma DepthStays(rows: Rows, dir: Path, answer: Listing, busy: set<nat>, inodes: Inodes)
    requires WithinDepth(rows) && |dir| <= SYNC_MAX_DEPTH
    ensures WithinDepth(Merge(rows, dir, answer, busy, inodes))
  {
    var after := Merge(rows, dir, answer, busy, inodes);
    forall q | q in after && after[q].loaded ensures |q| <= SYNC_MAX_DEPTH {
      if q != dir {
        OtherRows(rows, dir, answer, busy, inodes, q);
      }
    }
  }

  lemma RootStaysLoaded(rows: Rows, dir: Path, answer: Listing, busy: set<nat>, inodes: Inodes)
    requires [] in rows && rows[[]].loaded
    ensures var after := Merge(rows, dir, answer, busy, inodes); [] in after && after[[]].loaded
  {
    MergePointwise(rows, dir, answer, busy, inodes, []);
  }

  // --- A reload -------------------------------------------------------------------

  lemma DirAfterReload(w: Walking, tree: Node, dir: Path, answer: Listing, busy: set<nat>, inodes: Inodes)
    requires dir in w.rows
    ensures var after := Merge(w.rows, dir, answer, busy, inodes);
            && dir in after && after[dir] == w.rows[dir].(loaded := true)
            && (Expected(w, dir) <==> Awaited(w.(rows := after), dir))
            && (Harmless(w.rows, tree, dir, answer, busy) <==> ShowsTree(after, dir, tree))
  {
    MergePointwise(w.rows, dir, answer, busy, inodes, dir);
    ListedDirShows(w.rows, tree, dir, answer, busy, inodes);
  }

  lemma ReloadTrusts(w: Walking, tree: Node, dir: Path, answer: Listing, busy: set<nat>, inodes: Inodes, q: Path)
    requires Inv(w, tree) && Beside(w, tree, Reload(dir, answer, busy)) && dir in w.rows
    requires var after := Merge(w.rows, dir, answer, busy, inodes);
             q != [] && q in after && after[q].loaded && !Awaited(w.(rows := after), q)
    ensures ShownIfCurrent(Merge(w.rows, dir, answer, busy, inodes), q, tree)
  {
    var after := Merge(w.rows, dir, answer, busy, inodes);
    if q == dir {
      DirAfterReload(w, tree, dir, answer, busy, inodes);
    } else {
      OtherRows(w.rows, dir, answer, busy, inodes, q);
      hide Merge, Shows;
      assert Awaited(w, q) <==> Awaited(w.(rows := after), q);
      assert w.rows[q].isDir;
      hide WellFormed, Awaited, ShownIfCurrent, ShowsTree;
      if q != [] && Parent(q) == dir {
        assert dir + [Last(q)] == q;
        assert !Misleads(w.rows, tree, dir, answer, busy, Last(q));
      }
      TrustStays(w.rows, tree, dir, answer, busy, inodes, q);
    }
  }

  lemma ReloadKeeps(versions: seq<Node>, inodes: Inodes, w: Walking, tree: Node, dir: Path, answer: Listing,
                    busy: set<nat>)
    requires Inv(w, tree) && Enabled(versions, inodes, w, Reload(dir, answer, busy))
               && Beside(w, tree, Reload(dir, answer, busy))
    ensures Inv(After(versions, inodes, w, Reload(dir, answer, busy)), tree)
  {
    var after := Merge(w.rows, dir, answer, busy, inodes);
    var n := w.(rows := after);
    DepthStays(w.rows, dir, answer, busy, inodes);
    RootStaysLoaded(w.rows, dir, answer, busy, inodes);
    forall q | q != [] && q in after && after[q].loaded && !Awaited(n, q) ensures ShownIfCurrent(after, q, tree) {
      ReloadTrusts(w, tree, dir, answer, busy, inodes, q);
    }
    if [] in w.seen {
      if dir == [] {
        DirAfterReload(w, tree, dir, answer, busy, inodes);
      } else {
        ShownByOthers(w.rows, dir, answer, busy, inodes, [], ListingOf(At(tree, []).value.kids));
      }
    }
  }

  /** A child the answer misleads about is left with the tree's ETag and not what
      the tree has. */
  lemma MisledChild(w: Walking, tree: Node, dir: Path, answer: Listing, busy: set<nat>, inodes: Inodes, n: Name)
    requires WellFormed(w.rows) && Misleads(w.rows, tree, dir, answer, busy, n)
    ensures var after, c := Merge(w.rows, dir, answer, busy, inodes), dir + [n];
            && c in after && after[c].loaded && Current(after, c, tree) && !ShowsTree(after, c, tree)
            && (Awaited(w.(rows := after), c) <==> Awaited(w, c))
  {
    var after, c := Merge(w.rows, dir, answer, busy, inodes), dir + [n];
    MergePointwise(w.rows, dir, answer, busy, inodes, c);
    assert c[..|dir| + 1] == c && c[|dir|] == n;
    hide Merge, WellFormed, Shows;
    assert after[c] == w.rows[c].(etag := answer[n].etag, fileId := Some(answer[n].fileId));
    var listing := ListingOf(At(tree, c).value.kids);
    forall k ensures Said(Lookup(after, c + [k])) == Said(Lookup(w.rows, c + [k])) {
      OthersSayTheSame(w.rows, dir, answer, busy, inodes, c, k);
    }
    ShowsByName(w.rows, c, listing);
    ShowsByName(after, c, listing);
  }

  /** A reload in the middle of a walk leaves the rows trusted iff it does no harm. */
  lemma ReloadBesideExactly(versions: seq<Node>, inodes: Inodes, w: Walking, tree: Node, dir: Path, answer: Listing,
                            busy: set<nat>)
    requires Inv(w, tree) && Enabled(versions, inodes, w, Reload(dir, answer, busy))
    ensures Inv(After(versions, inodes, w, Reload(dir, answer, busy)), tree) <==>
              Beside(w, tree, Reload(dir, answer, busy))
  {
    var n := After(versions, inodes, w, Reload(dir, answer, busy));
    if Beside(w, tree, Reload(dir, answer, busy)) {
      ReloadKeeps(versions, inodes, w, tree, dir, answer, busy);
    }
    if Inv(n, tree) {
      DirAfterReload(w, tree, dir, answer, busy, inodes);
      forall k | Misleads(w.rows, tree, dir, answer, busy, k) ensures Awaited(w, dir + [k]) {
        MisledChild(w, tree, dir, answer, busy, inodes, k);
        assert !ShownIfCurrent(n.rows, dir + [k], tree);
      }
      hide Merge, WellFormed, Misleads, Harmless, Shows;
      assert n.rows[dir].loaded && |dir| <= SYNC_MAX_DEPTH;
      if dir != [] && Current(w.rows, dir, tree) && !Expected(w, dir) {
        assert ShownIfCurrent(n.rows, dir, tree);
      }
    }
  }

  // --- A listing of the walk ------------------------------------------------------

  /** A listing of the tree shows it, an idle machine leaving nothing out. */
  lemma ListedShowsTheTree(rows: Rows, tree: Node, dir: Path, inodes: Inodes)
    requires At(tree, dir).Some? && At(tree, dir).value.Dir?
    ensures ShowsTree(Merge(rows, dir, ListingOf(At(tree, dir).value.kids), {}, inodes), dir, tree)
  {
    ListedDirShows(rows, tree, dir, ListingOf(At(tree, dir).value.kids), {}, inodes);
    HarmlessHere(rows, tree, dir, {});
  }

  /** Once `dir` is listed, the children whose ETag moved are awaited, and whatever
      else was. */
  lemma ListAwaits(w: Walking, tree: Node, dir: Path, listing: Listing, inodes: Inodes, q: Path)
    requires Inv(w, tree) && dir in w.rows && dir !in w.seen
    requires var after := Merge(w.rows, dir, listing, {}, inodes);
             WithinDepth(after) && q != [] && q != dir && q in after && after[q].loaded
    ensures var after := Merge(w.rows, dir, listing, {}, inodes);
            var n := w.(rows := after, seen := w.seen[dir := Seen(w.rows, listing)]);
            && q in w.rows && w.rows[q].loaded
            && (Awaited(w, q) ==> Awaited(n, q))
            && (after[q].etag != w.rows[q].etag ==> Awaited(n, q))
  {
    var after := Merge(w.rows, dir, listing, {}, inodes);
    OtherRows(w.rows, dir, listing, {}, inodes, q);
    hide Merge, Shows, ShownIfCurrent, ShowsTree;
    assert w.rows[q].isDir && |q| <= SYNC_MAX_DEPTH;
    if Parent(q) == dir {
      assert q !in w.seen && q !in w.skipped;
      hide Inv, WithinDepth;
    } else {
      hide Inv, WithinDepth;
      assert after[q].etag == w.rows[q].etag;
    }
  }

  lemma ListTrusts(w: Walking, tree: Node, dir: Path, inodes: Inodes, q: Path)
    requires Inv(w, tree) && dir in w.rows && dir !in w.seen
    requires At(tree, dir).Some? && At(tree, dir).value.Dir?
    requires var listing := ListingOf(At(tree, dir).value.kids);
             var after := Merge(w.rows, dir, listing, {}, inodes);
             && WithinDepth(after)
             && q != [] && q in after && after[q].loaded
             && !Awaited(w.(rows := after, seen := w.seen[dir := Seen(w.rows, listing)]), q)
    ensures ShownIfCurrent(Merge(w.rows, dir, ListingOf(At(tree, dir).value.kids), {}, inodes), q, tree)
  {
    var listing := ListingOf(At(tree, dir).value.kids);
    if q == dir {
      ListedShowsTheTree(w.rows, tree, dir, inodes);
    } else {
      ListAwaits(w, tree, dir, listing, inodes, q);
      assert ShownIfCurrent(w.rows, q, tree);
      hide Merge, Inv, Awaited, ListingOf, WithinDepth, ShownIfCurrent, ShowsTree;
      TrustStays(w.rows, tree, dir, listing, {}, inodes, q);
    }
  }

  lemma ListKeepsTheTree(w: Walking, dir: Path, listing: Listing, inodes: Inodes)
    requires WellFormed(w.rows) && WithinDepth(w.rows) && dir in w.rows && w.rows[dir].loaded
    ensures WellFormed(Merge(w.rows, dir, listing, {}, inodes)) && WithinDepth(Merge(w.rows, dir, listing, {}, inodes))
  {
    assert dir != [] ==> Parent(dir) in w.rows;
    MergeKeepsWellFormed(w.rows, dir, listing, {}, inodes);
    DepthStays(w.rows, dir, listing, {}, inodes);
  }

  lemma ListKeeps(versions: seq<Node>, inodes: Inodes, w: Walking, tree: Node, dir: Path, at: nat)
    requires Inv(w, tree) && Enabled(versions, inodes, w, List(dir, at)) && versions[at] == tree
    ensures Inv(After(versions, inodes, w, List(dir, at)), tree)
  {
    var listing := ListingOf(At(tree, dir).value.kids);
    var n := After(versions, inodes, w, List(dir, at));
    ListKeepsTheTree(w, dir, listing, inodes);
    RootStaysLoaded(w.rows, dir, listing, {}, inodes);
    hide Merge, Shows, ListingOf, WellFormed;
    forall q | q != [] && q in n.rows && n.rows[q].loaded && !Awaited(n, q) ensures ShownIfCurrent(n.rows, q, tree) {
      ListTrusts(w, tree, dir, inodes, q);
    }
    if dir == [] {
      ListedShowsTheTree(w.rows, tree, dir, inodes);
    } else if [] in w.seen {
      ShownByOthers(w.rows, dir, listing, {}, inodes, [], ListingOf(At(tree, []).value.kids));
    }
  }

  lemma SkipKeeps(versions: seq<Node>, inodes: Inodes, w: Walking, tree: Node, dir: Path)
    requires Inv(w, tree) && Enabled(versions, inodes, w, Skip(dir))
    ensures Inv(After(versions, inodes, w, Skip(dir)), tree)
  {
    var n := After(versions, inodes, w, Skip(dir));
    forall q | q != [] && q in n.rows && n.rows[q].loaded && !Awaited(n, q) ensures ShownIfCurrent(n.rows, q, tree) {
      assert Awaited(w, q) ==> Awaited(n, q);
    }
  }

  // --- The whole walk -------------------------------------------------------------

  lemma {:induction false} EveryMoveKeeps(versions: seq<Node>, inodes: Inodes, rows: Rows, moves: seq<Move>, tree: Node)
    requires WellFormed(rows) && WithinDepth(rows) && rows[[]].loaded && Trusted(rows, tree)
    requires Run(versions, inodes, rows, moves).Some?
    requires AllListed(versions, moves, tree) && AllBeside(versions, inodes, rows, moves, tree)
    ensures Inv(Run(versions, inodes, rows, moves).value, tree)
    decreases |moves|
  {
    if moves != [] {
      var init, move := moves[..|moves| - 1], moves[|moves| - 1];
      assert AllListed(versions, init, tree);
      EveryMoveKeeps(versions, inodes, rows, init, tree);
      hide Inv, Beside, Enabled, After, WellFormed, Trusted;
      var w := Run(versions, inodes, rows, init).value;
      match move
      case List(dir, at) => ListKeeps(versions, inodes, w, tree, dir, at);
      case Skip(dir) => SkipKeeps(versions, inodes, w, tree, dir);
      case Reload(dir, answer, busy) => ReloadKeeps(versions, inodes, w, tree, dir, answer, busy);
    }
  }

  /** A finished walk of rows whose ETags could be trusted makes the mirror agree,
      whatever reloads came in between, if none did harm. */
  lemma WalkBesideReloadsAgrees(versions: seq<Node>, inodes: Inodes, rows: Rows, moves: seq<Move>, w: Walking,
                                tree: Node)
    requires WellFormed(rows) && WithinDepth(rows) && rows[[]].loaded && Trusted(rows, tree)
    requires Run(versions, inodes, rows, moves) == Some(w) && Finished(w)
    requires AllListed(versions, moves, tree) && AllBeside(versions, inodes, rows, moves, tree)
    ensures Agrees(w.rows, tree)
  {
    EveryMoveKeeps(versions, inodes, rows, moves, tree);
    FinishedIsTrusted(w, tree);
    TrustedIsCoherent(w.rows, tree);
    hide WellFormed, Trusted, Coherent, Shows;
    assert At(tree, []) == Some(tree);
    CoherenceCarriesDown(w.rows, [tree], 0, 0);
  }

  lemma FinishedIsTrusted(w: Walking, tree: Node)
    requires Inv(w, tree) && Finished(w)
    ensures Trusted(w.rows, tree)
  {
  }

  // --- A reload that is never repaired --------------------------------------------

  /** A directory in a directory, with one file. */
  const DEEP_TREE: Node := Dir("r2", 1, map["d" := Dir("d2", 2, map["s" := Dir("s2", 3, map["f" := File("f2", 4)])])])

  /** The mirror before another client wrote the file. */
  const DEEP_ROWS: Rows := map[
    [] := Row(ROOT_INODE, true, "", None, true),
    ["d"] := Row(2, true, "d1", Some(2), true),
    ["d", "s"] := Row(3, true, "s1", Some(3), true),
    ["d", "s", "f"] := Row(4, false, "f1", Some(4), false)]

  /** The walk lists the root, and means to go into `d`. A refresh of `d` applies
      its answer first, and with it the new ETag of `d/s`; so the walk finds
      nothing moved in `d`, and does not go into `d/s`. */
  function ReloadInBetween(): seq<Move> {
    [List([], 0), Reload(["d"], map["s" := Entry(true, "s2", 3)], {}), List(["d"], 0)]
  }

  lemma DeepPaths()
    ensures WellFormed(DEEP_ROWS) && WithinDepth(DEEP_ROWS)
    ensures At(DEEP_TREE, ["d"]) == Some(Dir("d2", 2, map["s" := Dir("s2", 3, map["f" := File("f2", 4)])]))
    ensures At(DEEP_TREE, ["d", "s"]) == Some(Dir("s2", 3, map["f" := File("f2", 4)]))
  {
    assert Parent(["d"]) == [] && Parent(["d", "s"]) == ["d"] && Parent(["d", "s", "f"]) == ["d", "s"];
    assert At(DEEP_TREE, []) == Some(DEEP_TREE);
  }

  lemma DeepIsTrusted()
    ensures Trusted(DEEP_ROWS, DEEP_TREE)
  {
    DeepPaths();
  }

  /** A listing of one child that is still of its type, and the only child. */
  lemma OnlyChildMerged(rows: Rows, dir: Path, n: Name, e: Entry, inodes: Inodes)
    requires dir in rows && rows[dir].loaded && dir + [n] in rows && rows[dir + [n]].isDir == e.isDir
    requires forall q :: q in rows && dir < q ==> dir + [n] <= q
    ensures Merge(rows, dir, map[n := e], {}, inodes) ==
              rows[dir + [n] := rows[dir + [n]].(etag := e.etag, fileId := Some(e.fileId))]
  {
    var c := dir + [n];
    var merged, expected := Merge(rows, dir, map[n := e], {}, inodes),
        rows[c := rows[c].(etag := e.etag, fileId := Some(e.fileId))];
    forall q ensures Lookup(merged, q) == Lookup(expected, q) {
      MergePointwise(rows, dir, map[n := e], {}, inodes, q);
      if dir < q {
        assert q[..|dir| + 1] == c <==> c <= q;
        assert q[|dir|] == n <==> c <= q;
      }
    }
    hide Merge;
    assert forall q :: q in merged <==> Lookup(merged, q).Some?;
    assert forall q :: q in expected <==> Lookup(expected, q).Some?;
    assert forall q :: q in merged ==> merged[q] == Lookup(merged, q).value;
    assert forall q :: q in expected ==> expected[q] == Lookup(expected, q).value;
    assert merged == expected;
  }

  /** The rows after the first listing, and after the refresh. */
  function RootListed(): Rows {
    DEEP_ROWS[["d"] := Row(2, true, "d2", Some(2), true)]
  }

  function Refreshed(): Rows {
    RootListed()[["d", "s"] := Row(3, true, "s2", Some(3), true)]
  }

  lemma RootIsListed(inodes: Inodes)
    ensures Merge(DEEP_ROWS, [], ListingOf(DEEP_TREE.kids), {}, inodes) == RootListed()
  {
    assert [] + ["d"] == ["d"];
    assert ListingOf(DEEP_TREE.kids) == map["d" := Entry(true, "d2", 2)];
    OnlyChildMerged(DEEP_ROWS, [], "d", Entry(true, "d2", 2), inodes);
  }

  lemma RefreshedPaths()
    ensures WellFormed(Refreshed())
    ensures forall q :: q in RootListed() && ["d"] < q ==> ["d", "s"] <= q
    ensures forall q :: q in Refreshed() && ["d"] < q ==> ["d", "s"] <= q
  {
    assert Parent(["d"]) == [] && Parent(["d", "s"]) == ["d"] && Parent(["d", "s", "f"]) == ["d", "s"];
  }

  lemma RefreshedRows()
    ensures ["d"] in RootListed() && ["d", "s"] in RootListed() && ["d"] in Refreshed() && ["d", "s"] in Refreshed()
    ensures RootListed()[["d"]] == Refreshed()[["d"]] == Row(2, true, "d2", Some(2), true)
    ensures RootListed()[["d", "s"]] == Row(3, true, "s1", Some(3), true)
    ensures Refreshed()[["d", "s"]] == Row(3, true, "s2", Some(3), true)
    ensures Refreshed() == Refreshed()[["d", "s"] := Row(3, true, "s2", Some(3), true)]
  {
  }

  /** The refresh, and then the walk's own listing, which finds nothing new. */
  lemma DirIsRefreshed(inodes: Inodes)
    ensures Merge(RootListed(), ["d"], map["s" := Entry(true, "s2", 3)], {}, inodes) == Refreshed()
    ensures Merge(Refreshed(), ["d"], map["s" := Entry(true, "s2", 3)], {}, inodes) == Refreshed()
  {
    RefreshedPaths();
    RefreshedRows();
    assert ["d"] + ["s"] == ["d", "s"];
    hide DEEP_ROWS;
    OnlyChildMerged(RootListed(), ["d"], "s", Entry(true, "s2", 3), inodes);
    OnlyChildMerged(Refreshed(), ["d"], "s", Entry(true, "s2", 3), inodes);
  }

  /** The walks so far. */
  function AfterTheRoot(): Walking {
    Walking(RootListed(), map[[] := Seen(DEEP_ROWS, map["d" := Entry(true, "d2", 2)])], {})
  }

  function AfterTheRefresh(): Walking {
    AfterTheRoot().(rows := Refreshed())
  }

  function AtTheEnd(): Walking {
    Walking(Refreshed(), AfterTheRoot().seen[["d"] := Seen(Refreshed(), map["s" := Entry(true, "s2", 3)])], {})
  }

  lemma FirstMove(inodes: Inodes)
    ensures var w := Begin(DEEP_ROWS);
            && Enabled([DEEP_TREE], inodes, w, List([], 0))
            && After([DEEP_TREE], inodes, w, List([], 0)) == AfterTheRoot()
  {
    RootIsListed(inodes);
    assert At(DEEP_TREE, []) == Some(DEEP_TREE);
    assert ListingOf(DEEP_TREE.kids) == map["d" := Entry(true, "d2", 2)];
    hide Merge;
  }

  lemma SecondMove(inodes: Inodes)
    ensures var move := Reload(["d"], map["s" := Entry(true, "s2", 3)], {});
            && Enabled([DEEP_TREE], inodes, AfterTheRoot(), move)
            && After([DEEP_TREE], inodes, AfterTheRoot(), move) == AfterTheRefresh()
  {
    DirIsRefreshed(inodes);
    RefreshedPaths();
    RefreshedRows();
    hide Merge, WellFormed, DEEP_ROWS, Refreshed, RootListed;
  }

  lemma DirIsAwaited()
    ensures Awaited(AfterTheRefresh(), ["d"])
  {
    assert ["d"] in DEEP_ROWS && DEEP_ROWS[["d"]] == Row(2, true, "d1", Some(2), true);
    RefreshedRows();
    assert Parent(["d"]) == [] && Last(["d"]) == "d";
    hide DEEP_ROWS, Refreshed, RootListed;
  }

  lemma ThirdMove(inodes: Inodes)
    ensures Enabled([DEEP_TREE], inodes, AfterTheRefresh(), List(["d"], 0))
    ensures After([DEEP_TREE], inodes, AfterTheRefresh(), List(["d"], 0)) == AtTheEnd()
  {
    DirIsRefreshed(inodes);
    DirIsAwaited();
    DeepPaths();
    var kids := map["s" := Dir("s2", 3, map["f" := File("f2", 4)])];
    assert ListingOf(kids) == map["s" := Entry(true, "s2", 3)];
    hide Merge, WellFormed, At, Awaited, DEEP_ROWS, Refreshed, RootListed, ListingOf;
    assert [DEEP_TREE][0] == DEEP_TREE;
  }

  lemma NothingIsDue()
    ensures Finished(AtTheEnd())
  {
    RefreshedRows();
    hide DEEP_ROWS, Refreshed, RootListed;
    var w := AtTheEnd();
    forall c ensures !Due(w, c) {
      if c != [] {
        DueCases(c);
      }
    }
  }

  lemma DueCases(c: Path)
    requires c != []
    ensures c == ["d"] <==> Parent(c) == [] && Last(c) == "d"
    ensures c == ["d", "s"] <==> Parent(c) == ["d"] && Last(c) == "s"
  {
    assert c == Parent(c) + [Last(c)];
    assert Parent(["d"]) == [] && Parent(["d", "s"]) == ["d"];
  }

  lemma StillTheOldFile()
    ensures !Agrees(AtTheEnd().rows, DEEP_TREE)
  {
    DeepPaths();
    var rows, p := AtTheEnd().rows, ["d", "s"];
    var listing := ListingOf(At(DEEP_TREE, p).value.kids);
    assert p + ["f"] == ["d", "s", "f"] && "f" in listing && !RowIs(rows[p + ["f"]], listing["f"]);
    assert p in rows && rows[p].loaded && !ShowsTree(rows, p, DEEP_TREE);
  }

  /** The mirror could be trusted, the server held still and every answer was its
      own: the walk comes to its end, and the file is old. */
  lemma ReloadInsideAWalkIsNeverRepaired(inodes: Inodes)
    ensures WellFormed(DEEP_ROWS) && WithinDepth(DEEP_ROWS) && Trusted(DEEP_ROWS, DEEP_TREE)
    ensures Run([DEEP_TREE], inodes, DEEP_ROWS, ReloadInBetween()) == Some(AtTheEnd())
    ensures Finished(AtTheEnd()) && !Agrees(AtTheEnd().rows, DEEP_TREE)
  {
    DeepPaths();
    DeepIsTrusted();
    FirstMove(inodes);
    SecondMove(inodes);
    ThirdMove(inodes);
    NothingIsDue();
    StillTheOldFile();
    hide Enabled, After, Finished, Agrees, WellFormed, WithinDepth, Trusted, AtTheEnd, AfterTheRoot, AfterTheRefresh;
    ThreeMoves([DEEP_TREE], inodes, DEEP_ROWS, ReloadInBetween(), AfterTheRoot(), AfterTheRefresh());
  }

  lemma ThreeMoves(versions: seq<Node>, inodes: Inodes, rows: Rows, moves: seq<Move>, first: Walking, second: Walking)
    requires |moves| == 3
    requires Enabled(versions, inodes, Begin(rows), moves[0]) && After(versions, inodes, Begin(rows), moves[0]) == first
    requires Enabled(versions, inodes, first, moves[1]) && After(versions, inodes, first, moves[1]) == second
    requires Enabled(versions, inodes, second, moves[2])
    ensures Run(versions, inodes, rows, moves) == Some(After(versions, inodes, second, moves[2]))
  {
    hide Enabled, After, Begin;
    assert moves[..3] == moves && moves[..0] == [];
    assert moves[..1][..0] == moves[..0] && moves[..2][..1] == moves[..1] && moves[..3][..2] == moves[..2];
    assert Run(versions, inodes, rows, moves[..0]) == Some(Begin(rows));
    assert Run(versions, inodes, rows, moves[..1]) == Some(first);
    assert Run(versions, inodes, rows, moves[..2]) == Some(second);
  }
}

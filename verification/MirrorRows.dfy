/** The server tree, the local rows that mirror it, and what applying one
    directory listing does to the rows (`reconcile_children_except`). */
module MirrorRows {
  import opened Common

  type Name = string
  type Etag = string
  /** A path as its names, the root being the empty sequence. */
  type Path = seq<Name>

  // --- The server -----------------------------------------------------------------

  datatype Node =
    | File(etag: Etag, fileId: nat)
    | Dir(etag: Etag, fileId: nat, kids: map<Name, Node>)

  /** One line of a listing. */
  datatype Entry = Entry(isDir: bool, etag: Etag, fileId: nat)

  type Listing = map<Name, Entry>

  function EntryOf(node: Node): Entry {
    Entry(node.Dir?, node.etag, node.fileId)
  }

  function ListingOf(kids: map<Name, Node>): Listing {
    map n | n in kids :: EntryOf(kids[n])
  }

  function Parent(q: Path): Path
    requires q != []
  {
    q[..|q| - 1]
  }

  function Last(q: Path): Name
    requires q != []
  {
    q[|q| - 1]
  }

  /** The node at a path, if the server has one. */
  function At(root: Node, q: Path): Option<Node>
    decreases |q|
  {
    if q == [] then Some(root)
    else match At(root, Parent(q))
      case Some(Dir(_, _, kids)) => if Last(q) in kids then Some(kids[Last(q)]) else None
      case _ => None
  }

  /** What Nextcloud's ETags promise, for one path and three moments: an ETag
      that is there again was there all along, over the very same subtree. */
  ghost predicate Unchanged(versions: seq<Node>, q: Path, i: nat, j: nat, k: nat)
    requires i <= j <= k < |versions|
  {
    At(versions[i], q).Some? && At(versions[k], q).Some?
        && At(versions[i], q).value.etag == At(versions[k], q).value.etag
    ==> At(versions[i], q) == At(versions[j], q) == At(versions[k], q)
  }

  ghost predicate EtagLaw(versions: seq<Node>) {
    forall q: Path, i: nat, j: nat, k: nat {:trigger Unchanged(versions, q, i, j, k)} ::
      i <= j <= k < |versions| ==> Unchanged(versions, q, i, j, k)
  }

  // --- The rows -------------------------------------------------------------------

  datatype Row = Row(inode: nat, isDir: bool, etag: Etag, fileId: Option<nat>, loaded: bool)

  /** The state database, keyed by the path column, which it declares unique. */
  type Rows = map<Path, Row>

  /** The inode SQLite gives a new row. */
  type Inodes = Path -> nat

  const ROOT_INODE: nat := 1

  ghost predicate WellFormed(rows: Rows) {
    && [] in rows && rows[[]].isDir && rows[[]].inode == ROOT_INODE
    && (forall q {:trigger Parent(q)} :: q in rows && q != [] ==> Parent(q) in rows && rows[Parent(q)].isDir)
    && (forall q :: q in rows && rows[q].loaded ==> rows[q].isDir)
    && (forall q {:trigger Parent(q)} :: q in rows && q != [] && rows[q].loaded ==>
        rows[q].fileId.Some? && rows[Parent(q)].loaded)
  }

  /** The fate of one child's row under the listing's entry of its name. */
  function MergedChild(was: Option<Row>, entry: Option<Entry>, busy: bool, inode: nat): Option<Row> {
    match (was, entry)
    case (Some(row), Some(e)) =>
      if busy then was
      else if row.isDir == e.isDir then Some(row.(etag := e.etag, fileId := Some(e.fileId)))
      else Some(Row(inode, e.isDir, e.etag, Some(e.fileId), false))
    case (None, Some(e)) => Some(Row(inode, e.isDir, e.etag, Some(e.fileId), false))
    case (Some(row), None) => if row.fileId.Some? && !busy then None else was
    case (None, None) => None
  }

  /** Whether the child's row survives as the object it was, and with it
      everything below it. */
  predicate Kept(was: Option<Row>, entry: Option<Entry>, busy: bool) {
    && was.Some?
    && (busy || if entry.Some? then was.value.isDir == entry.value.isDir else was.value.fileId.None?)
  }

  predicate IsBusy(was: Option<Row>, busy: set<nat>) {
    was.Some? && was.value.inode in busy
  }

  /** The row at `q` after a listing of `p` was applied. */
  function MergedRow(rows: Rows, p: Path, listing: Listing, busy: set<nat>, inodes: Inodes, q: Path): Option<Row> {
    if q == p then
      if p in rows then Some(rows[p].(loaded := true)) else None
    else if !(p < q) then Lookup(rows, q)
    else
      var child := q[..|p| + 1];
      var was, entry := Lookup(rows, child), Lookup(listing, q[|p|]);
      if q == child then MergedChild(was, entry, IsBusy(was, busy), inodes(q))
      else if Kept(was, entry, IsBusy(was, busy)) then Lookup(rows, q)
      else None
  }

  /** The whole transaction. */
  function Merge(rows: Rows, p: Path, listing: Listing, busy: set<nat>, inodes: Inodes): Rows {
    map q | q in rows.Keys + (set n | n in listing :: p + [n]) && MergedRow(rows, p, listing, busy, inodes, q).Some?
      :: MergedRow(rows, p, listing, busy, inodes, q).value
  }

  lemma MergePointwise(rows: Rows, p: Path, listing: Listing, busy: set<nat>, inodes: Inodes, q: Path)
    ensures Lookup(Merge(rows, p, listing, busy, inodes), q) == MergedRow(rows, p, listing, busy, inodes, q)
  {
    if p < q && |q| == |p| + 1 && q[|p|] in listing {
      assert q == p + [q[|p|]];
    }
  }

  /** Whatever was there, below a name a listing decides all of the subtree: it stays
      to the last row under a child that is busy, local only, or listed as what it
      was, and is gone under any other. */
  lemma ListingDecidesSubtrees(rows: Rows, p: Path, listing: Listing, busy: set<nat>, inodes: Inodes, n: Name, r: Path)
    requires r != []
    ensures var after, c := Merge(rows, p, listing, busy, inodes), p + [n];
            if c in rows && (rows[c].inode in busy
                             || if n in listing then listing[n].isDir == rows[c].isDir else rows[c].fileId.None?)
            then Lookup(after, c + r) == Lookup(rows, c + r)
            else c + r !in after
  {
    var q := p + [n] + r;
    MergePointwise(rows, p, listing, busy, inodes, q);
    assert q[..|p| + 1] == p + [n] && q[|p|] == n;
  }

  /** And the child itself: a busy one stays as it is, as does a local one that is not
      listed; one that is listed as what it was keeps its inode and what is known of
      its children, and takes over ETag and file id; any other that is listed is new,
      and what the server has no longer is gone. The directory itself counts as
      listed from now on. */
  lemma ListingDecidesChildren(rows: Rows, p: Path, listing: Listing, busy: set<nat>, inodes: Inodes, n: Name)
    ensures var after, c := Merge(rows, p, listing, busy, inodes), p + [n];
            && (c in rows && (rows[c].inode in busy || (n !in listing && rows[c].fileId.None?)) ==>
                  c in after && after[c] == rows[c])
            && (c in rows && rows[c].inode !in busy && n in listing && rows[c].isDir == listing[n].isDir ==>
                  && c in after && RowIs(after[c], listing[n])
                  && after[c].inode == rows[c].inode && after[c].loaded == rows[c].loaded)
            && (n in listing && (c !in rows || (rows[c].inode !in busy && rows[c].isDir != listing[n].isDir)) ==>
                  && c in after && RowIs(after[c], listing[n])
                  && after[c].inode == inodes(c) && !after[c].loaded)
            && (n !in listing && (c !in rows || (rows[c].inode !in busy && rows[c].fileId.Some?)) ==> c !in after)
            && (p in rows ==>
                  && p in after && after[p].loaded
                  && after[p].(loaded := rows[p].loaded) == rows[p])
            && (p !in rows ==> p !in after)
  {
    var c := p + [n];
    MergePointwise(rows, p, listing, busy, inodes, c);
    assert c[..|p| + 1] == c && c[|p|] == n;
    MergePointwise(rows, p, listing, busy, inodes, p);
  }

  /** No row outside the directory moves. */
  lemma ListingLeavesTheRest(rows: Rows, p: Path, listing: Listing, busy: set<nat>, inodes: Inodes, q: Path)
    requires !(p <= q)
    ensures Lookup(Merge(rows, p, listing, busy, inodes), q) == Lookup(rows, q)
  {
    MergePointwise(rows, p, listing, busy, inodes, q);
  }

  // --- Agreement ------------------------------------------------------------------

  predicate RowIs(row: Row, e: Entry) {
    row.isDir == e.isDir && row.etag == e.etag && row.fileId == Some(e.fileId)
  }

  /** The server-backed children of `p` are exactly the listing. */
  ghost predicate Shows(rows: Rows, p: Path, listing: Listing) {
    && (forall n :: n in listing ==> p + [n] in rows && RowIs(rows[p + [n]], listing[n]))
    && (forall n :: p + [n] in rows && rows[p + [n]].fileId.Some? ==> n in listing)
  }

  /** Every loaded directory shows what the server's tree holds there. */
  ghost predicate Agrees(rows: Rows, tree: Node) {
    forall q :: q in rows && rows[q].loaded ==> ShowsTree(rows, q, tree)
  }

  ghost predicate ShowsTree(rows: Rows, q: Path, tree: Node) {
    && At(tree, q).Some?
    && At(tree, q).value.Dir?
    && Shows(rows, q, ListingOf(At(tree, q).value.kids))
  }

  /** A row's ETag names its directory's listing: should the server have that
      ETag at `q` from `now` on, the rows show that directory. */
  ghost predicate CoherentAt(rows: Rows, versions: seq<Node>, now: nat, q: Path) {
    q in rows && rows[q].loaded ==>
      forall k :: now <= k < |versions| ==> ShownIfCurrent(rows, q, versions[k])
  }

  ghost predicate ShownIfCurrent(rows: Rows, q: Path, tree: Node)
    requires q in rows
  {
    At(tree, q).Some? && At(tree, q).value.Dir? && At(tree, q).value.etag == rows[q].etag
    ==> Shows(rows, q, ListingOf(At(tree, q).value.kids))
  }

  /** The mirror is coherent: every loaded directory below the root is. The root
      row carries no ETag; the walk always lists it. */
  ghost predicate Coherent(rows: Rows, versions: seq<Node>, now: nat) {
    forall q :: q != [] ==> CoherentAt(rows, versions, now, q)
  }

  /** One more step down the tree. */
  lemma AtChild(tree: Node, p: Path, n: Name)
    ensures At(tree, p + [n]) ==
            match At(tree, p)
            case Some(Dir(_, _, kids)) => if n in kids then Some(kids[n]) else None
            case _ => None
  {
    assert Parent(p + [n]) == p;
  }

  /** A coherent mirror whose root shows the tree agrees with all of it: equal
      ETags carry the agreement down, one directory at a time. */
  lemma CoherenceCarriesDown(rows: Rows, versions: seq<Node>, now: nat, k: nat)
    requires WellFormed(rows) && Coherent(rows, versions, now)
    requires now <= k < |versions| && versions[k].Dir?
    requires Shows(rows, [], ListingOf(versions[k].kids))
    ensures Agrees(rows, versions[k])
  {
    forall q | q in rows && rows[q].loaded ensures ShowsTree(rows, q, versions[k]) {
      ShownHere(rows, versions, now, k, q);
    }
  }

  lemma {:induction false} ShownHere(rows: Rows, versions: seq<Node>, now: nat, k: nat, q: Path)
    requires WellFormed(rows) && Coherent(rows, versions, now)
    requires now <= k < |versions| && versions[k].Dir?
    requires Shows(rows, [], ListingOf(versions[k].kids))
    requires q in rows && rows[q].loaded
    ensures ShowsTree(rows, q, versions[k])
    decreases |q|
  {
    if q != [] {
      var up := Parent(q);
      ShownHere(rows, versions, now, k, up);
      assert up + [Last(q)] == q;
      assert Last(q) in ListingOf(At(versions[k], up).value.kids);
      AtChild(versions[k], up, Last(q));
      assert CoherentAt(rows, versions, now, q);
      assert ShownIfCurrent(rows, q, versions[k]);
    }
  }
}

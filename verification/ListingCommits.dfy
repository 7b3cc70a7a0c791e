/** What committing a rename or a removal does to the rows of the whole tree. */
module ListingCommits {
  import opened Common
  import opened MirrorRows
  import opened Listings

  predicate ProperOp(op: Op) {
    !op.Upload? && (op.Move? ==> op.from != op.to)
  }

  lemma BelowIsBelow(p: Path, n: Name, m: Name, r: Path)
    ensures p + [n] <= p + [m] + r <==> n == m
    ensures (p + [n] + r)[|p + [n]|..] == r
    ensures p + [n] == p + [m] + r ==> n == m && r == []
  {
    assert (p + [m] + r)[|p|] == m;
    if p + [n] <= p + [m] + r {
      assert (p + [n])[|p|] == n;
    }
  }

  lemma RelocatedAt(rows: Rows, from: Path, to: Path, q: Path)
    ensures Lookup(Relocated(rows, from, to), q) == RelocatedRow(rows, from, to, q)
  {
    if to <= q {
      var r := from + q[|to|..];
      assert q == to + r[|from|..];
      assert q == to ==> r == from;
    }
  }

  /** A rename carries every row of the subtree along, whatever its depth. What was
      in its place is gone with all below it, but a file the server has never seen
      takes over what the server knows the replaced file by. */
  lemma RenameCarriesTheSubtree(rows: Rows, p: Path, from: Name, to: Name, r: Path)
    requires from != to
    ensures var after := Committing(rows, p, Move(from, to));
            && Lookup(after, p + [from] + r) == None
            && (r != [] ==> Lookup(after, p + [to] + r) == Lookup(rows, p + [from] + r))
            && (p + [from] !in rows ==> p + [to] !in after)
            && (p + [from] in rows ==>
                  var row, occupant := rows[p + [from]], Lookup(rows, p + [to]);
                  && p + [to] in after && after[p + [to]].inode == row.inode
                  && after[p + [to]].isDir == row.isDir && after[p + [to]].loaded == row.loaded
                  && (row.fileId.Some? || occupant.None? || occupant.value.inode == row.inode ==>
                        after[p + [to]] == row)
                  && (row.fileId.None? && occupant.Some? && occupant.value.inode != row.inode ==>
                        && after[p + [to]].fileId == occupant.value.fileId
                        && after[p + [to]].etag == occupant.value.etag))
  {
    BelowIsBelow(p, to, from, r);
    BelowIsBelow(p, from, from, r);
    BelowIsBelow(p, to, to, r);
    RelocatedAt(rows, p + [from], p + [to], p + [from] + r);
    RelocatedAt(rows, p + [from], p + [to], p + [to] + r);
    RelocatedAt(rows, p + [from], p + [to], p + [to]);
    if r != [] {
      assert p + [to] + r != p + [to];
    }
  }

  /** A removal takes the whole subtree away. */
  lemma RemovalTakesTheSubtree(rows: Rows, p: Path, name: Name, r: Path)
    ensures Lookup(Committing(rows, p, Remove(name)), p + [name] + r) == None
  {
    BelowIsBelow(p, name, name, r);
  }

  /** And neither touches any other row. */
  lemma CommitLeavesTheRest(rows: Rows, p: Path, op: Op, q: Path)
    requires ProperOp(op) && !(p + [Target(op)] <= q) && (op.Move? ==> !(p + [op.to] <= q))
    ensures Lookup(Committing(rows, p, op), q) == Lookup(rows, q)
  {
    if op.Move? {
      RelocatedAt(rows, p + [op.from], p + [op.to], q);
    }
  }

  /** What a commit does to the children, one name at a time. */
  lemma CommittedKid(rows: Rows, p: Path, op: Op, n: Name)
    requires ProperOp(op)
    ensures Lookup(Committing(rows, p, op), p + [n]) ==
            if n == Target(op) then None
            else if op.Move? && n == op.to then
              if p + [op.from] in rows then Some(Heir(rows[p + [op.from]], Lookup(rows, p + [op.to]))) else None
            else Lookup(rows, p + [n])
  {
    assert p + [n] + [] == p + [n];
    BelowIsBelow(p, Target(op), n, []);
    if op.Move? {
      BelowIsBelow(p, op.to, n, []);
      RelocatedAt(rows, p + [op.from], p + [op.to], p + [n]);
    }
  }

  /** A rename or a removal commits once the server has done it, or at once if the
      server never had the file; and only while its row is where it was found. */
  lemma CommitsExactly(s: State, t: nat)
    requires t < |s.flows| && Active(s.flows[t]) && OnDir(s.flows[t])
    ensures var f, c := s.flows[t], s.path + [Target(s.flows[t].op)];
            Enabled(s, Commit(t)) <==>
              && c in s.rows && s.rows[c].inode == f.child
              && (f.phase.OnServer? || (f.phase.Located? && s.rows[c].fileId.None?))
  {
  }
}

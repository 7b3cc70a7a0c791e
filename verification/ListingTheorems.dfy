/** What the listing protocol promises, and exactly where its promise ends: a
    listing that passed the check is older than whatever is committed before it
    is applied. */
module ListingTheorems {
  import opened Common
  import opened Activity
  import opened MirrorRows
  import opened Listings
  import opened ListingCommits
  import opened ListingRuns

  // --- In every run ---------------------------------------------------------------

  /** An accepted listing caught no rename and no removal halfway: all of those
      begun before the check had ended before the listing was asked for. */
  lemma AcceptedListingStraddlesNoFlow(start: State, steps: seq<Step>, s: State, r: nat)
    requires Initial(start) && Run(start, steps) == Some(s)
    requires r < |s.requests| && s.requests[r].Checked?
    ensures s.requests[r].halfway == {}
    ensures s.requests[r].tickets <= |s.flows|
    ensures forall t: nat :: t < s.requests[r].tickets && OnDir(s.flows[t]) ==>
              && s.flows[t].last.Some?
              && (s.requests[r].holder != Some(s.dir) ==> s.flows[t].last.value <= s.requests[r].since)
  {
    EveryRunKeeps(start, steps);
    assert Sound(s, s.requests[r]);
  }

  /** A child that any flow held at any time since the listing was asked for
      keeps its row, unless the flow is the one that asked. */
  lemma BusyChildKeepsItsRow(start: State, steps: seq<Step>, s: State, r: nat, inodes: Inodes, n: Name, t: nat)
    requires Initial(start) && Run(start, steps) == Some(s)
    requires Enabled(s, Apply(r, inodes)) && t < |s.flows|
    requires !s.flows[t].phase.Parked? && IsChild(s.rows, s.path, n, s.flows[t].child)
    requires s.requests[r].holder != Some(s.flows[t].child) && s.requests[r].since < End(s.flows[t], s.history)
    ensures Lookup(After(s, Apply(r, inodes)).rows, s.path + [n]) == Some(s.rows[s.path + [n]])
  {
    EveryRunKeeps(start, steps);
    var f, q := s.flows[t], s.requests[r];
    assert Covered(s, f);
    BusyIsNotQuiet(s.history, f.child, f.held, End(f, s.history), q.since);
    ProtectedStays(s.rows, s.path, q.entries, Protected(s, q.holder, q.since), inodes, n);
  }

  /** Whatever other clients do to a file: once a rename or a removal found its
      row, no listing takes it away, and after the server's step its commit goes
      through, for as long as it is not given up. */
  lemma RenamesAlwaysFindTheirRow(start: State, steps: seq<Step>, s: State, t: nat)
    requires Initial(start) && Run(start, steps) == Some(s)
    requires t < |s.flows|
    ensures !s.flows[t].phase.Broken? && !Enabled(s, Fail(t))
    ensures OnDir(s.flows[t]) && Active(s.flows[t]) && s.flows[t].phase.OnServer? ==> Enabled(s, Commit(t))
  {
    EveryRunKeeps(start, steps);
    assert HasItsRow(s, s.flows[t]);
  }

  /** Something held `o` between the question and now, or nobody remembers. */
  ghost predicate WasHeld(s: State, since: nat, o: ObjectId) {
    since < s.floor || exists i :: since <= i < |s.history| && o in s.history[i]
  }

  /** A listing passes the check exactly if its directory was held by nobody since it
      was asked for, or by the very flow that asked; one that does not pass is never
      applied. The check itself changes nothing. */
  lemma CheckAcceptsExactly(s: State, r: nat)
    requires Enabled(s, Check(r)) && s.requests[r].since < |s.history|
    ensures var n, q := After(s, Check(r)), s.requests[r];
            && (n.requests[r].Checked? <==> q.holder == Some(s.dir) || !WasHeld(s, q.since, s.dir))
            && (n.requests[r].Checked? ==>
                  n.requests[r].entries == q.entries && n.requests[r].holder == q.holder
                  && n.requests[r].since == q.since)
            && (!n.requests[r].Checked? ==> n.requests[r].Settled?)
            && n.rows == s.rows && n.flows == s.flows && n.history == s.history && n.server == s.server
  {
    assert WasHeld(s, s.requests[r].since, s.dir) <==>
        !(s.floor <= s.requests[r].since && QuietThroughout(s.history, s.dir, s.requests[r].since));
  }

  /** Applying it, a child is left alone to the last row below it exactly if it was
      held meanwhile by another flow than the one that asked; any other becomes what
      the listing says, a file or directory that is still one keeping its inode. */
  lemma ApplySparesTheHeldExactly(s: State, r: nat, inodes: Inodes, n: Name, below: Path)
    requires Enabled(s, Apply(r, inodes)) && s.requests[r].since < |s.history| && s.path + [n] in s.rows
    ensures var after, q, c := After(s, Apply(r, inodes)).rows, s.requests[r], s.path + [n];
            if q.holder != Some(s.rows[c].inode) && WasHeld(s, q.since, s.rows[c].inode) then
              Lookup(after, c + below) == Lookup(s.rows, c + below)
            else if n in q.entries then
              && c in after && RowIs(after[c], q.entries[n])
              && (s.rows[c].isDir == q.entries[n].isDir ==> after[c].inode == s.rows[c].inode)
            else (c in after <==> s.rows[c].fileId.None?)
  {
    var q, c := s.requests[r], s.path + [n];
    var o := s.rows[c].inode;
    assert WasHeld(s, q.since, o) <==> !(s.floor <= q.since && QuietThroughout(s.history, o, q.since));
    assert o in Protected(s, q.holder, q.since) <==> q.holder != Some(o) && WasHeld(s, q.since, o);
    hide Protected, Merge, Trusted;
    ListingDecidesChildren(s.rows, s.path, q.entries, Protected(s, q.holder, q.since), inodes, n);
    if below == [] {
      assert c + below == c;
    } else {
      ListingDecidesSubtrees(s.rows, s.path, q.entries, Protected(s, q.holder, q.since), inodes, n, below);
    }
  }

  // --- What an accepted listing does to the rows ----------------------------------

  ghost predicate SameKids(a: Rows, b: Rows, p: Path) {
    forall n {:trigger p + [n]} :: Lookup(a, p + [n]) == Lookup(b, p + [n])
  }

  /** What the listing says of the name the rows say too, or it is not the listing's
      to say: the row is protected, or was never on the server. */
  ghost predicate SaysNothingNew(s: State, r: nat, n: Name)
    requires r < |s.requests| && s.requests[r].Checked?
  {
    var q, path := s.requests[r], s.path + [n];
    if path !in s.rows then n !in q.entries
    else
      || s.rows[path].inode in Protected(s, q.holder, q.since)
      || (if n in q.entries then RowIs(s.rows[path], q.entries[n]) else s.rows[path].fileId.None?)
  }

  /** In every state: applying a listing leaves the directory's rows alone iff it
      says nothing new of any name. */
  lemma AppliedListingChangesNothingExactly(s: State, r: nat, inodes: Inodes)
    requires Enabled(s, Apply(r, inodes))
    ensures SameKids(s.rows, After(s, Apply(r, inodes)).rows, s.path) <==> forall n :: SaysNothingNew(s, r, n)
  {
    var after := After(s, Apply(r, inodes)).rows;
    forall n ensures Lookup(s.rows, s.path + [n]) == Lookup(after, s.path + [n]) <==> SaysNothingNew(s, r, n) {
      AppliedName(s, r, inodes, n);
    }
    hide SaysNothingNew;
    if SameKids(s.rows, after, s.path) {
      forall n ensures SaysNothingNew(s, r, n) {
        SameKidsAt(s.rows, after, s.path, n);
      }
    }
  }

  lemma AppliedName(s: State, r: nat, inodes: Inodes, n: Name)
    requires Enabled(s, Apply(r, inodes))
    ensures var path, q := s.path + [n], s.requests[r];
            var was, after := Lookup(s.rows, path), Lookup(After(s, Apply(r, inodes)).rows, path);
            && after == MergedChild(was, Lookup(q.entries, n), IsBusy(was, Protected(s, q.holder, q.since)),
                inodes(path))
            && (after == was <==> SaysNothingNew(s, r, n))
  {
    var q := s.requests[r];
    MergePointwise(s.rows, s.path, q.entries, Protected(s, q.holder, q.since), inodes, s.path + [n]);
    assert (s.path + [n])[..|s.path| + 1] == s.path + [n];
    hide Merge, Protected;
  }

  lemma SameKidsAt(a: Rows, b: Rows, p: Path, n: Name)
    requires SameKids(a, b, p)
    ensures Lookup(a, p + [n]) == Lookup(b, p + [n])
  {
  }

  // --- With no other client -------------------------------------------------------

  /** The children's rows are exactly the listing. */
  ghost predicate Mirrors(rows: Rows, p: Path, listing: Listing) {
    forall n :: MirrorsName(rows, p, listing, n)
  }

  ghost predicate MirrorsName(rows: Rows, p: Path, listing: Listing, n: Name) {
    && (n in listing <==> p + [n] in rows)
    && (n in listing ==> RowIs(rows[p + [n]], listing[n]))
  }

  /** Every name of the listing still has a row: nothing that was committed
      since took one away for good. */
  ghost predicate NothingMissing(s: State, r: nat)
    requires r < |s.requests| && s.requests[r].Checked?
  {
    forall n :: n in s.requests[r].entries ==> s.path + [n] in s.rows
  }

  /** Nobody but the directory's own flows and listings, no flow given up between
      its server step and its commit, and no listing so far undid anything. */
  ghost predicate Own(s: State, step: Step)
    requires Enabled(s, step)
  {
    match step
    case Foreign(_) => false
    case Record(_, _, _) => false
    case Report(ended, _, begun, _) =>
      && (forall i :: 0 <= i < |begun| ==> !begun[i].0.Upload?)
      && (forall t :: t in ended ==> !s.flows[t].phase.OnServer?)
    case Apply(r, _) => NothingMissing(s, r)
    case _ => true
  }

  ghost predicate OwnRun(start: State, steps: seq<Step>) {
    steps == [] ||
    var init := steps[..|steps| - 1];
    && OwnRun(start, init)
    && Run(start, init).Some?
    && Enabled(Run(start, init).value, steps[|steps| - 1])
    && Own(Run(start, init).value, steps[|steps| - 1])
  }

  /** All renames and removals had ended before the listing was asked for. */
  ghost predicate AllEnded(s: State, q: Request)
    requires Live(q)
  {
    forall t: nat :: t < |s.flows| && OnDir(s.flows[t]) ==>
      s.flows[t].last.Some? && (q.holder == Some(s.dir) || s.flows[t].last.value <= q.since)
  }

  ghost predicate Dated(s: State, q: Request) {
    && (q.Answered? && AllEnded(s, q) ==> Mirrors(s.rows, s.path, q.entries))
    && (q.Checked? ==>
          && q.commits <= s.commits
          && (forall n :: s.path + [n] in s.rows ==> StillListed(s, q, n))
          && (s.commits == q.commits ==> Mirrors(s.rows, s.path, q.entries))
          && (s.commits == q.commits + 1 ==> exists n :: n in q.entries && s.path + [n] !in s.rows))
  }

  ghost predicate StillListed(s: State, q: Request, n: Name)
    requires q.Checked? && s.path + [n] in s.rows
  {
    || (n in q.entries && RowIs(s.rows[s.path + [n]], q.entries[n]))
    || !Trusted(s, q.holder, q.since, s.rows[s.path + [n]].inode)
  }

  /** The rows are what the server holds, but for the one rename or removal
      whose commit is still to come. */
  ghost predicate OwnRows(s: State) {
    && (forall t: nat :: t < |s.flows| ==> ProperOp(s.flows[t].op))
    && ((forall t: nat :: t < |s.flows| ==> !s.flows[t].phase.OnServer?) ==> Mirrors(s.rows, s.path, s.server))
    && (forall t: nat :: t < |s.flows| && s.flows[t].phase.OnServer? ==>
          Mirrors(Committing(s.rows, s.path, s.flows[t].op), s.path, s.server))
    && (forall n :: s.path + [n] in s.rows ==> s.rows[s.path + [n]].fileId.Some?)
  }

  predicate OnServerIsActive(f: Flow) {
    f.phase.OnServer? ==> Active(f)
  }

  ghost predicate OwnInv(s: State) {
    && Inv(s)
    && (forall t: nat :: t < |s.flows| ==> OnServerIsActive(s.flows[t]))
    && OwnRows(s)
    && (forall r: nat :: r < |s.requests| ==> Dated(s, s.requests[r]))
  }

  lemma OwnRowsStay(s: State, n: State)
    requires OwnRows(s)
    requires n.rows == s.rows && n.path == s.path && n.server == s.server && |s.flows| <= |n.flows|
    requires forall t: nat :: t < |s.flows| ==>
               n.flows[t].op == s.flows[t].op && n.flows[t].phase.OnServer? == s.flows[t].phase.OnServer?
    requires forall t: nat :: |s.flows| <= t < |n.flows| ==> ProperOp(n.flows[t].op) && !n.flows[t].phase.OnServer?
    ensures OwnRows(n)
  {
    forall t: nat | t < |n.flows| ensures ProperOp(n.flows[t].op) && (n.flows[t].phase.OnServer? ==> t < |s.flows|) {
      if t < |s.flows| {
        assert ProperOp(s.flows[t].op);
      }
    }
    if forall t: nat :: t < |n.flows| ==> !n.flows[t].phase.OnServer? {
      forall t: nat | t < |s.flows| ensures !s.flows[t].phase.OnServer? {
        assert !n.flows[t].phase.OnServer?;
      }
    }
  }

  lemma KidsDecideTheMirror(a: Rows, b: Rows, p: Path, listing: Listing)
    requires SameKids(a, b, p) && Mirrors(a, p, listing)
    ensures Mirrors(b, p, listing)
  {
    forall n ensures MirrorsName(b, p, listing, n) {
      assert MirrorsName(a, p, listing, n);
      assert Lookup(a, p + [n]) == Lookup(b, p + [n]);
    }
  }

  lemma KidsDecideTheCommit(a: Rows, b: Rows, p: Path, op: Op)
    requires SameKids(a, b, p) && ProperOp(op)
    ensures SameKids(Committing(a, p, op), Committing(b, p, op), p)
  {
    forall n ensures Lookup(Committing(a, p, op), p + [n]) == Lookup(Committing(b, p, op), p + [n]) {
      CommittedKid(a, p, op, n);
      CommittedKid(b, p, op, n);
      assert Lookup(a, p + [n]) == Lookup(b, p + [n]);
      if op.Move? {
        assert Lookup(a, p + [op.from]) == Lookup(b, p + [op.from]);
      }
    }
  }

  /** Committing a rename makes the rows what the rename made the server. */
  lemma ServerStepAndCommitMeet(rows: Rows, p: Path, op: Op, server: Listing)
    requires ProperOp(op) && Target(op) in server && Mirrors(rows, p, server)
    ensures Mirrors(Committing(rows, p, op), p, Effect(op, server))
  {
    forall n ensures MirrorsName(Committing(rows, p, op), p, Effect(op, server), n) {
      CommittedKid(rows, p, op, n);
      assert MirrorsName(rows, p, server, n) && MirrorsName(rows, p, server, Target(op));
    }
  }

  /** Nothing that `OwnInv` speaks of changed but the flows' indices and the
      history. */
  lemma UntrustedStays(s: State, n: State, holder: Option<ObjectId>, since: nat, o: ObjectId)
    requires s.history <= n.history && s.floor <= n.floor && since < |s.history|
    requires !Trusted(s, holder, since, o)
    ensures !Trusted(n, holder, since, o)
  {
    if QuietThroughout(n.history, o, since) {
      forall i | since <= i < |s.history| ensures o !in s.history[i] {
        assert n.history[i] == s.history[i];
      }
      assert QuietThroughout(s.history, o, since);
    }
  }

  /** A step that commits nothing and applies nothing leaves every listing's
      story as it was. */
  lemma DatedStays(s: State, n: State, q: Request)
    requires Dated(s, q) && (Live(q) ==> q.since < |s.history|)
    requires n.rows == s.rows && n.path == s.path && n.dir == s.dir && n.commits == s.commits
    requires s.history <= n.history && s.floor <= n.floor
    requires Live(q) && AllEnded(n, q) ==> AllEnded(s, q)
    ensures Dated(n, q)
  {
    if q.Checked? {
      forall k | s.path + [k] in s.rows ensures StillListed(n, q, k) {
        assert StillListed(s, q, k);
        if !Trusted(s, q.holder, q.since, s.rows[s.path + [k]].inode) {
          UntrustedStays(s, n, q.holder, q.since, s.rows[s.path + [k]].inode);
        }
      }
    }
  }

  /** A report ends no flow retroactively. */
  lemma EndedBefore(s: State, step: Step, r: nat)
    requires Inv(s) && step.Report? && Enabled(s, step) && r < |s.requests| && Live(s.requests[r])
    requires AllEnded(After(s, step), s.requests[r])
    ensures AllEnded(s, s.requests[r])
  {
    var n, q := After(s, step), s.requests[r];
    assert Sound(s, q);
    forall t: nat | t < |s.flows| && OnDir(s.flows[t])
      ensures s.flows[t].last.Some? && (q.holder == Some(s.dir) || s.flows[t].last.value <= q.since)
    {
      if q.holder == Some(s.dir) {
        LsKeepsFlowsOut(s, t, r);
      } else {
        assert OnDir(n.flows[t]) && n.flows[t].last.Some? && n.flows[t].last.value <= q.since;
      }
    }
  }

  lemma ReportDates(s: State, step: Step, r: nat)
    requires OwnInv(s) && step.Report? && Enabled(s, step) && r < |s.requests|
    ensures Dated(After(s, step), s.requests[r])
  {
    var n, q := After(s, step), s.requests[r];
    ReportExtends(s, step.ended, step.handed, step.begun, step.drop);
    assert Dated(s, q) && Sound(s, q);
    if Live(q) && AllEnded(n, q) {
      EndedBefore(s, step, r);
    }
    DatedStays(s, n, q);
  }

  lemma OwnReport(s: State, step: Step)
    requires OwnInv(s) && step.Report? && Enabled(s, step) && Own(s, step)
    ensures OwnInv(After(s, step))
  {
    hide Dated, Mirrors, Covered, Sound, AllBacked, Exclusive;
    var n := After(s, step);
    StepKeeps(s, step);
    OwnRowsStay(s, n);
    forall r: nat | r < |n.requests| ensures Dated(n, n.requests[r]) {
      ReportDates(s, step, r);
    }
  }

  lemma NotAllEnded(s: State, q: Request, t: nat)
    requires Live(q) && t < |s.flows| && OnDir(s.flows[t]) && Active(s.flows[t])
    ensures !AllEnded(s, q)
  {
  }

  lemma OwnLocateOrServe(s: State, step: Step)
    requires OwnInv(s) && (step.Locate? || step.Serve?) && Enabled(s, step)
    ensures OwnInv(After(s, step))
  {
    var n, op := After(s, step), s.flows[step.t].op;
    StepKeeps(s, step);
    forall t: nat | t < |s.flows| && s.flows[t].phase.OnServer? ensures false {
      assert OnServerIsActive(s.flows[t]);
      OneAtATime(s, step.t, t);
    }
    if step.Serve? {
      ServerStepAndCommitMeet(s.rows, s.path, op, s.server);
    } else {
      assert n.server == s.server && n.rows == s.rows;
    }
    forall r: nat | r < |n.requests| ensures Dated(n, n.requests[r]) {
      var q := s.requests[r];
      assert Dated(s, q) && Sound(s, q);
      if Live(q) {
        NotAllEnded(n, q, step.t);
      }
      DatedStays(s, n, q);
    }
  }

  /** A commit takes its target away, and gives back only a child it holds. */
  lemma OwnCommitDates(s: State, t: nat, r: nat)
    requires OwnInv(s) && Enabled(s, Commit(t)) && r < |s.requests|
    ensures Dated(After(s, Commit(t)), s.requests[r])
  {
    var n, q, f := After(s, Commit(t)), s.requests[r], s.flows[t];
    assert Dated(s, q) && Sound(s, q) && Covered(s, f);
    if q.Checked? {
      CommittedKid(s.rows, s.path, f.op, Target(f.op));
      forall k | s.path + [k] in n.rows ensures StillListed(n, q, k) {
        CommittedKid(s.rows, s.path, f.op, k);
        if f.op.Move? && k == f.op.to {
          assert n.rows[s.path + [k]].inode == f.child;
          assert f.child in s.history[|s.history| - 1];
          HolderIsTheDirectory(s, r);
          assert !Trusted(n, q.holder, q.since, f.child);
        } else {
          assert StillListed(s, q, k);
          assert Trusted(s, q.holder, q.since, s.rows[s.path + [k]].inode) ==>
              Trusted(n, q.holder, q.since, s.rows[s.path + [k]].inode);
        }
      }
      if n.commits == q.commits + 1 {
        assert MirrorsName(s.rows, s.path, q.entries, Target(f.op));
        assert Target(f.op) in q.entries && s.path + [Target(f.op)] !in n.rows;
      }
    }
    if q.Answered? {
      NotAllEnded(n, q, t);
    }
  }

  /** With no uploads around, only the directory's own `ls` is a flow's listing. */
  lemma HolderIsTheDirectory(s: State, r: nat)
    requires OwnInv(s) && r < |s.requests| && Live(s.requests[r])
    ensures s.requests[r].holder.Some? ==> s.requests[r].holder.value == s.dir
  {
    assert Backed(s, s.requests[r].holder);
    assert forall t: nat :: t < |s.flows| ==> ProperOp(s.flows[t].op);
  }

  lemma OwnCommit(s: State, t: nat)
    requires OwnInv(s) && Enabled(s, Commit(t))
    ensures OwnInv(After(s, Commit(t)))
  {
    var n, f := After(s, Commit(t)), s.flows[t];
    StepKeeps(s, Commit(t));
    assert f.phase.OnServer?;
    forall u: nat | u < |n.flows| ensures ProperOp(n.flows[u].op) && !n.flows[u].phase.OnServer? {
      if u != t && s.flows[u].phase.OnServer? {
        assert OnServerIsActive(s.flows[u]);
        OneAtATime(s, t, u);
      }
    }
    forall k | s.path + [k] in n.rows ensures n.rows[s.path + [k]].fileId.Some? {
      CommittedKid(s.rows, s.path, f.op, k);
    }
    forall r: nat | r < |n.requests| ensures Dated(n, n.requests[r]) {
      OwnCommitDates(s, t, r);
    }
  }

  lemma RequestDates(s: State, step: Step, r: nat)
    requires OwnInv(s) && (step.Ask? || step.Answer? || step.Check?) && Enabled(s, step)
    requires r < |After(s, step).requests|
    ensures Dated(After(s, step), After(s, step).requests[r])
  {
    var n := After(s, step);
    if r < |s.requests| {
      assert Dated(s, s.requests[r]) && Sound(s, s.requests[r]);
    }
    if step.Answer? && r == step.r {
      if AllEnded(n, n.requests[r]) {
        OwnAnswer(s, r);
        assert Mirrors(n.rows, n.path, n.requests[r].entries);
      }
    } else if step.Check? && r == step.r && n.requests[r].Checked? {
      OwnCheck(s, r);
      forall k | n.path + [k] in n.rows ensures StillListed(n, n.requests[r], k) {
        assert MirrorsName(s.rows, s.path, n.requests[r].entries, k);
      }
    } else {
      DatedStays(s, n, n.requests[r]);
    }
  }

  lemma OwnRequests(s: State, step: Step)
    requires OwnInv(s) && (step.Ask? || step.Answer? || step.Check?) && Enabled(s, step)
    ensures OwnInv(After(s, step))
  {
    hide Dated, Mirrors, Covered, Sound, AllBacked, Exclusive;
    var n := After(s, step);
    StepKeeps(s, step);
    OwnRowsStay(s, n);
    forall r: nat | r < |n.requests| ensures Dated(n, n.requests[r]) {
      RequestDates(s, step, r);
    }
  }

  lemma OwnAnswer(s: State, r: nat)
    requires OwnInv(s) && r < |s.requests| && s.requests[r].Asked? && AllEnded(s, s.requests[r])
    ensures Mirrors(s.rows, s.path, s.server)
  {
    forall t: nat | t < |s.flows| ensures !s.flows[t].phase.OnServer? {
      assert OnServerIsActive(s.flows[t]) && ProperOp(s.flows[t].op);
    }
  }

  lemma EndedByTheCheck(s: State, r: nat)
    requires Inv(s) && Enabled(s, Check(r)) && Trusted(s, s.requests[r].holder, s.requests[r].since, s.dir)
    ensures AllEnded(s, s.requests[r])
  {
    var q := s.requests[r];
    assert Sound(s, q);
    forall t: nat | t < |s.flows| && OnDir(s.flows[t])
      ensures s.flows[t].last.Some? && (q.holder == Some(s.dir) || s.flows[t].last.value <= q.since)
    {
      if q.holder == Some(s.dir) {
        LsKeepsFlowsOut(s, t, r);
      } else {
        QuietMeansEnded(s, q.since, t);
      }
    }
  }

  lemma OwnCheck(s: State, r: nat)
    requires OwnInv(s) && Enabled(s, Check(r)) && Trusted(s, s.requests[r].holder, s.requests[r].since, s.dir)
    ensures Mirrors(s.rows, s.path, s.requests[r].entries)
  {
    EndedByTheCheck(s, r);
    assert Dated(s, s.requests[r]);
  }

  // --- Applying a listing ---------------------------------------------------------

  /** What applying a checked listing does to one child: nothing, unless the
      listing has a name that no row has any more. */
  lemma AppliedKid(s: State, r: nat, inodes: Inodes, n: Name)
    requires OwnInv(s) && Enabled(s, Apply(r, inodes))
    ensures var after := After(s, Apply(r, inodes)).rows;
            var was, entries := Lookup(s.rows, s.path + [n]), s.requests[r].entries;
            Lookup(after, s.path + [n]) ==
            if was.None? && n in entries
                then Some(Row(inodes(s.path + [n]), entries[n].isDir, entries[n].etag, Some(entries[n].fileId), false))
            else was
  {
    var q := s.requests[r];
    var busy := Protected(s, q.holder, q.since);
    MergePointwise(s.rows, s.path, q.entries, busy, inodes, s.path + [n]);
    assert (s.path + [n])[..|s.path| + 1] == s.path + [n];
    assert Dated(s, q);
    if s.path + [n] in s.rows {
      assert StillListed(s, q, n);
    }
  }

  /** The exact price of checking first and applying later: the rows stay as
      they are iff every listed name still has a row. No commit since the check
      is enough for that, and a single one is always too much. */
  lemma AppliedListingIsHarmlessExactly(start: State, steps: seq<Step>, s: State, r: nat, inodes: Inodes)
    requires Initial(start) && Mirrors(start.rows, start.path, start.server)
    requires OwnRun(start, steps) && Run(start, steps) == Some(s)
    requires Enabled(s, Apply(r, inodes))
    ensures SameKids(s.rows, After(s, Apply(r, inodes)).rows, s.path) <==> NothingMissing(s, r)
    ensures s.requests[r].commits <= s.commits
    ensures s.commits == s.requests[r].commits ==> NothingMissing(s, r)
    ensures s.commits == s.requests[r].commits + 1 ==> !NothingMissing(s, r)
  {
    EveryOwnRunKeeps(start, steps);
    HarmlessExactly(s, r, inodes);
    CommitsDecide(s, r);
  }

  lemma HarmlessExactly(s: State, r: nat, inodes: Inodes)
    requires OwnInv(s) && Enabled(s, Apply(r, inodes))
    ensures SameKids(s.rows, After(s, Apply(r, inodes)).rows, s.path) <==> NothingMissing(s, r)
  {
    if NothingMissing(s, r) {
      HarmlessApply(s, r, inodes);
    } else {
      var n :| n in s.requests[r].entries && s.path + [n] !in s.rows;
      AppliedKid(s, r, inodes, n);
      assert Lookup(s.rows, s.path + [n]) != Lookup(After(s, Apply(r, inodes)).rows, s.path + [n]);
    }
  }

  lemma CommitsDecide(s: State, r: nat)
    requires OwnInv(s) && r < |s.requests| && s.requests[r].Checked?
    ensures s.requests[r].commits <= s.commits
    ensures s.commits == s.requests[r].commits ==> NothingMissing(s, r)
    ensures s.commits == s.requests[r].commits + 1 ==> !NothingMissing(s, r)
  {
    assert Dated(s, s.requests[r]);
    if s.commits == s.requests[r].commits {
      forall n | n in s.requests[r].entries ensures s.path + [n] in s.rows {
        assert MirrorsName(s.rows, s.path, s.requests[r].entries, n);
      }
    }
  }

  /** What a late listing brings back is not on the server either. */
  lemma WhatComesBackIsNowhere(start: State, steps: seq<Step>, s: State, r: nat, inodes: Inodes, n: Name)
    requires Initial(start) && Mirrors(start.rows, start.path, start.server)
    requires OwnRun(start, steps) && Run(start, steps) == Some(s)
    requires Enabled(s, Apply(r, inodes))
    requires n in s.requests[r].entries && s.path + [n] !in s.rows
    requires forall t: nat :: t < |s.flows| ==> !s.flows[t].phase.OnServer?
    ensures var after := After(s, Apply(r, inodes));
            s.path + [n] in after.rows && n !in after.server && !Mirrors(after.rows, s.path, after.server)
  {
    EveryOwnRunKeeps(start, steps);
    AppliedKid(s, r, inodes, n);
    assert MirrorsName(s.rows, s.path, s.server, n);
    assert !MirrorsName(After(s, Apply(r, inodes)).rows, s.path, s.server, n);
  }

  lemma HarmlessApply(s: State, r: nat, inodes: Inodes)
    requires OwnInv(s) && Enabled(s, Apply(r, inodes)) && NothingMissing(s, r)
    ensures SameKids(s.rows, After(s, Apply(r, inodes)).rows, s.path)
  {
    forall n ensures Lookup(s.rows, s.path + [n]) == Lookup(After(s, Apply(r, inodes)).rows, s.path + [n]) {
      AppliedKid(s, r, inodes, n);
    }
  }

  lemma SameKidsDated(s: State, n: State, q: Request)
    requires Dated(s, q) && n == s.(rows := n.rows, requests := n.requests) && SameKids(s.rows, n.rows, s.path)
    ensures Dated(n, q)
  {
    if q.Answered? && AllEnded(n, q) {
      assert AllEnded(s, q);
      KidsDecideTheMirror(s.rows, n.rows, s.path, q.entries);
    }
    if q.Checked? {
      if s.commits == q.commits {
        KidsDecideTheMirror(s.rows, n.rows, s.path, q.entries);
      }
      forall k | s.path + [k] in n.rows ensures StillListed(n, q, k) {
        SameKidsAt(s.rows, n.rows, s.path, k);
        assert StillListed(s, q, k);
      }
      if s.commits == q.commits + 1 {
        var k :| k in q.entries && s.path + [k] !in s.rows;
        SameKidsAt(s.rows, n.rows, s.path, k);
      }
    }
  }

  lemma OwnApply(s: State, r: nat, inodes: Inodes)
    requires OwnInv(s) && Enabled(s, Apply(r, inodes)) && NothingMissing(s, r)
    ensures OwnInv(After(s, Apply(r, inodes)))
  {
    var n := After(s, Apply(r, inodes));
    StepKeeps(s, Apply(r, inodes));
    HarmlessApply(s, r, inodes);
    if forall t: nat :: t < |s.flows| ==> !s.flows[t].phase.OnServer? {
      KidsDecideTheMirror(s.rows, n.rows, s.path, s.server);
    }
    forall t: nat | t < |s.flows| && s.flows[t].phase.OnServer?
      ensures Mirrors(Committing(n.rows, s.path, s.flows[t].op), s.path, s.server)
    {
      KidsDecideTheCommit(s.rows, n.rows, s.path, s.flows[t].op);
      KidsDecideTheMirror(Committing(s.rows, s.path, s.flows[t].op), Committing(n.rows, s.path, s.flows[t].op), s.path,
          s.server);
    }
    forall k | s.path + [k] in n.rows ensures n.rows[s.path + [k]].fileId.Some? {
      SameKidsAt(s.rows, n.rows, s.path, k);
    }
    forall u: nat | u < |n.requests| ensures Dated(n, n.requests[u]) {
      if u != r {
        SameKidsDated(s, n, s.requests[u]);
      }
    }
  }

  lemma NothingFails(s: State, t: nat)
    requires Inv(s)
    ensures !Enabled(s, Fail(t))
  {
    if t < |s.flows| {
      assert HasItsRow(s, s.flows[t]);
    }
  }

  lemma OwnStep(s: State, step: Step)
    requires OwnInv(s) && Enabled(s, step) && Own(s, step)
    ensures OwnInv(After(s, step))
  {
    match step
    case Report(_, _, _, _) => OwnReport(s, step);
    case Locate(_) => OwnLocateOrServe(s, step);
    case Serve(_) => OwnLocateOrServe(s, step);
    case Commit(t) => OwnCommit(s, t);
    case Fail(t) => NothingFails(s, t);
    case Apply(r, inodes) => OwnApply(s, r, inodes);
    case _ => OwnRequests(s, step);
  }

  lemma {:induction false} EveryOwnRunKeeps(start: State, steps: seq<Step>)
    requires Initial(start) && Mirrors(start.rows, start.path, start.server) && OwnRun(start, steps)
    ensures Run(start, steps).Some? && OwnInv(Run(start, steps).value)
  {
    if steps != [] {
      EveryOwnRunKeeps(start, steps[..|steps| - 1]);
      OwnStep(Run(start, steps[..|steps| - 1]).value, steps[|steps| - 1]);
    } else {
      EveryRunKeeps(start, steps);
      forall n | start.path + [n] in start.rows ensures start.rows[start.path + [n]].fileId.Some? {
        assert MirrorsName(start.rows, start.path, start.server, n);
      }
    }
  }

  // --- A run that shows it --------------------------------------------------------

  lemma OneMore(start: State, steps: seq<Step>, s: State, step: Step)
    requires Run(start, steps) == Some(s) && Enabled(s, step)
    ensures Run(start, steps + [step]) == Some(After(s, step))
  {
    assert (steps + [step])[..|steps|] == steps;
  }

  /** One directory with one file, as the mirror and the server agree on it. */
  function OneFile(): State {
    State(1, [],
          map["a" := Entry(false, "v", 7)],
          map[[] := Row(1, true, "", None, true), ["a"] := Row(2, false, "v", Some(7), false)],
          [{}], 0, [], [], 0)
  }

  /** The listing is checked while all is quiet; then the file is removed, on the
      server and in the rows; then the listing is applied. */
  ghost function CheckedTooEarly(): seq<Step> {
    [Ask(None), Answer(0), Check(0)] + RemovalOf("a", 2, 0)
  }

  ghost function RemovalOf(name: Name, child: ObjectId, t: nat): seq<Step> {
    [Report({}, {}, [(Remove(name), child)], false), Report({}, {t}, [], false), Locate(t), Serve(t), Commit(t)]
  }

  lemma RemovedFileComesBack(inodes: Inodes)
    ensures Initial(OneFile()) && Mirrors(OneFile().rows, [], OneFile().server)
    ensures Run(OneFile(), CheckedTooEarly()).Some?
    ensures var s := Run(OneFile(), CheckedTooEarly()).value;
            && Enabled(s, Apply(0, inodes))
            && ["a"] !in s.rows && "a" !in s.server
            && ["a"] in After(s, Apply(0, inodes)).rows
  {
    var s0 := OneFile();
    OneFileIsMirrored();
    var checked := ListingIsChecked();
    assert [] + ["a"] == ["a"];
    RemovalRuns(s0, [Ask(None), Answer(0), Check(0)], checked, "a", 2);
    var s := Run(s0, CheckedTooEarly()).value;
    MergePointwise(s.rows, [], s.requests[0].entries, Protected(s, None, 0), inodes, ["a"]);
    assert ["a"][..1] == ["a"];
  }

  lemma OneFileIsMirrored()
    ensures Initial(OneFile()) && Mirrors(OneFile().rows, [], OneFile().server)
  {
    var s0 := OneFile();
    forall n ensures MirrorsName(s0.rows, [], s0.server, n) {
      assert n != "a" ==> [] + [n] != ["a"] by { assert ([] + [n])[0] == n; }
      assert [] + ["a"] == ["a"];
    }
  }

  lemma ListingIsChecked() returns (checked: State)
    ensures Run(OneFile(), [Ask(None), Answer(0), Check(0)]) == Some(checked)
    ensures checked == OneFile().(requests := [Checked(None, 0, OneFile().server, {}, 0, 0)])
  {
    var s0 := OneFile();
    var s1 := After(s0, Ask(None));
    OneMore(s0, [], s0, Ask(None));
    assert [] + [Ask(None)] == [Ask(None)];
    var s2 := After(s1, Answer(0));
    OneMore(s0, [Ask(None)], s1, Answer(0));
    assert [Ask(None)] + [Answer(0)] == [Ask(None), Answer(0)];
    checked := After(s2, Check(0));
    OneMore(s0, [Ask(None), Answer(0)], s2, Check(0));
    assert [Ask(None), Answer(0)] + [Check(0)] == [Ask(None), Answer(0), Check(0)];
    assert Halfway(s1.flows) == {};
  }

  ghost predicate Unheld(s: State) {
    forall r: nat :: r < |s.requests| && Live(s.requests[r]) ==> s.requests[r].holder.None?
  }

  /** A report about a single flow is always possible. */
  lemma ReportOfOne(s: State, handed: set<nat>, begun: seq<(Op, ObjectId)>)
    requires Unheld(s) && |s.flows| + |begun| == 1
    requires handed == if begun == [] then {0} else {}
    requires begun == [] ==> Active(s.flows[0]) && s.flows[0].phase.Parked? && s.flows[0].child != s.dir
    requires begun != [] ==> begun[0].0.Remove?
    ensures Enabled(s, Report({}, handed, begun, false))
    ensures var n := After(s, Report({}, handed, begun, false));
            && |n.flows| == 1 && n == s.(history := n.history, flows := n.flows)
            && Active(n.flows[0])
            && (begun == [] ==>
                  n.flows[0].phase == Held && n.flows[0].op == s.flows[0].op && n.flows[0].child == s.flows[0].child)
            && (begun != [] ==>
                  n.flows[0].phase == Parked && n.flows[0].op == begun[0].0 && n.flows[0].child == begun[0].1)
  {
    hide Busy, Reported, Trusted;
    var n := AfterReport(s, {}, handed, begun, false);
    assert |n.flows| == 1;
    assert n.requests == s.requests;
    forall r: nat | r < |n.requests| && Live(n.requests[r]) ensures Backed(n, n.requests[r].holder) {
      assert s.requests[r].holder.None?;
    }
  }

  /** From a quiet state with no flow yet, a removal is begun and handed over. */
  lemma RemovalBegins(start: State, steps: seq<Step>, s: State, name: Name, child: ObjectId) returns (held: State)
    requires Run(start, steps) == Some(s) && s.flows == [] && Unheld(s) && child != s.dir
    ensures Run(start, steps + RemovalOf(name, child, 0)[..2]) == Some(held)
    ensures |held.flows| == 1 && held == s.(history := held.history, flows := held.flows)
    ensures held.flows[0].op == Remove(name) && held.flows[0].child == child && held.flows[0].phase == Held
              && Active(held.flows[0])
  {
    hide Busy, Reported, AllBacked, Exclusive, AfterReport, Unheld;
    var b := Report({}, {}, [(Remove(name), child)], false);
    var h := Report({}, {0}, [], false);
    assert steps + RemovalOf(name, child, 0)[..2] == steps + [b] + [h];
    ReportOfOne(s, {}, [(Remove(name), child)]);
    var s1 := After(s, b);
    OneMore(start, steps, s, b);
    UnheldStays(s, s1);
    ReportOfOne(s1, {0}, []);
    held := After(s1, h);
    OneMore(start, steps + [b], s1, h);
  }

  lemma UnheldStays(s: State, n: State)
    requires Unheld(s) && n.requests == s.requests
    ensures Unheld(n)
  {
  }

  /** And runs to its commit. */
  lemma RemovalRuns(start: State, steps: seq<Step>, s: State, name: Name, child: ObjectId)
    requires Run(start, steps) == Some(s) && s.flows == [] && Unheld(s) && s.path == []
    requires IsChild(s.rows, s.path, name, child) && name in s.server && child != s.dir
    ensures Run(start, steps + RemovalOf(name, child, 0)).Some?
    ensures var n := Run(start, steps + RemovalOf(name, child, 0)).value;
            && n.rows == Without(s.rows, [name]) && n.server == s.server - {name} && n.requests == s.requests
            && n.path == [] && n.floor == s.floor && n.dir == s.dir
  {
    var s2 := RemovalBegins(start, steps, s, name, child);
    hide Busy, AllBacked, Exclusive, Reported, Without;
    var begun := steps + RemovalOf(name, child, 0)[..2];
    assert steps + RemovalOf(name, child, 0) == begun + [Locate(0)] + [Serve(0)] + [Commit(0)];
    var s3 := After(s2, Locate(0));
    OneMore(start, begun, s2, Locate(0));
    var s4 := After(s3, Serve(0));
    OneMore(start, begun + [Locate(0)], s3, Serve(0));
    OneMore(start, begun + [Locate(0)] + [Serve(0)], s4, Commit(0));
    assert [] + [name] == [name];
  }
}

/** What holds in every interleaving of flows and listings. */
module ListingRuns {
  import opened Common
  import opened Activity
  import opened MirrorRows
  import opened Listings

  // --- Reports --------------------------------------------------------------------

  lemma HoldersOf(flows: seq<Flow>, dir: ObjectId, o: ObjectId)
    ensures o in Busy(flows, dir) <==> exists t: nat :: t < |flows| && o in Holds(flows[t], dir)
  {
  }

  lemma BusyKnowsNoIndices(s: State, ended: set<nat>, handed: set<nat>, begun: seq<(Op, ObjectId)>, drop: bool)
    ensures Busy(AfterReport(s, ended, handed, begun, drop).flows, s.dir) == NowBusy(s, ended, handed, begun)
  {
    var n := AfterReport(s, ended, handed, begun, drop);
    var m := Turned(s.flows, ended, handed, begun, |s.history|, 0);
    forall t: nat | t < |m| ensures Holds(m[t], s.dir) == Holds(n.flows[t], s.dir) {
      assert n.flows[t] == m[t].(first := n.flows[t].first, held := n.flows[t].held);
    }
    forall o ensures o in Busy(n.flows, s.dir) <==> o in Busy(m, s.dir) {
      HoldersOf(n.flows, s.dir, o);
      HoldersOf(m, s.dir, o);
    }
  }

  /** The history after a report: what was in force stays, and the last set is
      the new one. */
  lemma ReportExtends(s: State, ended: set<nat>, handed: set<nat>, begun: seq<(Op, ObjectId)>, drop: bool)
    ensures var n := AfterReport(s, ended, handed, begun, drop);
            && s.history <= n.history
            && n.history[|n.history| - 1] == Busy(n.flows, s.dir)
            && |n.history| <= |s.history| + 1
  {
    BusyKnowsNoIndices(s, ended, handed, begun, drop);
  }

  lemma ReportCovers(s: State, ended: set<nat>, handed: set<nat>, begun: seq<(Op, ObjectId)>, drop: bool, t: nat)
    requires Inv(s) && Enabled(s, Report(ended, handed, begun, drop))
    requires t < |s.flows| + |begun|
    ensures var n := AfterReport(s, ended, handed, begun, drop); Covered(n, n.flows[t])
  {
    hide HasItsRow, Sound, AllBacked, Exclusive, Reported;
    var n := AfterReport(s, ended, handed, begun, drop);
    ReportExtends(s, ended, handed, begun, drop);
    var f := n.flows[t];
    if Active(f) {
      assert Holds(f, s.dir) <= Busy(n.flows, s.dir);
    }
    if t < |s.flows| {
      assert Covered(s, s.flows[t]);
    }
  }

  lemma ReportKeepsRows(s: State, ended: set<nat>, handed: set<nat>, begun: seq<(Op, ObjectId)>, drop: bool, t: nat)
    requires Inv(s) && Enabled(s, Report(ended, handed, begun, drop))
    requires t < |s.flows| + |begun|
    ensures var n := AfterReport(s, ended, handed, begun, drop); HasItsRow(n, n.flows[t])
  {
    hide Covered, Sound, AllBacked, Exclusive, Reported;
    if t < |s.flows| {
      assert HasItsRow(s, s.flows[t]);
    }
  }

  lemma ReportKeeps(s: State, ended: set<nat>, handed: set<nat>, begun: seq<(Op, ObjectId)>, drop: bool)
    requires Inv(s) && Enabled(s, Report(ended, handed, begun, drop))
    ensures Inv(AfterReport(s, ended, handed, begun, drop))
  {
    var n := AfterReport(s, ended, handed, begun, drop);
    ReportExtends(s, ended, handed, begun, drop);
    forall t: nat | t < |n.flows| ensures Covered(n, n.flows[t]) && HasItsRow(n, n.flows[t]) {
      ReportCovers(s, ended, handed, begun, drop, t);
      ReportKeepsRows(s, ended, handed, begun, drop, t);
    }
    forall r: nat | r < |n.requests| ensures Sound(n, n.requests[r]) {
      assert Sound(s, s.requests[r]);
    }
  }

  // --- Steps of flows -------------------------------------------------------------

  /** Only one rename or removal is under way in the directory at a time. */
  lemma OneAtATime(s: State, t: nat, u: nat)
    requires Inv(s)
    requires t < |s.flows| && Active(s.flows[t]) && OnDir(s.flows[t])
    requires u < |s.flows| && Active(s.flows[u]) && OnDir(s.flows[u])
    ensures t == u
  {
    assert s.dir in Holds(s.flows[t], s.dir) && s.dir in Holds(s.flows[u], s.dir);
  }

  /** A step that leaves everyone's holds and the history alone. */
  ghost predicate SameHolds(s: State, n: State) {
    && n.dir == s.dir && n.path == s.path && n.history == s.history && n.floor == s.floor && n.requests == s.requests
    && |n.flows| == |s.flows|
    && forall t: nat :: t < |s.flows| ==>
         && Holds(n.flows[t], s.dir) == Holds(s.flows[t], s.dir)
         && n.flows[t].last == s.flows[t].last && n.flows[t].op == s.flows[t].op && n.flows[t].child == s.flows[t].child
         && n.flows[t].first == s.flows[t].first && n.flows[t].held == s.flows[t].held
         && n.flows[t].phase.Parked? == s.flows[t].phase.Parked?
  }

  lemma SameHoldsKeeps(s: State, n: State)
    requires Inv(s) && SameHolds(s, n) && n.path in n.rows
    requires forall t: nat :: t < |n.flows| ==> HasItsRow(n, n.flows[t])
    ensures Inv(n)
  {
    forall o ensures o in Busy(n.flows, s.dir) <==> o in Busy(s.flows, s.dir) {
      HoldersOf(n.flows, s.dir, o);
      HoldersOf(s.flows, s.dir, o);
    }
    assert Busy(n.flows, s.dir) == Busy(s.flows, s.dir);
    forall t: nat, u: nat, o | t < |n.flows| && u < |n.flows| && o in Holds(n.flows[t], n.dir)
           && o in Holds(n.flows[u], n.dir)
      ensures t == u
    {
      assert o in Holds(s.flows[t], s.dir) && o in Holds(s.flows[u], s.dir);
    }
    forall t: nat | t < |n.flows| ensures Covered(n, n.flows[t]) {
      assert Covered(s, s.flows[t]);
    }
    forall r: nat | r < |n.requests| ensures Sound(n, n.requests[r]) {
      assert Sound(s, s.requests[r]);
    }
    forall r: nat | r < |n.requests| && Live(n.requests[r]) ensures Backed(n, n.requests[r].holder) {
      assert Backed(s, s.requests[r].holder);
    }
  }

  lemma FlowStepKeeps(s: State, step: Step)
    requires Inv(s) && Enabled(s, step)
    requires step.Locate? || step.Serve? || step.Commit? || step.Fail?
    ensures Inv(After(s, step))
  {
    var n, f := After(s, step), s.flows[step.t];
    assert HasItsRow(s, f);
    forall u: nat | u < |n.flows| ensures HasItsRow(n, n.flows[u]) {
      assert HasItsRow(s, s.flows[u]);
      if u != step.t && Active(s.flows[u]) && OnDir(s.flows[u]) {
        OneAtATime(s, step.t, u);
      }
    }
    SameHoldsKeeps(s, n);
  }

  lemma RecordKeeps(s: State, t: nat, name: Name, etag: Etag)
    requires Inv(s) && Enabled(s, Record(t, name, etag))
    ensures Inv(After(s, Record(t, name, etag)))
  {
    var n := After(s, Record(t, name, etag));
    forall u: nat | u < |n.flows| ensures HasItsRow(n, n.flows[u]) {
      assert HasItsRow(s, s.flows[u]);
    }
    SameHoldsKeeps(s, n);
  }

  // --- Steps of listings ----------------------------------------------------------

  /** A step that only moves one request on. */
  lemma RequestKeeps(s: State, n: State, r: nat)
    requires Inv(s) && r < |s.requests|
    requires n == s.(requests := n.requests) && |n.requests| == |s.requests|
               && n.requests == s.requests[r := n.requests[r]]
    requires Sound(n, n.requests[r])
    requires Live(n.requests[r]) ==> Live(s.requests[r]) && n.requests[r].holder == s.requests[r].holder
    ensures Inv(n)
  {
    forall q: nat | q < |n.requests|
      ensures Sound(n, n.requests[q]) && (Live(n.requests[q]) ==> Backed(n, n.requests[q].holder))
    {
      assert Sound(s, s.requests[q]);
      assert Live(s.requests[q]) ==> Backed(s, s.requests[q].holder);
    }
    forall t: nat | t < |n.flows| ensures Covered(n, n.flows[t]) && HasItsRow(n, n.flows[t]) {
      assert Covered(s, s.flows[t]) && HasItsRow(s, s.flows[t]);
    }
  }

  lemma AskKeeps(s: State, holder: Option<ObjectId>)
    requires Inv(s) && Enabled(s, Ask(holder))
    ensures Inv(After(s, Ask(holder)))
  {
    var n := After(s, Ask(holder));
    forall q: nat | q < |n.requests|
      ensures Sound(n, n.requests[q]) && (Live(n.requests[q]) ==> Backed(n, n.requests[q].holder))
    {
      if q < |s.requests| {
        assert Sound(s, s.requests[q]);
        assert Live(s.requests[q]) ==> Backed(s, s.requests[q].holder);
      }
    }
    forall t: nat | t < |n.flows| ensures Covered(n, n.flows[t]) && HasItsRow(n, n.flows[t]) {
      assert Covered(s, s.flows[t]) && HasItsRow(s, s.flows[t]);
    }
  }

  lemma ActiveHoldsTheDirectory(flows: seq<Flow>, dir: ObjectId, t: nat)
    requires t < |flows| && OnDir(flows[t]) && Active(flows[t])
    ensures dir in Busy(flows, dir)
  {
    assert dir in Holds(flows[t], dir);
  }

  /** An `ls` of the directory keeps renames and removals out. */
  lemma LsKeepsFlowsOut(s: State, t: nat, r: nat)
    requires Inv(s) && r < |s.requests| && Live(s.requests[r]) && s.requests[r].holder == Some(s.dir)
    requires t < |s.flows| && OnDir(s.flows[t])
    ensures !Active(s.flows[t])
  {
    assert Backed(s, s.requests[r].holder);
    if Active(s.flows[t]) {
      ActiveHoldsTheDirectory(s.flows, s.dir, t);
    }
  }

  lemma AnswerKeeps(s: State, r: nat)
    requires Inv(s) && Enabled(s, Answer(r))
    ensures Inv(After(s, Answer(r)))
  {
    var n, q := After(s, Answer(r)), s.requests[r];
    assert Sound(s, q);
    forall t | t in Halfway(s.flows) ensures q.since < End(s.flows[t], s.history) && q.holder != Some(s.dir) {
      if q.holder == Some(s.dir) {
        LsKeepsFlowsOut(s, t, r);
      }
    }
    RequestKeeps(s, n, r);
  }

  lemma BusyIsNotQuiet(h: History, o: ObjectId, first: nat, end: nat, since: nat)
    requires first < end <= |h| && since < end
    requires forall i :: first <= i < end ==> o in h[i]
    ensures !QuietThroughout(h, o, since)
  {
    assert o in h[Max(first, since)];
  }

  /** A directory quiet since a listing was asked for has only flows that had
      ended by then. */
  lemma QuietMeansEnded(s: State, since: nat, t: nat)
    requires Inv(s) && since < |s.history| && QuietThroughout(s.history, s.dir, since)
    requires t < |s.flows| && OnDir(s.flows[t])
    ensures s.flows[t].last.Some? && s.flows[t].last.value <= since
  {
    var f := s.flows[t];
    assert Covered(s, f);
    if since < End(f, s.history) {
      BusyIsNotQuiet(s.history, s.dir, f.first, End(f, s.history), since);
    }
  }

  lemma NoneWasHalfway(s: State, q: Request)
    requires Inv(s) && q.Answered? && Sound(s, q) && Trusted(s, q.holder, q.since, s.dir)
    ensures q.halfway == {}
  {
    if q.halfway != {} && q.holder != Some(s.dir) {
      var t :| t in q.halfway;
      QuietMeansEnded(s, q.since, t);
    }
  }

  lemma CheckKeeps(s: State, r: nat)
    requires Inv(s) && Enabled(s, Check(r))
    ensures Inv(After(s, Check(r)))
  {
    var n, q := After(s, Check(r)), s.requests[r];
    assert Sound(s, q);
    if n.requests[r].Checked? {
      forall t: nat | t < |s.flows| && OnDir(s.flows[t])
        ensures s.flows[t].last.Some? && (q.holder != Some(s.dir) ==> s.flows[t].last.value <= q.since)
      {
        if q.holder == Some(s.dir) {
          LsKeepsFlowsOut(s, t, r);
        } else {
          QuietMeansEnded(s, q.since, t);
        }
      }
      NoneWasHalfway(s, q);
    }
    RequestKeeps(s, n, r);
  }

  lemma HeldByOneOnly(s: State, t: nat, u: nat, o: ObjectId)
    requires Inv(s) && t < |s.flows| && u < |s.flows| && t != u
    requires o in Holds(s.flows[u], s.dir)
    ensures o !in Holds(s.flows[t], s.dir)
  {
  }

  /** What a running flow holds, no listing but its own may touch. */
  lemma HeldIsProtected(s: State, r: nat, t: nat, path: Path)
    requires Inv(s) && r < |s.requests| && s.requests[r].Checked?
    requires t < |s.flows| && Active(s.flows[t]) && OnDir(s.flows[t]) && !s.flows[t].phase.Parked?
    requires path in s.rows && s.rows[path].inode == s.flows[t].child
    ensures s.rows[path].inode in Protected(s, s.requests[r].holder, s.requests[r].since)
  {
    var q, f := s.requests[r], s.flows[t];
    assert Covered(s, f) && Sound(s, q);
    assert f.child in s.history[|s.history| - 1];
    if q.holder == Some(f.child) {
      assert Backed(s, q.holder);
      var u: nat :| u < |s.flows| && s.flows[u].op.Upload? && Active(s.flows[u]) && s.flows[u].child == f.child;
      HeldByOneOnly(s, t, u, f.child);
    }
  }

  /** A protected row is left exactly as it was. */
  lemma ProtectedStays(rows: Rows, p: Path, listing: Listing, busy: set<nat>, inodes: Inodes, n: Name)
    requires p + [n] in rows && rows[p + [n]].inode in busy
    ensures p + [n] in Merge(rows, p, listing, busy, inodes)
    ensures Merge(rows, p, listing, busy, inodes)[p + [n]] == rows[p + [n]]
  {
    MergePointwise(rows, p, listing, busy, inodes, p + [n]);
    assert (p + [n])[..|p| + 1] == p + [n];
  }

  lemma MergeKeepsTheDirectory(rows: Rows, p: Path, listing: Listing, busy: set<nat>, inodes: Inodes)
    requires p in rows
    ensures p in Merge(rows, p, listing, busy, inodes)
  {
    MergePointwise(rows, p, listing, busy, inodes, p);
  }

  lemma ApplyKeeps(s: State, r: nat, inodes: Inodes)
    requires Inv(s) && Enabled(s, Apply(r, inodes))
    ensures Inv(After(s, Apply(r, inodes)))
  {
    var n, q := After(s, Apply(r, inodes)), s.requests[r];
    MergeKeepsTheDirectory(s.rows, s.path, q.entries, Protected(s, q.holder, q.since), inodes);
    var m := s.(rows := n.rows);
    forall u: nat | u < |m.flows| ensures HasItsRow(m, m.flows[u]) {
      var f := s.flows[u];
      assert HasItsRow(s, f);
      if OnDir(f) && Active(f) && f.phase in {Located, OnServer} {
        HeldIsProtected(s, r, u, s.path + [Target(f.op)]);
        ProtectedStays(s.rows, s.path, q.entries, Protected(s, q.holder, q.since), inodes, Target(f.op));
      }
    }
    SameHoldsKeeps(s, m);
    RequestKeeps(m, n, r);
  }

  // --- Every run ------------------------------------------------------------------

  lemma StepKeeps(s: State, step: Step)
    requires Inv(s) && Enabled(s, step)
    ensures Inv(After(s, step))
  {
    match step
    case Foreign(server) =>
      var n := After(s, step);
      forall t: nat | t < |n.flows| ensures HasItsRow(n, n.flows[t]) {
        assert HasItsRow(s, s.flows[t]);
      }
      SameHoldsKeeps(s, n);
    case Report(ended, handed, begun, drop) => ReportKeeps(s, ended, handed, begun, drop);
    case Record(t, name, etag) => RecordKeeps(s, t, name, etag);
    case Ask(holder) => AskKeeps(s, holder);
    case Answer(r) => AnswerKeeps(s, r);
    case Check(r) => CheckKeeps(s, r);
    case Apply(r, inodes) => ApplyKeeps(s, r, inodes);
    case _ => FlowStepKeeps(s, step);
  }

  lemma {:induction false} EveryRunKeeps(start: State, steps: seq<Step>)
    requires Initial(start) && Run(start, steps).Some?
    ensures Inv(Run(start, steps).value)
  {
    if steps != [] {
      EveryRunKeeps(start, steps[..|steps| - 1]);
      StepKeeps(Run(start, steps[..|steps| - 1]).value, steps[|steps| - 1]);
    } else {
      HoldersOf(start.flows, start.dir, 0);
      assert Busy(start.flows, start.dir) == {};
    }
  }
}

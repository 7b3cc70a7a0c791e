/** Renames and removals that were given up between their server step and their
    commit: the rows lag behind the server, and the next listing catches up. */
module ListingRepair {
  import opened Common
  import opened Activity
  import opened MirrorRows
  import opened Listings
  import opened ListingRuns
  import opened ListingTheorems

  // --- With no other client, whatever is given up ---------------------------------

  /** Nobody but the directory's own renames, removals and listings. */
  predicate Alone(step: Step) {
    match step
    case Foreign(_) => false
    case Report(_, _, begun, _) => forall i :: 0 <= i < |begun| ==> !begun[i].0.Upload?
    case _ => true
  }

  predicate AllAlone(steps: seq<Step>) {
    forall i :: 0 <= i < |steps| ==> Alone(steps[i])
  }

  /** The flow has not reached the server. */
  predicate AtHome(f: Flow) {
    f.phase in {Parked, Held, Located, Broken}
  }

  /** No flow begun since the check has reached the server. */
  ghost predicate NoneServedSince(s: State, q: Request)
    requires q.Checked?
  {
    forall t: nat :: q.tickets <= t < |s.flows| ==> AtHome(s.flows[t])
  }

  /** As long as nothing of ours reached the server since, the listing is what the
      server has. */
  ghost predicate UpToDate(s: State, q: Request) {
    && (q.Answered? && AllEnded(s, q) ==> q.entries == s.server)
    && (q.Checked? && NoneServedSince(s, q) ==> q.entries == s.server)
  }

  ghost predicate AloneInv(s: State) {
    && Inv(s)
    && (forall t: nat :: t < |s.flows| ==> !s.flows[t].op.Upload?)
    && (forall r: nat :: r < |s.requests| ==> UpToDate(s, s.requests[r]))
  }

  lemma OtherStepsAreLate(s: State, step: Step, r: nat)
    requires AloneInv(s) && Enabled(s, step) && r < |s.requests|
    requires step.Locate? || step.Serve? || step.Commit? || step.Fail?
    ensures UpToDate(After(s, step), s.requests[r])
  {
    var n, q := After(s, step), s.requests[r];
    assert Sound(s, q) && UpToDate(s, q);
    if Live(q) {
      NotAllEnded(n, q, step.t);
    }
    if q.Checked? && NoneServedSince(n, q) {
      assert step.t >= q.tickets;
      forall t: nat | q.tickets <= t < |s.flows| ensures AtHome(s.flows[t]) {
        assert AtHome(n.flows[t]);
      }
    }
  }

  lemma ReportsAreHarmless(s: State, step: Step, r: nat)
    requires AloneInv(s) && step.Report? && Enabled(s, step) && r < |s.requests|
    ensures UpToDate(After(s, step), s.requests[r])
  {
    var n, q := After(s, step), s.requests[r];
    assert Sound(s, q) && UpToDate(s, q);
    if Live(q) && AllEnded(n, q) {
      EndedBefore(s, step, r);
    }
    if q.Checked? && NoneServedSince(n, q) {
      forall t: nat | q.tickets <= t < |s.flows| ensures AtHome(s.flows[t]) {
        assert AtHome(n.flows[t]);
      }
    }
  }

  lemma CheckedIsUpToDate(s: State, r: nat)
    requires AloneInv(s) && Enabled(s, Check(r)) && Trusted(s, s.requests[r].holder, s.requests[r].since, s.dir)
    ensures s.requests[r].entries == s.server
  {
    var q := s.requests[r];
    assert Sound(s, q) && UpToDate(s, q);
    EndedByTheCheck(s, r);
  }

  lemma UpToDateAfter(s: State, step: Step, r: nat)
    requires AloneInv(s) && Enabled(s, step) && Alone(step) && r < |After(s, step).requests|
    ensures UpToDate(After(s, step), After(s, step).requests[r])
  {
    var n := After(s, step);
    if r < |s.requests| {
      assert UpToDate(s, s.requests[r]);
    }
    match step
    case Report(_, _, _, _) => ReportsAreHarmless(s, step, r);
    case Check(u) =>
      if r == u && n.requests[r].Checked? {
        CheckedIsUpToDate(s, r);
      }
    case Record(_, _, _) =>
    case Ask(_) =>
    case Answer(_) =>
    case Apply(_, _) =>
    case _ => OtherStepsAreLate(s, step, r);
  }

  lemma AloneStep(s: State, step: Step)
    requires AloneInv(s) && Enabled(s, step) && Alone(step)
    ensures AloneInv(After(s, step))
  {
    var n := After(s, step);
    StepKeeps(s, step);
    hide Inv, UpToDate;
    forall r: nat | r < |n.requests| ensures UpToDate(n, n.requests[r]) {
      UpToDateAfter(s, step, r);
    }
  }

  lemma {:induction false} EveryAloneRunKeeps(start: State, steps: seq<Step>)
    requires Initial(start) && AllAlone(steps) && Run(start, steps).Some?
    ensures AloneInv(Run(start, steps).value)
  {
    if steps != [] {
      EveryAloneRunKeeps(start, steps[..|steps| - 1]);
      AloneStep(Run(start, steps[..|steps| - 1]).value, steps[|steps| - 1]);
    } else {
      EveryRunKeeps(start, steps);
    }
  }

  /** The rows say of the name what the listing says. */
  ghost predicate ShowsName(rows: Rows, p: Path, listing: Listing, n: Name) {
    if n in listing then p + [n] in rows && RowIs(rows[p + [n]], listing[n])
    else p + [n] in rows ==> rows[p + [n]].fileId.None?
  }

  /** With no other client, and whatever the rows were and whichever flows were
      given up: an accepted listing makes every name that is not busy what the
      server has, unless a flow begun since the check has reached the server. */
  lemma AcceptedListingCatchesUp(start: State, steps: seq<Step>, s: State, r: nat, inodes: Inodes, n: Name)
    requires Initial(start) && AllAlone(steps) && Run(start, steps) == Some(s)
    requires Enabled(s, Apply(r, inodes)) && NoneServedSince(s, s.requests[r])
    requires !IsBusy(Lookup(s.rows, s.path + [n]), Protected(s, s.requests[r].holder, s.requests[r].since))
    ensures ShowsName(After(s, Apply(r, inodes)).rows, s.path, s.server, n)
  {
    EveryAloneRunKeeps(start, steps);
    assert UpToDate(s, s.requests[r]);
    AppliedName(s, r, inodes, n);
    hide Merge, Protected;
  }

  // --- A run that shows it --------------------------------------------------------

  /** The removal reaches the server and is given up; then a listing is asked for
      and accepted. */
  ghost function GivenUpRemoval(): seq<Step> {
    RemovalOf("a", 2, 0)[..4] + [Report({0}, {}, [], false)] + [Ask(None)] + [Answer(0)] + [Check(0)]
  }

  /** Only the row of the flow is left, and the server has moved on. */
  ghost predicate LeftBehind(s: State) {
    && |s.flows| == 1 && GivenUp(s.flows[0])
    && s.rows == OneFile().rows && s.server == map[] && s.path == [] && s.dir == 1
    && s.floor == 0 && s.commits == 0 && s.requests == []
  }

  /** A removal that has its directory and its child reaches the server. */
  lemma HeldReachesTheServer(held: State) returns (located: State, served: State)
    requires |held.flows| == 1 && Active(held.flows[0]) && held.flows[0].op == Remove("a") && held.flows[0].child == 2
    requires held == OneFile().(history := held.history, flows := held.flows) && held.flows[0].phase == Held
    ensures Enabled(held, Locate(0)) && located == After(held, Locate(0))
    ensures Enabled(located, Serve(0)) && served == After(located, Serve(0))
    ensures |served.flows| == 1 && Active(served.flows[0]) && served.flows[0].op == Remove("a")
              && served.flows[0].phase == OnServer
    ensures served == OneFile().(history := held.history, flows := served.flows, server := map[])
  {
    assert [] + ["a"] == ["a"];
    located := After(held, Locate(0));
    served := After(located, Serve(0));
  }

  lemma RemovalIsServed() returns (s: State)
    ensures Run(OneFile(), RemovalOf("a", 2, 0)[..4]) == Some(s)
    ensures |s.flows| == 1 && Active(s.flows[0]) && s.flows[0].op == Remove("a") && s.flows[0].phase == OnServer
    ensures s == OneFile().(history := s.history, flows := s.flows, server := map[])
  {
    var steps := RemovalOf("a", 2, 0);
    var s0 := OneFile();
    var held := RemovalBegins(s0, [], s0, "a", 2);
    assert [] + steps[..2] == steps[..2];
    assert steps[2] == Locate(0) && steps[3] == Serve(0) && |steps| == 5;
    var located;
    located, s := HeldReachesTheServer(held);
    hide Run, RemovalOf, Enabled, After;
    assert steps[..3] == steps[..2] + [Locate(0)] && steps[..4] == steps[..3] + [Serve(0)];
    OneMore(s0, steps[..2], held, Locate(0));
    OneMore(s0, steps[..3], located, Serve(0));
  }

  lemma NobodyIsBusy(s: State)
    requires Inv(s) && LeftBehind(s)
    ensures s.history[|s.history| - 1] == {} && Halfway(s.flows) == {}
  {
    forall o ensures o !in Busy(s.flows, s.dir) {
      HoldersOf(s.flows, s.dir, o);
    }
  }

  lemma RemovalIsGivenUp() returns (s: State)
    ensures Run(OneFile(), RemovalOf("a", 2, 0)[..4] + [Report({0}, {}, [], false)]) == Some(s)
    ensures LeftBehind(s) && s.history[|s.history| - 1] == {} && Halfway(s.flows) == {}
  {
    var served := RemovalIsServed();
    var e := Report({0}, {}, [], false);
    hide Busy, Reported;
    assert |AfterReport(served, {0}, {}, [], false).flows| == 1;
    s := After(served, e);
    OneMore(OneFile(), RemovalOf("a", 2, 0)[..4], served, e);
    EveryRunKeeps(OneFile(), RemovalOf("a", 2, 0)[..4] + [e]);
    NobodyIsBusy(s);
  }

  /** The three steps of that listing. */
  lemma ListingPasses(left: State) returns (asked: State, answered: State, s: State)
    requires LeftBehind(left) && left.history[|left.history| - 1] == {} && Halfway(left.flows) == {}
    ensures Enabled(left, Ask(None)) && asked == After(left, Ask(None))
    ensures Enabled(asked, Answer(0)) && answered == After(asked, Answer(0))
    ensures Enabled(answered, Check(0)) && s == After(answered, Check(0))
    ensures s == left.(requests := [Checked(None, |left.history| - 1, map[], {}, 1, 0)])
    ensures Protected(s, None, |left.history| - 1) == {}
  {
    hide Halfway, Busy;
    asked := After(left, Ask(None));
    answered := After(asked, Answer(0));
    assert Trusted(answered, None, |left.history| - 1, 1);
    s := After(answered, Check(0));
  }

  lemma ListingIsAccepted(inodes: Inodes) returns (s: State)
    ensures Run(OneFile(), GivenUpRemoval()) == Some(s)
    ensures s.rows == OneFile().rows && s.server == map[] && s.path == []
    ensures Enabled(s, Apply(0, inodes)) && s.requests[0].entries == map[]
    ensures Protected(s, s.requests[0].holder, s.requests[0].since) == {}
  {
    var left := RemovalIsGivenUp();
    var steps := RemovalOf("a", 2, 0)[..4] + [Report({0}, {}, [], false)];
    var asked, answered;
    asked, answered, s := ListingPasses(left);
    assert Enabled(s, Apply(0, inodes));
    hide Run, Enabled, After, RemovalOf, Trusted, Protected;
    OneMore(OneFile(), steps, left, Ask(None));
    OneMore(OneFile(), steps + [Ask(None)], asked, Answer(0));
    OneMore(OneFile(), steps + [Ask(None)] + [Answer(0)], answered, Check(0));
  }

  /** Every listed name, there being none, has a row; and yet the listing changes
      the rows: it takes away the row the given-up removal left behind. */
  lemma GivenUpRemovalIsCaughtUp(inodes: Inodes)
    ensures Initial(OneFile()) && Mirrors(OneFile().rows, [], OneFile().server)
    ensures AllAlone(GivenUpRemoval()) && Run(OneFile(), GivenUpRemoval()).Some?
    ensures var s := Run(OneFile(), GivenUpRemoval()).value;
            && Enabled(s, Apply(0, inodes)) && NothingMissing(s, 0)
            && ["a"] in s.rows && "a" !in s.server
            && ["a"] !in After(s, Apply(0, inodes)).rows
  {
    OneFileIsMirrored();
    var s := ListingIsAccepted(inodes);
    AppliedName(s, 0, inodes, "a");
    assert s.path + ["a"] == ["a"];
    assert Lookup(After(s, Apply(0, inodes)).rows, ["a"]) == None;
  }
}

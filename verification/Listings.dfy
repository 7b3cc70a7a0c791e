/** Listings beside the machine: one directory, the flows that rename, remove
    and upload in it, and the listings of it that the walk, the refreshes and the
    flows themselves take meanwhile. Everything interleaves step by step. */
module Listings {
  import opened Common
  import opened Activity
  import opened MirrorRows

  /** What a flow does in the directory. A rename and a removal hold the
      directory first and the child from their hand-over on; an upload holds
      only the child. */
  datatype Op = Move(from: Name, to: Name) | Remove(name: Name) | Upload

  datatype Phase = Parked | Held | Located | OnServer | Committed | Broken

  /** A flow with the stretch of the busy history it spans: from `first` it
      holds the directory, from `held` the child, up to `last` once it ended. */
  datatype Flow = Flow(op: Op, child: ObjectId, phase: Phase, first: nat, held: nat, last: Option<nat>)

  /** A listing on its way. `halfway` are the renames and removals under way whose
      server step was done and whose commit was not when the server answered,
      `commits` is the number of row commits so far when the check passed. */
  datatype Request =
    | Asked(holder: Option<ObjectId>, since: nat)
    | Answered(holder: Option<ObjectId>, since: nat, entries: Listing, halfway: set<nat>)
    | Checked(holder: Option<ObjectId>, since: nat, entries: Listing, halfway: set<nat>, tickets: nat, commits: nat)
    | Settled

  datatype State = State(
    dir: ObjectId,
    path: Path,
    server: Listing,
    rows: Rows,
    history: History,
    floor: nat,
    flows: seq<Flow>,
    requests: seq<Request>,
    commits: nat)

  datatype Step =
    | Foreign(server: Listing)
    | Report(ended: set<nat>, handed: set<nat>, begun: seq<(Op, ObjectId)>, drop: bool)
    | Locate(t: nat)
    | Serve(t: nat)
    | Commit(t: nat)
    | Fail(t: nat)
    | Record(t: nat, name: Name, etag: Etag)
    | Ask(holder: Option<ObjectId>)
    | Answer(r: nat)
    | Check(r: nat)
    | Apply(r: nat, inodes: Inodes)

  // --- Flows ----------------------------------------------------------------------

  predicate Active(f: Flow) {
    f.last.None?
  }

  predicate OnDir(f: Flow) {
    !f.op.Upload?
  }

  function Target(op: Op): Name
    requires !op.Upload?
  {
    if op.Move? then op.from else op.name
  }

  /** The objects the machine counts as changing because of this flow. */
  function Holds(f: Flow, dir: ObjectId): set<ObjectId> {
    if !Active(f) then {}
    else if !OnDir(f) then {f.child}
    else if f.phase.Parked? then {dir}
    else {dir, f.child}
  }

  ghost function Busy(flows: seq<Flow>, dir: ObjectId): set<ObjectId> {
    set t: nat, o | t < |flows| && o in Holds(flows[t], dir) :: o
  }

  /** One flow per object. */
  ghost predicate Exclusive(flows: seq<Flow>, dir: ObjectId) {
    forall t: nat, u: nat, o ::
      t < |flows| && u < |flows| && o in Holds(flows[t], dir) && o in Holds(flows[u], dir) ==> t == u
  }

  function Moved(f: Flow, t: nat, ended: set<nat>, handed: set<nat>, length: nat, at: nat): Flow {
    if t in ended then f.(last := Some(length))
    else if t in handed then f.(phase := Held, held := at)
    else f
  }

  function Begun(start: (Op, ObjectId), at: nat): Flow {
    Flow(start.0, start.1, if start.0.Upload? then Held else Parked, at, at, None)
  }

  function Turned(flows: seq<Flow>, ended: set<nat>, handed: set<nat>, begun: seq<(Op, ObjectId)>, length: nat,
                  at: nat): seq<Flow> {
    seq(|flows|, t requires 0 <= t < |flows| => Moved(flows[t], t, ended, handed, length, at))
    + seq(|begun|, i requires 0 <= i < |begun| => Begun(begun[i], at))
  }

  /** The flows and the history after one event of the decider and its report. */
  ghost function NowBusy(s: State, ended: set<nat>, handed: set<nat>, begun: seq<(Op, ObjectId)>): set<ObjectId> {
    Busy(Turned(s.flows, ended, handed, begun, |s.history|, 0), s.dir)
  }

  ghost function AfterReport(s: State, ended: set<nat>, handed: set<nat>, begun: seq<(Op, ObjectId)>,
                             drop: bool): State {
    var history := Reported(s.history, NowBusy(s, ended, handed, begun));
    s.(history := history,
       floor := if drop then |history| - 1 else s.floor,
       flows := Turned(s.flows, ended, handed, begun, |s.history|, |history| - 1))
  }

  /** What the server step of a rename or a removal does to the listing. */
  function Effect(op: Op, listing: Listing): Listing
    requires !op.Upload? && Target(op) in listing
  {
    match op
    case Move(from, to) => (listing - {from})[to := listing[from]]
    case Remove(name) => listing - {name}
  }

  /** A file the server has never seen takes over the identity of the one it
      replaces: to the server it is that file with new contents. */
  function Heir(mover: Row, occupant: Option<Row>): Row {
    if mover.fileId.None? && occupant.Some? && occupant.value.inode != mover.inode
    then mover.(fileId := occupant.value.fileId, etag := occupant.value.etag) else mover
  }

  /** The row at `q` after `from` and everything below it moved to `to`, in the
      place of whatever was there. */
  function RelocatedRow(rows: Rows, from: Path, to: Path, q: Path): Option<Row> {
    if q == to then if from in rows then Some(Heir(rows[from], Lookup(rows, to))) else None
    else if to <= q then Lookup(rows, from + q[|to|..])
    else if from <= q then None
    else Lookup(rows, q)
  }

  function Relocated(rows: Rows, from: Path, to: Path): Rows {
    map q | q in rows.Keys + (set r | r in rows && from <= r :: to + r[|from|..])
        && RelocatedRow(rows, from, to, q).Some?
      :: RelocatedRow(rows, from, to, q).value
  }

  function Without(rows: Rows, gone: Path): Rows {
    map q | q in rows && !(gone <= q) :: rows[q]
  }

  function Committing(rows: Rows, p: Path, op: Op): Rows
    requires !op.Upload?
  {
    match op
    case Move(from, to) => Relocated(rows, p + [from], p + [to])
    case Remove(name) => Without(rows, p + [name])
  }

  predicate IsChild(rows: Rows, p: Path, n: Name, child: ObjectId) {
    p + [n] in rows && rows[p + [n]].inode == child
  }

  // --- Listings -------------------------------------------------------------------

  ghost predicate Trusted(s: State, holder: Option<ObjectId>, since: nat, o: ObjectId) {
    holder == Some(o) || (s.floor <= since && QuietThroughout(s.history, o, since))
  }

  ghost function Protected(s: State, holder: Option<ObjectId>, since: nat): set<nat> {
    set q | q in s.rows && !Trusted(s, holder, since, s.rows[q].inode) :: s.rows[q].inode
  }

  ghost function Halfway(flows: seq<Flow>): set<nat> {
    set t: nat | t < |flows| && OnDir(flows[t]) && Active(flows[t]) && flows[t].phase.OnServer?
  }

  predicate Live(r: Request) {
    !r.Settled?
  }

  /** A listing that a flow asked for is a step of that flow: the directory's
      own `ls`, which keeps renames and removals out, or the relist that ends an
      upload. */
  ghost predicate Backed(s: State, holder: Option<ObjectId>) {
    holder.Some? ==>
      if holder.value == s.dir then s.dir !in Busy(s.flows, s.dir)
      else
        exists t: nat ::
          t < |s.flows| && s.flows[t].op.Upload? && Active(s.flows[t]) && s.flows[t].child == holder.value
  }

  ghost predicate AllBacked(s: State) {
    forall r: nat :: r < |s.requests| && Live(s.requests[r]) ==> Backed(s, s.requests[r].holder)
  }

  // --- Steps ----------------------------------------------------------------------

  /** A flow that ends between its server step and its commit: its caller was
      interrupted, or the answer was lost. */
  predicate GivenUp(f: Flow) {
    !Active(f) && OnDir(f) && f.phase.OnServer?
  }

  ghost predicate Enabled(s: State, step: Step) {
    match step
    case Foreign(_) => true
    case Report(ended, handed, begun, drop) =>
      && (forall t :: t in ended ==> t < |s.flows| && Active(s.flows[t]))
      && (forall t :: t in handed ==> t < |s.flows| && t !in ended && Active(s.flows[t]) && s.flows[t].phase.Parked?
                                      && s.flows[t].child != s.dir)
      && (forall i :: 0 <= i < |begun| ==> (begun[i].0.Move? ==> begun[i].0.from != begun[i].0.to)
                                           && (begun[i].0.Upload? ==> begun[i].1 != s.dir))
      && Exclusive(AfterReport(s, ended, handed, begun, drop).flows, s.dir)
      && AllBacked(AfterReport(s, ended, handed, begun, drop))
    case Locate(t) =>
      && t < |s.flows| && Active(s.flows[t]) && OnDir(s.flows[t]) && s.flows[t].phase.Held?
      && IsChild(s.rows, s.path, Target(s.flows[t].op), s.flows[t].child)
    case Serve(t) =>
      && t < |s.flows| && Active(s.flows[t]) && OnDir(s.flows[t]) && s.flows[t].phase.Located?
      && Target(s.flows[t].op) in s.server
    case Commit(t) =>
      && t < |s.flows| && Active(s.flows[t]) && OnDir(s.flows[t]) && MayCommit(s, s.flows[t])
      && IsChild(s.rows, s.path, Target(s.flows[t].op), s.flows[t].child)
    case Fail(t) =>
      && t < |s.flows| && Active(s.flows[t]) && OnDir(s.flows[t]) && s.flows[t].phase in {Located, OnServer}
      && !IsChild(s.rows, s.path, Target(s.flows[t].op), s.flows[t].child)
    case Record(t, name, _) =>
      && t < |s.flows| && Active(s.flows[t]) && s.flows[t].op.Upload?
      && IsChild(s.rows, s.path, name, s.flows[t].child)
    case Ask(holder) => Backed(s, holder)
    case Answer(r) => r < |s.requests| && s.requests[r].Asked?
    case Check(r) => r < |s.requests| && s.requests[r].Answered?
    case Apply(r, _) => r < |s.requests| && s.requests[r].Checked?
  }

  /** A file that was never published is moved or removed locally only. */
  predicate MayCommit(s: State, f: Flow)
    requires OnDir(f)
  {
    f.phase.OnServer? || (f.phase.Located? && s.path + [Target(f.op)] in s.rows
        && s.rows[s.path + [Target(f.op)]].fileId.None?)
  }

  ghost function After(s: State, step: Step): State
    requires Enabled(s, step)
  {
    match step
    case Foreign(server) => s.(server := server)
    case Report(ended, handed, begun, drop) => AfterReport(s, ended, handed, begun, drop)
    case Locate(t) => s.(flows := s.flows[t := s.flows[t].(phase := Located)])
    case Serve(t) => s.(server := Effect(s.flows[t].op, s.server),
        flows := s.flows[t := s.flows[t].(phase := OnServer)])
    case Commit(t) =>
      s.(rows := Committing(s.rows, s.path, s.flows[t].op), flows := s.flows[t := s.flows[t].(phase := Committed)],
          commits := s.commits + 1)
    case Fail(t) => s.(flows := s.flows[t := s.flows[t].(phase := Broken)])
    case Record(t, name, etag) => s.(rows := s.rows[s.path + [name] := s.rows[s.path + [name]].(etag := etag)])
    case Ask(holder) => s.(requests := s.requests + [Asked(holder, |s.history| - 1)])
    case Answer(r) =>
      var q := s.requests[r];
      s.(requests := s.requests[r := Answered(q.holder, q.since, s.server, Halfway(s.flows))])
    case Check(r) =>
      var q := s.requests[r];
      s.(requests := s.requests[r :=
           if Trusted(s, q.holder, q.since, s.dir) then
             Checked(q.holder, q.since, q.entries, q.halfway, |s.flows|, s.commits)
           else Settled])
    case Apply(r, inodes) =>
      var q := s.requests[r];
      s.(rows := Merge(s.rows, s.path, q.entries, Protected(s, q.holder, q.since), inodes),
          requests := s.requests[r := Settled])
  }

  ghost predicate Initial(s: State) {
    s.path in s.rows && s.history == [{}] && s.floor == 0 && s.flows == [] && s.requests == [] && s.commits == 0
  }

  ghost function Run(s: State, steps: seq<Step>): Option<State> {
    if steps == [] then Some(s)
    else
      match Run(s, steps[..|steps| - 1])
      case Some(m) =>
        var step := steps[|steps| - 1];
        if Enabled(m, step) then Some(After(m, step)) else None
      case None => None
  }

  // --- What every run keeps -------------------------------------------------------

  function End(f: Flow, h: History): nat {
    if f.last.Some? then f.last.value else |h|
  }

  /** The reports covered the flow for all its life. */
  ghost predicate Covered(s: State, f: Flow) {
    && f.first <= f.held < End(f, s.history) <= |s.history|
    && (OnDir(f) ==> forall i :: f.first <= i < End(f, s.history) ==> s.dir in s.history[i])
    && (!f.phase.Parked? ==> f.child != s.dir && forall i :: f.held <= i < End(f, s.history) ==>
        f.child in s.history[i])
  }

  /** The row a rename or a removal has found stays where it found it. */
  ghost predicate HasItsRow(s: State, f: Flow) {
    && !f.phase.Broken?
    && (OnDir(f) && Active(f) && f.phase in {Located, OnServer} ==> IsChild(s.rows, s.path, Target(f.op), f.child))
  }

  /** What is known of a listing on its way. */
  ghost predicate Sound(s: State, r: Request) {
    && (Live(r) ==> r.since < |s.history|)
    && (r.Answered? ==> forall t :: t in r.halfway ==>
                          t < |s.flows| && OnDir(s.flows[t]) && r.since < End(s.flows[t], s.history)
                              && r.holder != Some(s.dir))
    && (r.Checked? ==>
          && r.halfway == {}
          && r.tickets <= |s.flows|
          && forall t: nat :: t < r.tickets && OnDir(s.flows[t]) ==>
               s.flows[t].last.Some? && (r.holder != Some(s.dir) ==> s.flows[t].last.value <= r.since))
  }

  ghost predicate Inv(s: State) {
    && s.path in s.rows && s.floor < |s.history|
    && s.history[|s.history| - 1] == Busy(s.flows, s.dir)
    && Exclusive(s.flows, s.dir)
    && (forall t: nat :: t < |s.flows| ==> Covered(s, s.flows[t]))
    && (forall t: nat :: t < |s.flows| ==> HasItsRow(s, s.flows[t]))
    && (forall r: nat :: r < |s.requests| ==> Sound(s, s.requests[r]))
    && AllBacked(s)
  }
}

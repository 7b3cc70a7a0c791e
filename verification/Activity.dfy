/** The busy history of `activity.rs`: which objects the machine is changing,
    compressed to the last flip of each object above a floor. */
module Activity {

  type ObjectId = nat

  /** How many objects' flips are remembered. */
  const HISTORY: nat := 4096

  /** The whole history, uncompressed: the busy set in force from each count on. */
  type History = h: seq<set<ObjectId>> | |h| > 0 witness [{}]

  /** `o` was outside every busy set from count `since` to now. */
  ghost predicate QuietThroughout(h: History, o: ObjectId, since: nat) {
    forall i :: Low(h, since) <= i < |h| ==> o !in h[i]
  }

  /** A count from the future asks about the present only. */
  ghost function Low(h: History, since: nat): nat {
    if since < |h| then since else |h| - 1
  }

  /** What a report does to the uncompressed history. */
  ghost function Reported(h: History, now: set<ObjectId>): History {
    if now == h[|h| - 1] then h else h + [now]
  }

  /** `o` has been what it is now since `from`. */
  ghost predicate Steady(h: History, o: ObjectId, from: nat) {
    forall i :: from <= i < |h| ==> (o in h[i] <==> o in h[|h| - 1])
  }

  /** The index holds the last flip of every object that flipped above the
      floor, and of no other. */
  ghost predicate Indexes(h: History, changed: map<ObjectId, nat>, floor: nat) {
    && floor < |h|
    && (forall o :: o in changed ==>
          && floor < changed[o] < |h|
          && (o in h[changed[o] - 1] <==> o !in h[|h| - 1])
          && Steady(h, o, changed[o]))
    && (forall o :: o !in changed ==> Steady(h, o, floor))
  }

  /** The index after a report that changes the busy set. */
  ghost function Stamped(changed: map<ObjectId, nat>, flipped: set<ObjectId>, at: nat): map<ObjectId, nat> {
    map o | o in changed.Keys + flipped :: if o in flipped then at else changed[o]
  }

  function Flipped(before: set<ObjectId>, now: set<ObjectId>): set<ObjectId> {
    (now - before) + (before - now)
  }

  lemma StampingAgrees(h: History, changed: map<ObjectId, nat>, floor: nat, now: set<ObjectId>)
    requires Indexes(h, changed, floor)
    ensures Indexes(h + [now], Stamped(changed, Flipped(h[|h| - 1], now), |h|), floor)
  {
    var flipped := Flipped(h[|h| - 1], now);
    var stamped, longer := Stamped(changed, flipped, |h|), h + [now];
    forall o | o !in flipped && o in stamped
      ensures Steady(longer, o, changed[o]) && (o in longer[changed[o] - 1] <==> o !in now)
    {
      assert Steady(h, o, changed[o]);
    }
    forall o | o !in stamped ensures Steady(longer, o, floor) {
      assert Steady(h, o, floor);
    }
  }

  lemma NothingRememberedAgrees(h: History)
    ensures Indexes(h, map[], |h| - 1)
  {
  }

  method Stamp(changed: map<ObjectId, nat>, flipped: set<ObjectId>, at: nat) returns (stamped: map<ObjectId, nat>)
    ensures stamped == Stamped(changed, flipped, at)
  {
    stamped := changed;
    var left := flipped;
    while left != {}
      invariant left <= flipped
      invariant stamped.Keys == changed.Keys + (flipped - left)
      invariant forall o :: o in flipped - left ==> stamped[o] == at
      invariant forall o :: o in changed && o !in flipped - left ==> stamped[o] == changed[o]
      decreases left
    {
      var o :| o in left;
      stamped := stamped[o := at];
      left := left - {o};
    }
  }

  /** The index after the flips of a report, dropped when it grew too large. */
  method Remember(changed: map<ObjectId, nat>, floor: nat, flipped: set<ObjectId>, at: nat, ghost h: History,
                  ghost grown: History)
    returns (kept: map<ObjectId, nat>, newFloor: nat)
    requires Indexes(h, changed, floor) && at == |h|
    requires |grown| == |h| + 1 && grown == h + [grown[|h|]] && flipped == Flipped(h[|h| - 1], grown[|h|])
    ensures Indexes(grown, kept, newFloor)
    ensures |kept| <= HISTORY
    ensures newFloor == if |changed.Keys + flipped| > HISTORY then at else floor
  {
    kept := Stamp(changed, flipped, at);
    assert kept.Keys == changed.Keys + flipped;
    newFloor := floor;
    if |kept| > HISTORY {
      kept, newFloor := map[], at;
      NothingRememberedAgrees(grown);
    } else {
      StampingAgrees(h, changed, floor, grown[|h|]);
    }
  }

  class Activity {
    /** How often the busy set has been another one. */
    var count: nat
    var busy: set<ObjectId>
    /** For each object that flipped, the count of its latest flip. */
    var changed: map<ObjectId, nat>
    /** Listings taken before this count predate the remembered flips. */
    var floor: nat

    ghost var history: History

    ghost predicate Valid()
      reads this
    {
      && |history| == count + 1
      && history[count] == busy
      && |changed| <= HISTORY
      && Indexes(history, changed, floor)
    }

    constructor ()
      ensures Valid() && history == [{}] && floor == 0
    {
      count, busy, changed, floor := 0, {}, map[], 0;
      history := [{}];
    }

    /** The whole busy set anew, as the decider sees it. */
    method SetBusy(now: set<ObjectId>)
      requires Valid()
      modifies this
      ensures Valid()
      ensures history == Reported(old(history), now)
      ensures busy == now
      ensures floor == if now != old(busy) && |old(changed).Keys + Flipped(old(busy), now)| > HISTORY then count
                else old(floor)
    {
      if now == busy {
        return;
      }
      ghost var grown := history + [now];
      var kept, newFloor := Remember(changed, floor, Flipped(busy, now), count + 1, history, grown);
      count, changed, floor, busy, history := count + 1, kept, newFloor, now, grown;
    }

    /** The mark a listing is asked for under. */
    function Seq(): (at: nat)
      requires Valid()
      reads this
      ensures at == |history| - 1
    {
      count
    }

    /** Whether a listing of `o` taken at `since` may be applied: exactly when
        `o` was idle throughout, and never below the floor. */
    predicate QuietSince(o: ObjectId, since: nat)
      requires Valid()
      reads this
      ensures QuietSince(o, since) <==> floor <= since && QuietThroughout(history, o, since)
    {
      QuietExactly(history, changed, floor, o, since);
      since >= floor && o !in busy && (o !in changed || changed[o] <= since)
    }
  }

  /** What the index holds is exactly what flipped above the floor: a dropped
      index is the price of more than `HISTORY` such objects and of nothing else. */
  lemma IndexHoldsTheFlipped(h: History, changed: map<ObjectId, nat>, floor: nat, o: ObjectId)
    requires Indexes(h, changed, floor)
    ensures o in changed <==> exists i :: floor < i < |h| && (o in h[i] <==> o !in h[i - 1])
  {
    if o in changed {
      var i := changed[o];
      assert o in h[i] <==> o in h[|h| - 1];
    } else {
      assert Steady(h, o, floor);
    }
  }

  /** The index answers what the history would. */
  lemma QuietExactly(h: History, changed: map<ObjectId, nat>, floor: nat, o: ObjectId, since: nat)
    requires Indexes(h, changed, floor)
    ensures floor <= since && o !in h[|h| - 1] && (o !in changed || changed[o] <= since) <==>
            floor <= since && QuietThroughout(h, o, since)
  {
    if floor <= since && o !in h[|h| - 1] && (o !in changed || changed[o] <= since) {
      assert Steady(h, o, if o in changed then changed[o] else floor);
    }
    if floor <= since && o !in h[|h| - 1] && o in changed && since < changed[o] {
      assert o in h[changed[o] - 1];
    }
  }

  /** Being quiet since an earlier count is the stronger promise: it can be
      weakened, and it ends with the first report that names the o. */
  lemma QuietUntilReported(h: History, o: ObjectId, since: nat, now: set<ObjectId>)
    requires since < |h|
    ensures QuietThroughout(Reported(h, now), o, since) <==>
              QuietThroughout(h, o, since) && o !in now
  {
    var r := Reported(h, now);
    assert r[|r| - 1] == now;
    if QuietThroughout(r, o, since) {
      forall i | since <= i < |h| ensures o !in h[i] {
        assert r[i] == h[i];
      }
    }
  }
}

/** What the pins mean (`covers`, `under`, `rename_in` in `pins.rs`): a map from
    slash-separated paths to whether the pin is one of a directory. */
module PinMap {
  import opened Common

  type Pins = map<string, bool>

  // --- Paths as components --------------------------------------------------------

  /** One more character in front. */
  function Prepended(c: char, parts: seq<string>): (r: seq<string>)
    requires parts != []
    ensures r != []
  {
    if c == '/' then [""] + parts else [[c] + parts[0]] + parts[1..]
  }

  function Split(s: string): (r: seq<string>)
    ensures r != []
  {
    if s == "" then [""] else Prepended(s[0], Split(s[1..]))
  }

  /** The root has no components. */
  function Components(path: string): seq<string> {
    if path == "" then [] else Split(path)
  }

  /** `path` is `top` or lies below it. */
  predicate AtOrBelow(top: string, path: string) {
    path == top || top + "/" <= path
  }

  lemma PrependedInFront(c: char, a: seq<string>, b: seq<string>)
    requires a != []
    ensures Prepended(c, a + b) == Prepended(c, a) + b
  {
    assert (a + b)[1..] == a[1..] + b;
  }

  lemma {:induction false} SplitJoins(a: string, b: string)
    ensures Split(a + "/" + b) == Split(a) + Split(b)
  {
    var whole := a + "/" + b;
    if a == "" {
      assert whole[1..] == b;
    } else {
      hide Prepended;
      assert whole[1..] == a[1..] + "/" + b;
      SplitJoins(a[1..], b);
      PrependedInFront(a[0], Split(a[1..]), Split(b));
    }
  }

  function Join(parts: seq<string>): string {
    if parts == [] then "" else if |parts| == 1 then parts[0] else parts[0] + "/" + Join(parts[1..])
  }

  lemma JoinOfPrepended(c: char, parts: seq<string>)
    requires parts != []
    ensures Join(Prepended(c, parts)) == [c] + Join(parts)
  {
    var p := Prepended(c, parts);
    if c == '/' {
      assert p[1..] == parts;
    } else {
      assert p[1..] == parts[1..];
      if |parts| > 1 {
        assert Join(p) == [c] + parts[0] + "/" + Join(parts[1..]);
      }
    }
  }

  lemma {:induction false} JoinOfSplit(s: string)
    ensures Join(Split(s)) == s
  {
    if s != "" {
      hide Prepended;
      JoinOfSplit(s[1..]);
      JoinOfPrepended(s[0], Split(s[1..]));
    }
  }

  lemma {:induction false} JoinOfConcat(a: seq<string>, b: seq<string>)
    requires a != [] && b != []
    ensures Join(a + b) == Join(a) + "/" + Join(b)
  {
    assert (a + b)[1..] == a[1..] + b;
    if |a| > 1 {
      JoinOfConcat(a[1..], b);
    } else {
      assert a[1..] + b == b;
    }
  }

  /** Below, in strings, is a longer list of components. */
  lemma BelowIsLongerExactly(top: string, path: string)
    requires top != ""
    ensures top + "/" <= path <==> Components(top) <= Components(path) && Components(top) != Components(path)
  {
    if top + "/" <= path {
      var rest := path[|top| + 1..];
      assert path == top + "/" + rest;
      SplitJoins(top, rest);
    }
    if Components(top) <= Components(path) && Components(top) != Components(path) {
      var rest := Split(path)[|Split(top)|..];
      assert Split(path) == Split(top) + rest;
      JoinOfConcat(Split(top), rest);
      JoinOfSplit(top);
      JoinOfSplit(path);
      assert path == top + "/" + Join(rest);
    }
  }

  // --- Coverage -------------------------------------------------------------------

  /** The pin `p` keeps `path`: on the entry itself whatever its kind, on
      anything deeper only as a directory's. */
  predicate Keeps(pins: Pins, p: string, path: string)
    requires p in pins
  {
    p == path || (pins[p] && Components(p) <= Components(path))
  }

  ghost predicate Covered(pins: Pins, path: string) {
    exists p :: p in pins && Keeps(pins, p, path)
  }

  predicate DirPin(pins: Pins, p: string) {
    p in pins && pins[p]
  }

  /** The question as it is asked: the path, its prefixes before a slash, the
      root. */
  ghost predicate Found(pins: Pins, path: string) {
    path in pins || DirPin(pins, "") || exists i :: 0 <= i < |path| && path[i] == '/' && DirPin(pins, path[..i])
  }

  lemma FoundIsCovered(pins: Pins, path: string)
    ensures Found(pins, path) <==> Covered(pins, path)
  {
    if path in pins {
      assert Keeps(pins, path, path);
    } else if DirPin(pins, "") {
      assert Keeps(pins, "", path);
    } else {
      forall i | 0 <= i < |path| && path[i] == '/' && DirPin(pins, path[..i]) ensures Keeps(pins, path[..i], path) {
        assert path[..i] + "/" == path[..i + 1];
        if path[..i] != "" {
          BelowIsLongerExactly(path[..i], path);
        }
      }
      forall p | p in pins && Keeps(pins, p, path) ensures Found(pins, path) {
        SameComponentsSamePath(p, path);
        BelowIsLongerExactly(p, path);
        assert path[|p|] == '/' && path[..|p|] == p;
      }
    }
  }

  lemma SameComponentsSamePath(a: string, b: string)
    ensures Components(a) == Components(b) ==> a == b
  {
    JoinOfSplit(a);
    JoinOfSplit(b);
  }

  /** Whether a path is kept offline, decided by its own prefixes. */
  method Covers(pins: Pins, path: string) returns (covered: bool)
    ensures covered <==> Covered(pins, path)
  {
    FoundIsCovered(pins, path);
    if path in pins {
      return true;
    }
    var i := 0;
    while i < |path|
      invariant i <= |path|
      invariant forall j :: 0 <= j < i && path[j] == '/' ==> !DirPin(pins, path[..j])
    {
      if path[i] == '/' && path[..i] in pins && pins[path[..i]] {
        return true;
      }
      i := i + 1;
    }
    covered := "" in pins && pins[""];
  }

  // --- Renaming -------------------------------------------------------------------

  /** Where a rename takes a path at or below `from`. */
  function Carried(path: string, from: string, to: string): string
    requires AtOrBelow(from, path)
  {
    to + path[|from|..]
  }

  lemma CarriedBack(path: string, from: string, to: string)
    requires AtOrBelow(from, path)
    ensures AtOrBelow(to, Carried(path, from, to))
    ensures Carried(Carried(path, from, to), to, from) == path
  {
    var there := Carried(path, from, to);
    assert path == from + path[|from|..];
    assert there[|to|..] == path[|from|..];
    if path != from {
      assert (from + "/")[|from|..] == "/" && path[|from|] == (from + "/")[|from|];
      assert to + "/" == there[..|to| + 1];
    }
  }

  /** The pin at `q` once the subtree is renamed. */
  function RenamedPin(pins: Pins, from: string, to: string, q: string): Option<bool> {
    if AtOrBelow(to, q) && Carried(q, to, from) in pins then Some(pins[Carried(q, to, from)])
    else if AtOrBelow(from, q) then None
    else Lookup(pins, q)
  }

  function Renamed(pins: Pins, from: string, to: string): Pins {
    map q | q in pins.Keys + (set p | p in pins && AtOrBelow(from, p) :: Carried(p, from, to))
        && RenamedPin(pins, from, to, q).Some?
      :: RenamedPin(pins, from, to, q).value
  }

  /** What a rename makes of the pins. The root never moves. */
  function RenamedBy(pins: Pins, from: string, to: string): Pins {
    if from == "" || from == to then pins else Renamed(pins, from, to)
  }

  lemma RenamedAt(pins: Pins, from: string, to: string, q: string)
    ensures Lookup(Renamed(pins, from, to), q) == RenamedPin(pins, from, to, q)
  {
    if AtOrBelow(to, q) && Carried(q, to, from) in pins {
      CarriedBack(q, to, from);
    }
  }

  lemma SamePins(a: Pins, b: Pins)
    requires forall q :: Lookup(a, q) == Lookup(b, q)
    ensures a == b
  {
    forall q ensures q in a <==> q in b { assert Lookup(a, q) == Lookup(b, q); }
    forall q | q in a ensures a[q] == b[q] { assert Lookup(a, q) == Lookup(b, q); }
  }

  /** Only `p` is carried to where `p` is carried. */
  lemma CarriedFrom(p: string, from: string, to: string)
    requires AtOrBelow(from, p)
    ensures forall q :: q == Carried(p, from, to) <==> AtOrBelow(to, q) && Carried(q, to, from) == p
  {
    CarriedBack(p, from, to);
    hide AtOrBelow, Carried;
    forall q | AtOrBelow(to, q) ensures Carried(q, to, from) == p ==> q == Carried(p, from, to) {
      CarriedBack(q, to, from);
    }
  }

  /** Taking the subtree out and putting the moved pins in renames the map. */
  lemma MovedIsRenamed(was: Pins, moved: Pins, under: set<string>, from: string, to: string)
    requires under == set p | p in was && AtOrBelow(from, p)
    requires forall q :: q in moved <==> AtOrBelow(to, q) && Carried(q, to, from) in under
    requires forall q :: q in moved ==> moved[q] == was[Carried(q, to, from)]
    ensures (was - under) + moved == Renamed(was, from, to)
  {
    var pins := (was - under) + moved;
    hide AtOrBelow, Carried, Renamed;
    forall q ensures Lookup(pins, q) == Lookup(Renamed(was, from, to), q) {
      RenamedAt(was, from, to, q);
      if AtOrBelow(to, q) {
        CarriedBack(q, to, from);
      }
    }
    SamePins(pins, Renamed(was, from, to));
  }

  class PinTable {
    var pins: Pins

    constructor (pins: Pins)
      ensures this.pins == pins
    {
      this.pins := pins;
    }

    /** Every pin at or below a path. */
    method Under(path: string) returns (found: set<string>)
      ensures found == set p | p in pins && AtOrBelow(path, p)
    {
      found := set p | p in pins && AtOrBelow(path, p);
    }

    /** The pins of a renamed subtree go with it. */
    method RenameIn(from: string, to: string)
      modifies this
      ensures pins == RenamedBy(old(pins), from, to)
    {
      if from == "" || from == to {
        return;
      }
      var was := pins;
      var under := Under(from);
      assert forall p :: p in under ==> AtOrBelow(from, p);
      hide AtOrBelow, Carried;
      var moved: Pins := map[];
      var left := under;
      while left != {}
        invariant left <= under && pins == was
        invariant forall q :: q in moved <==> AtOrBelow(to, q) && Carried(q, to, from) in under - left
        invariant forall q :: q in moved ==> moved[q] == was[Carried(q, to, from)]
        decreases left
      {
        var p :| p in left;
        CarriedFrom(p, from, to);
        moved := moved[Carried(p, from, to) := was[p]];
        left := left - {p};
      }
      pins := (was - under) + moved;
      MovedIsRenamed(was, moved, under, from, to);
    }

    /** A deleted subtree's pins go; for the root, all of them. */
    method RemoveUnder(path: string) returns (removed: nat)
      modifies this
      ensures forall q :: Lookup(pins, q) == if path == "" || AtOrBelow(path, q) then None else old(Lookup(pins, q))
      ensures removed + |pins| == |old(pins)|
    {
      if path == "" {
        removed := |pins|;
        pins := map[];
      } else {
        var under := Under(path);
        removed := |under|;
        ghost var was := pins;
        pins := pins - under;
        assert pins.Keys == was.Keys - under && under <= was.Keys;
        assert |was.Keys - under| == |was.Keys| - |under|;
      }
    }
  }

  // --- What a rename keeps --------------------------------------------------------

  /** `path` is kept by a pin at or below `top`. */
  ghost predicate CoveredWithin(pins: Pins, top: string, path: string) {
    exists p :: p in pins && AtOrBelow(top, p) && KeepsBelow(pins, p, path)
  }

  predicate KeepsBelow(pins: Pins, p: string, path: string)
    requires p in pins
  {
    p == path || (pins[p] && p + "/" <= path)
  }

  /** Nothing at or below the new place that the rename does not move itself. */
  ghost predicate Vacant(pins: Pins, from: string, to: string) {
    forall p :: p in pins && AtOrBelow(to, p) ==> AtOrBelow(from, p)
  }

  lemma CarriedKeeps(p: string, path: string, from: string, to: string)
    requires AtOrBelow(from, p) && AtOrBelow(from, path)
    ensures p == path <==> Carried(p, from, to) == Carried(path, from, to)
    ensures p + "/" <= path <==> Carried(p, from, to) + "/" <= Carried(path, from, to)
  {
    CarriedBack(p, from, to);
    CarriedBack(path, from, to);
    assert p == from + p[|from|..] && path == from + path[|from|..];
    var a, b := p[|from|..], path[|from|..];
    assert p + "/" == from + (a + "/");
    assert Carried(p, from, to) + "/" == to + (a + "/");
    PrefixesAfter(from, a + "/", b);
    PrefixesAfter(to, a + "/", b);
  }

  lemma PrefixesAfter(front: string, a: string, b: string)
    ensures front + a <= front + b <==> a <= b
  {
    if front + a <= front + b {
      assert a == (front + a)[|front|..] == (front + b)[|front|..|front| + |a|];
      assert a == b[..|a|];
    }
    if a <= b {
      assert front + b == front + a + b[|a|..];
    }
  }

  /** Every coverage given by a pin at or below the old place is there at the
      new one, and, where the new place was vacant, no other; but nothing follows
      the root. */
  lemma RenameCarriesCoverage(pins: Pins, from: string, to: string, path: string)
    requires AtOrBelow(from, path)
    ensures from == "" ==> RenamedBy(pins, from, to) == pins
    ensures from != "" && CoveredWithin(pins, from, path) ==>
              CoveredWithin(RenamedBy(pins, from, to), to, Carried(path, from, to))
    ensures from != "" && Vacant(pins, from, to) ==>
              (CoveredWithin(pins, from, path) <==>
                  CoveredWithin(RenamedBy(pins, from, to), to, Carried(path, from, to)))
  {
    if from == to {
      assert path == from + path[|from|..];
    } else {
      RenamedCarries(pins, from, to, path);
    }
  }

  lemma RenamedCarries(pins: Pins, from: string, to: string, path: string)
    requires AtOrBelow(from, path)
    ensures CoveredWithin(pins, from, path) ==> CoveredWithin(Renamed(pins, from, to), to, Carried(path, from, to))
    ensures Vacant(pins, from, to) ==>
              (CoveredWithin(pins, from, path) <==> CoveredWithin(Renamed(pins, from, to), to, Carried(path, from, to)))
  {
    var after, there := Renamed(pins, from, to), Carried(path, from, to);
    if CoveredWithin(pins, from, path) {
      var p :| p in pins && AtOrBelow(from, p) && KeepsBelow(pins, p, path);
      CarriedBack(p, from, to);
      RenamedAt(pins, from, to, Carried(p, from, to));
      CarriedKeeps(p, path, from, to);
      assert KeepsBelow(after, Carried(p, from, to), there);
    }
    if Vacant(pins, from, to) && CoveredWithin(after, to, there) {
      var q :| q in after && AtOrBelow(to, q) && KeepsBelow(after, q, there);
      RenamedAt(pins, from, to, q);
      CarriedBack(q, to, from);
      CarriedBack(path, from, to);
      var p := Carried(q, to, from);
      assert p in pins;
      CarriedKeeps(p, path, from, to);
      assert KeepsBelow(pins, p, path);
    }
  }

  /** Any other pin stays, unless a moved one takes its place. */
  lemma RenameLeavesTheRest(pins: Pins, from: string, to: string, q: string)
    requires q in pins && !AtOrBelow(from, q)
    ensures var after := RenamedBy(pins, from, to);
            || Lookup(after, q) == Some(pins[q])
            || (AtOrBelow(to, q) && Carried(q, to, from) in pins
                && Lookup(after, q) == Some(pins[Carried(q, to, from)]))
  {
    RenamedAt(pins, from, to, q);
  }

  // --- There and back -------------------------------------------------------------

  ghost predicate NoneAt(pins: Pins, top: string) {
    forall p :: p in pins ==> !AtOrBelow(top, p)
  }

  /** Renaming back restores the pins iff the new place was vacant; with the root
      as either place, which then moves once and not back, iff there was no pin at
      or below the other. */
  lemma RenameBackRestoresExactly(pins: Pins, from: string, to: string)
    ensures RenamedBy(RenamedBy(pins, from, to), to, from) == pins <==>
              (from == to || if from == "" then NoneAt(pins, to) else if to == "" then NoneAt(pins, from)
                  else Vacant(pins, from, to))
  {
    if from != to {
      if from == "" {
        OntoTheRootKeepsExactly(pins, to);
      } else if to == "" {
        OntoTheRootKeepsExactly(pins, from);
      } else {
        RenamedBackExactly(pins, from, to);
      }
    }
  }

  lemma RenamedBackExactly(pins: Pins, from: string, to: string)
    ensures Renamed(Renamed(pins, from, to), to, from) == pins <==> Vacant(pins, from, to)
  {
    var there := Renamed(pins, from, to);
    var back := Renamed(there, to, from);
    if Vacant(pins, from, to) {
      forall q ensures Lookup(back, q) == Lookup(pins, q) {
        ThereAndBack(pins, from, to, q);
      }
      SamePins(back, pins);
    } else {
      var p :| p in pins && AtOrBelow(to, p) && !AtOrBelow(from, p);
      RenamedAt(there, to, from, p);
      assert p !in back;
    }
  }

  lemma ThereAndBack(pins: Pins, from: string, to: string, q: string)
    requires Vacant(pins, from, to)
    ensures Lookup(Renamed(Renamed(pins, from, to), to, from), q) == Lookup(pins, q)
  {
    var there := Renamed(pins, from, to);
    RenamedAt(there, to, from, q);
    RenamedAt(pins, from, to, q);
    if AtOrBelow(from, q) {
      RenamedAt(pins, from, to, Carried(q, from, to));
      CarriedBack(q, from, to);
    }
  }

  /** A subtree renamed onto the root leaves its place, if it has a pin at all: the
      longest of them at least is gone. */
  lemma OntoTheRootKeepsExactly(pins: Pins, from: string)
    requires from != ""
    ensures Renamed(pins, from, "") == pins <==> NoneAt(pins, from)
  {
    var after := Renamed(pins, from, "");
    if NoneAt(pins, from) {
      forall q ensures Lookup(after, q) == Lookup(pins, q) {
        RenamedAt(pins, from, "", q);
        if AtOrBelow("", q) {
          CarriedBack(q, "", from);
        }
      }
      SamePins(after, pins);
    } else {
      var p := LongestAt(pins, from);
      RenamedAt(pins, from, "", p);
      if AtOrBelow("", p) {
        CarriedBack(p, "", from);
        assert |Carried(p, "", from)| > |p|;
      }
      assert p !in after;
    }
  }

  lemma {:induction false} LongestAt(pins: Pins, top: string) returns (p: string)
    requires !NoneAt(pins, top)
    ensures p in pins && AtOrBelow(top, p) && forall q :: q in pins && AtOrBelow(top, q) ==> |q| <= |p|
    decreases |pins|
  {
    p :| p in pins && AtOrBelow(top, p);
    var rest := pins - {p};
    if !NoneAt(rest, top) {
      var q := LongestAt(rest, top);
      p := if |q| < |p| then p else q;
    }
  }
}

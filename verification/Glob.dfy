/** The ignore patterns of `ignore.rs`: a glob with `*` and `?` over the bytes of
    a basename, matched by a loop that remembers only the last `*`. */
module Glob {
  import opened Common

  const STAR: byte := 42
  const QUESTION: byte := 63

  /** What a pattern means: `*` is any run of bytes, `?` is exactly one byte,
      every other byte is itself. */
  predicate Matches(pattern: seq<byte>, name: seq<byte>)
    decreases |pattern| + |name|
  {
    if pattern == [] then name == []
    else if pattern[0] == STAR then
      Matches(pattern[1..], name) || (name != [] && Matches(pattern, name[1..]))
    else
      && name != []
      && (pattern[0] == QUESTION || pattern[0] == name[0])
      && Matches(pattern[1..], name[1..])
  }

  predicate StarFree(s: seq<byte>) {
    forall i :: 0 <= i < |s| ==> s[i] != STAR
  }

  /** The last `*` met: the pattern index after it and the name index it has
      swallowed up to. */
  datatype Star = NoStar | Last(p: nat, n: nat)

  ghost predicate InRange(pattern: seq<byte>, name: seq<byte>, p: nat, n: nat, star: Star) {
    && p <= |pattern|
    && n <= |name|
    && (star.Last? ==> 0 < star.p <= p && star.n <= n)
  }

  /** The verdict of the loop from the state (p, n, star) onwards. */
  ghost predicate Verdict(pattern: seq<byte>, name: seq<byte>, p: nat, n: nat, star: Star)
    requires InRange(pattern, name, p, n, star)
    decreases |name| - (if star.Last? then star.n else 0),
              if star.Last? then |pattern| - star.p else |pattern| + 1, |name| - n, |pattern| - p
  {
    if n < |name| then
      if p < |pattern| && (pattern[p] == QUESTION || pattern[p] == name[n]) then
        Verdict(pattern, name, p + 1, n + 1, star)
      else if p < |pattern| && pattern[p] == STAR then
        Verdict(pattern, name, p + 1, n, Last(p + 1, n))
      else if star.Last? then
        Verdict(pattern, name, star.p, star.n + 1, Last(star.p, star.n + 1))
      else false
    else forall i :: p <= i < |pattern| ==> pattern[i] == STAR
  }

  /** The matcher: the loop computes `Verdict`, terminates, and agrees with
      `Matches` as far as the lemmas below say. */
  method GlobMatch(pattern: seq<byte>, name: seq<byte>) returns (matched: bool)
    ensures matched <==> Verdict(pattern, name, 0, 0, NoStar)
    ensures matched ==> Matches(pattern, name)
    ensures StarFree(name) || StarFree(pattern) ==> (matched <==> Matches(pattern, name))
  {
    Soundness(pattern, name);
    if StarFree(name) || StarFree(pattern) {
      Completeness(pattern, name);
    }
    var p: nat, n: nat := 0, 0;
    var star := NoStar;
    while n < |name|
      invariant InRange(pattern, name, p, n, star)
      invariant Verdict(pattern, name, p, n, star) <==> Verdict(pattern, name, 0, 0, NoStar)
      decreases |name| - (if star.Last? then star.n else 0),
                if star.Last? then |pattern| - star.p else |pattern| + 1, |name| - n, |pattern| - p
    {
      if p < |pattern| && (pattern[p] == QUESTION || pattern[p] == name[n]) {
        p, n := p + 1, n + 1;
      } else if p < |pattern| && pattern[p] == STAR {
        star := Last(p + 1, n);
        p := p + 1;
      } else if star.Last? {
        p, n := star.p, star.n + 1;
        star := Last(star.p, star.n + 1);
      } else {
        return false;
      }
    }
    ghost var rest := p;
    while p < |pattern| && pattern[p] == STAR
      invariant rest <= p <= |pattern|
      invariant forall i :: rest <= i < p ==> pattern[i] == STAR
    {
      p := p + 1;
    }
    return p == |pattern|;
  }

  /** Whether any of `patterns` matches `name`. */
  method IsIgnored(name: seq<byte>, patterns: seq<seq<byte>>) returns (ignored: bool)
    ensures ignored ==> exists i :: 0 <= i < |patterns| && Matches(patterns[i], name)
    ensures StarFree(name) ==> (ignored <==> exists i :: 0 <= i < |patterns| && Matches(patterns[i], name))
  {
    for i := 0 to |patterns|
      invariant StarFree(name) ==> forall j :: 0 <= j < i ==> !Matches(patterns[j], name)
    {
      var hit := GlobMatch(patterns[i], name);
      if hit {
        return true;
      }
    }
    return false;
  }

  // --- Stepping through `Matches` ----------------------------------------------

  /** A `*` that matches a suffix of a name matches the whole of it. */
  lemma {:induction false} StarAbsorbs(pattern: seq<byte>, name: seq<byte>, k: nat)
    requires pattern != [] && pattern[0] == STAR && k <= |name|
    requires Matches(pattern, name[k..])
    ensures Matches(pattern, name)
    decreases k
  {
    if k > 0 {
      assert name[1..][k - 1..] == name[k..];
      StarAbsorbs(pattern, name[1..], k - 1);
    }
  }

  lemma {:induction false} OnlyStarsMatchNothing(pattern: seq<byte>)
    ensures Matches(pattern, []) <==> forall i :: 0 <= i < |pattern| ==> pattern[i] == STAR
  {
    if pattern != [] {
      OnlyStarsMatchNothing(pattern[1..]);
      assert forall i :: 1 <= i < |pattern| ==> pattern[i] == pattern[1..][i - 1];
    }
  }

  lemma OneStep(pattern: seq<byte>, name: seq<byte>, p: nat, n: nat)
    requires p < |pattern| && n < |name|
    ensures pattern[p] != STAR ==>
              (Matches(pattern[p..], name[n..]) <==>
               (pattern[p] == QUESTION || pattern[p] == name[n]) && Matches(pattern[p + 1..], name[n + 1..]))
    ensures pattern[p] == STAR ==>
              (Matches(pattern[p..], name[n..]) <==>
               Matches(pattern[p + 1..], name[n..]) || Matches(pattern[p..], name[n + 1..]))
    ensures pattern[p] == STAR && Matches(pattern[p + 1..], name[n + 1..]) ==> Matches(pattern[p..], name[n..])
  {
    assert pattern[p..][1..] == pattern[p + 1..];
    assert name[n..][1..] == name[n + 1..];
    if pattern[p] == STAR && Matches(pattern[p + 1..], name[n + 1..]) {
      if n + 1 < |name| {
        assert name[n + 1..][1..] == name[n + 2..];
      }
      assert Matches(pattern[p..], name[n + 1..]);
    }
  }

  // --- Soundness: for every name --------------------------------------------------

  lemma {:induction false} VerdictIsSound(pattern: seq<byte>, name: seq<byte>, p: nat, n: nat, star: Star)
    requires InRange(pattern, name, p, n, star)
    requires Verdict(pattern, name, p, n, star)
    requires Matches(pattern[p..], name[n..]) ==> Matches(pattern, name)
    requires star.Last? ==> forall k :: star.n <= k <= |name| && Matches(pattern[star.p..], name[k..]) ==>
               Matches(pattern, name)
    ensures Matches(pattern, name)
    decreases |name| - (if star.Last? then star.n else 0),
              if star.Last? then |pattern| - star.p else |pattern| + 1, |name| - n, |pattern| - p
  {
    if n < |name| {
      if p < |pattern| && (pattern[p] == QUESTION || pattern[p] == name[n]) {
        OneStep(pattern, name, p, n);
        VerdictIsSound(pattern, name, p + 1, n + 1, star);
      } else if p < |pattern| && pattern[p] == STAR {
        forall k | n <= k <= |name| && Matches(pattern[p + 1..], name[k..]) ensures Matches(pattern, name) {
          assert pattern[p..][1..] == pattern[p + 1..];
          assert name[n..][k - n..] == name[k..];
          StarAbsorbs(pattern[p..], name[n..], k - n);
        }
        VerdictIsSound(pattern, name, p + 1, n, Last(p + 1, n));
      } else {
        VerdictIsSound(pattern, name, star.p, star.n + 1, Last(star.p, star.n + 1));
      }
    } else {
      OnlyStarsMatchNothing(pattern[p..]);
    }
  }

  /** Whatever the loop accepts, the pattern really matches. */
  lemma Soundness(pattern: seq<byte>, name: seq<byte>)
    ensures Verdict(pattern, name, 0, 0, NoStar) ==> Matches(pattern, name)
  {
    if Verdict(pattern, name, 0, 0, NoStar) {
      assert pattern[0..] == pattern && name[0..] == name;
      VerdictIsSound(pattern, name, 0, 0, NoStar);
    }
  }

  // --- Completeness: remembering the last star is enough ---------------------------

  /** A stretch of the pattern without `*` consumes as many bytes as it has. */
  lemma {:induction false} SegmentConsumes(pattern: seq<byte>, name: seq<byte>, len: nat)
    requires len <= |pattern| && StarFree(pattern[..len])
    requires Matches(pattern, name)
    ensures len <= |name| && Matches(pattern[len..], name[len..])
    decreases len
  {
    if len == 0 {
      assert pattern[0..] == pattern && name[0..] == name;
    } else {
      assert pattern[0] == pattern[..len][0];
      assert pattern[1..][..len - 1] == pattern[..len][1..];
      SegmentConsumes(pattern[1..], name[1..], len - 1);
      assert pattern[1..][len - 1..] == pattern[len..] && name[1..][len - 1..] == name[len..];
    }
  }

  /** Some way of finishing the match is still open from (p, n, star). */
  ghost predicate Open(pattern: seq<byte>, name: seq<byte>, p: nat, n: nat, star: Star)
    requires InRange(pattern, name, p, n, star)
  {
    || Matches(pattern[p..], name[n..])
    || (star.Last? && exists k :: star.n < k <= |name| && Matches(pattern[star.p..], name[k..]))
  }

  lemma {:induction false} VerdictIsComplete(pattern: seq<byte>, name: seq<byte>, p: nat, n: nat, star: Star)
    requires StarFree(name) || StarFree(pattern)
    requires InRange(pattern, name, p, n, star)
    requires star.Last? ==> p - star.p == n - star.n && StarFree(pattern[star.p..p])
    requires Open(pattern, name, p, n, star)
    ensures Verdict(pattern, name, p, n, star)
    decreases |name| - (if star.Last? then star.n else 0),
              if star.Last? then |pattern| - star.p else |pattern| + 1, |name| - n, |pattern| - p
  {
    if n < |name| {
      if p < |pattern| && (pattern[p] == QUESTION || pattern[p] == name[n]) {
        OneStep(pattern, name, p, n);
        if star.Last? {
          assert pattern[star.p..p + 1] == pattern[star.p..p] + [pattern[p]];
        }
        VerdictIsComplete(pattern, name, p + 1, n + 1, star);
      } else if p < |pattern| && pattern[p] == STAR {
        NewStarForgetsTheOld(pattern, name, p, n, star);
        OneStep(pattern, name, p, n);
        if !Matches(pattern[p + 1..], name[n..]) {
          StarReaches(pattern, name, p, n);
        }
        VerdictIsComplete(pattern, name, p + 1, n, Last(p + 1, n));
      } else {
        OnlyTheStarIsLeft(pattern, name, p, n, star);
        VerdictIsComplete(pattern, name, star.p, star.n + 1, Last(star.p, star.n + 1));
      }
    } else {
      NameIsUsedUp(pattern, name, p, star);
    }
  }

  lemma OnlyTheStarIsLeft(pattern: seq<byte>, name: seq<byte>, p: nat, n: nat, star: Star)
    requires InRange(pattern, name, p, n, star) && Open(pattern, name, p, n, star) && n < |name|
    requires p < |pattern| ==> pattern[p] != QUESTION && pattern[p] != name[n] && pattern[p] != STAR
    ensures star.Last? && star.n < |name| && Open(pattern, name, star.p, star.n + 1, Last(star.p, star.n + 1))
  {
    if p < |pattern| {
      OneStep(pattern, name, p, n);
    }
    assert !Matches(pattern[p..], name[n..]);
    var k :| star.n < k <= |name| && Matches(pattern[star.p..], name[k..]);
    assert k == star.n + 1 || star.n + 1 < k;
  }

  lemma NameIsUsedUp(pattern: seq<byte>, name: seq<byte>, p: nat, star: Star)
    requires InRange(pattern, name, p, |name|, star)
    requires star.Last? ==> p - star.p == |name| - star.n && StarFree(pattern[star.p..p])
    requires Open(pattern, name, p, |name|, star)
    ensures Verdict(pattern, name, p, |name|, star)
  {
    if !Matches(pattern[p..], []) {
      var k :| star.n < k <= |name| && Matches(pattern[star.p..], name[k..]);
      assert pattern[star.p..][..p - star.p] == pattern[star.p..p];
      SegmentConsumes(pattern[star.p..], name[k..], p - star.p);
    }
    OnlyStarsMatchNothing(pattern[p..]);
    assert forall i :: p <= i < |pattern| ==> pattern[i] == pattern[p..][i - p];
  }

  /** At a second star the first one's other choices are no longer needed. */
  lemma NewStarForgetsTheOld(pattern: seq<byte>, name: seq<byte>, p: nat, n: nat, star: Star)
    requires InRange(pattern, name, p, n, star) && p < |pattern| && pattern[p] == STAR
    requires star.Last? ==> p - star.p == n - star.n && StarFree(pattern[star.p..p])
    requires Open(pattern, name, p, n, star)
    ensures Matches(pattern[p..], name[n..])
  {
    if !Matches(pattern[p..], name[n..]) {
      var k :| star.n < k <= |name| && Matches(pattern[star.p..], name[k..]);
      var len := p - star.p;
      assert pattern[star.p..][..len] == pattern[star.p..p];
      SegmentConsumes(pattern[star.p..], name[k..], len);
      assert pattern[star.p..][len..] == pattern[p..];
      assert name[k..][len..] == name[k + len..] == name[n..][k + len - n..];
      StarAbsorbs(pattern[p..], name[n..], k + len - n);
    }
  }

  /** What a `*` matches, it matches by handing some suffix to what follows. */
  lemma {:induction false} StarReaches(pattern: seq<byte>, name: seq<byte>, p: nat, n: nat)
    requires p < |pattern| && pattern[p] == STAR && n <= |name|
    requires Matches(pattern[p..], name[n..])
    ensures exists k :: n <= k <= |name| && Matches(pattern[p + 1..], name[k..])
    decreases |name| - n
  {
    assert pattern[p..][1..] == pattern[p + 1..];
    if !Matches(pattern[p + 1..], name[n..]) {
      assert name[n..][1..] == name[n + 1..];
      StarReaches(pattern, name, p, n + 1);
    }
  }

  /** Unless `*` occurs on both sides, whatever matches is accepted. */
  lemma Completeness(pattern: seq<byte>, name: seq<byte>)
    requires StarFree(name) || StarFree(pattern)
    ensures Matches(pattern, name) ==> Verdict(pattern, name, 0, 0, NoStar)
  {
    if Matches(pattern, name) {
      assert pattern[0..] == pattern && name[0..] == name;
      VerdictIsComplete(pattern, name, 0, 0, NoStar);
    }
  }

  // --- Exactly when the matcher is complete ----------------------------------------

  function Questions(count: nat): (q: seq<byte>)
    ensures |q| == count && forall i :: 0 <= i < count ==> q[i] == QUESTION
  {
    seq(count, _ => QUESTION)
  }

  /** `?` for every byte before the `*` of the name, a `*`, and a `?` for that
      byte and every one after it. */
  function Trap(name: seq<byte>, at: nat): seq<byte>
    requires at < |name|
  {
    Questions(at) + [STAR] + Questions(|name| - at)
  }

  lemma {:induction false} QuestionsMatch(name: seq<byte>)
    ensures Matches(Questions(|name|), name)
  {
    if name != [] {
      assert Questions(|name|)[1..] == Questions(|name| - 1);
      QuestionsMatch(name[1..]);
    }
  }

  lemma {:induction false} TrapMatches(name: seq<byte>, at: nat)
    requires at < |name|
    ensures Matches(Trap(name, at), name)
    decreases at
  {
    if at == 0 {
      assert Trap(name, 0)[1..] == Questions(|name|);
      QuestionsMatch(name);
    } else {
      assert Trap(name, at)[1..] == Trap(name[1..], at - 1);
      TrapMatches(name[1..], at - 1);
    }
  }

  /** The name's own `*` swallows the pattern's, and a `?` is left over. */
  lemma {:induction false} TrapIsRefused(name: seq<byte>, at: nat, p: nat)
    requires at < |name| && name[at] == STAR && p <= |name|
    ensures !Verdict(Trap(name, at), name, p, p, NoStar)
    decreases |name| - p
  {
    if p < |name| {
      TrapIsRefused(name, at, p + 1);
    } else {
      assert Trap(name, at)[|name|] == QUESTION;
    }
  }

  /** The matcher decides the meaning of every pattern on exactly the names that
      hold no `*`. */
  lemma CompleteExactlyOnStarFreeNames(name: seq<byte>)
    ensures StarFree(name) <==> forall pattern: seq<byte> :: Verdict(pattern, name, 0, 0, NoStar) <==>
              Matches(pattern, name)
  {
    if StarFree(name) {
      forall pattern: seq<byte> ensures Verdict(pattern, name, 0, 0, NoStar) <==> Matches(pattern, name) {
        Soundness(pattern, name);
        Completeness(pattern, name);
      }
    } else {
      var at :| 0 <= at < |name| && name[at] == STAR;
      TrapMatches(name, at);
      TrapIsRefused(name, at, 0);
    }
  }
}

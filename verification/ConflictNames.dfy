/** The names conflicted copies go under (`conflict_copy_path`). */
module ConflictNames {
  import opened Common

  function Digit(d: nat): char
    requires d < 10
  {
    '0' + d as char
  }

  function Decimal(n: nat): (s: string)
    ensures s != "" && forall i :: 0 <= i < |s| ==> '0' <= s[i] <= '9'
  {
    if n < 10 then [Digit(n)] else Decimal(n / 10) + [Digit(n % 10)]
  }

  function Tag(seconds: nat, attempt: nat): string {
    "conflicted copy " + Decimal(seconds) + if attempt == 0 then "" else "-" + Decimal(attempt)
  }

  /** The parts before and after the last `mark`. */
  function SplitLast(s: string, mark: char): (r: Option<(string, string)>)
    ensures r.Some? ==> s == r.value.0 + [mark] + r.value.1 && mark !in r.value.1
    ensures r.None? ==> mark !in s
  {
    if s == "" then None
    else if s[|s| - 1] == mark then Some((s[..|s| - 1], ""))
    else
      match SplitLast(s[..|s| - 1], mark)
      case None => None
      case Some((stem, rest)) => Some((stem, rest + [s[|s| - 1]]))
  }

  predicate IsExtension(stem: string, ext: string) {
    '/' !in ext && stem != "" && stem[|stem| - 1] != '/'
  }

  function CopyPath(path: string, seconds: nat, attempt: nat): string {
    var tag := Tag(seconds, attempt);
    match SplitLast(path, '.')
    case Some((stem, ext)) =>
      if IsExtension(stem, ext) then stem + " (" + tag + ")." + ext else path + " (" + tag + ")"
    case None => path + " (" + tag + ")"
  }

  /** Everything up to the last slash. */
  function Directory(path: string): string {
    match SplitLast(path, '/')
    case Some((dir, _)) => dir + "/"
    case None => ""
  }

  /** What follows the last dot of the last segment, if it is an extension. */
  function Extension(path: string): Option<string> {
    match SplitLast(path, '.')
    case Some((stem, ext)) => if IsExtension(stem, ext) then Some(ext) else None
    case None => None
  }

  // --- A copy is a sibling --------------------------------------------------------

  lemma {:induction false} SplitOf(stem: string, mark: char, rest: string)
    requires mark !in rest
    ensures SplitLast(stem + [mark] + rest, mark) == Some((stem, rest))
  {
    var s := stem + [mark] + rest;
    if rest == "" {
      assert s[..|s| - 1] == stem;
    } else {
      var init := rest[..|rest| - 1];
      assert s[..|s| - 1] == stem + [mark] + init;
      assert s[|s| - 1] == rest[|rest| - 1] && rest == init + [rest[|rest| - 1]];
      SplitOf(stem, mark, init);
    }
  }

  lemma DirectoryOf(s: string, more: string)
    requires '/' !in more
    ensures Directory(s + more) == Directory(s)
  {
    match SplitLast(s, '/')
    case Some((dir, rest)) =>
      assert s + more == dir + ['/'] + (rest + more);
      SplitOf(dir, '/', rest + more);
    case None =>
      assert '/' !in s + more;
  }

  lemma TagIsOneSegment(seconds: nat, attempt: nat)
    ensures '/' !in Tag(seconds, attempt) && '.' !in Tag(seconds, attempt)
  {
    var head := "conflicted copy ";
    assert forall i :: 0 <= i < |head| ==> head[i] != '/' && head[i] != '.';
  }

  /** Something put between the stem and its extension. */
  lemma Inserted(stem: string, middle: string, ext: string)
    requires IsExtension(stem, ext) && '.' !in ext && '/' !in middle && middle != ""
    ensures Extension(stem + middle + "." + ext) == Some(ext)
    ensures Directory(stem + middle + "." + ext) == Directory(stem + "." + ext)
  {
    SplitOf(stem + middle, '.', ext);
    assert (stem + middle)[|stem + middle| - 1] == middle[|middle| - 1];
    assert stem + middle + "." + ext == stem + (middle + "." + ext);
    assert stem + "." + ext == stem + ("." + ext);
    DirectoryOf(stem, middle + "." + ext);
    DirectoryOf(stem, "." + ext);
  }

  /** The copy lies beside the original, has its extension, and is not it. */
  lemma CopyIsASibling(path: string, seconds: nat, attempt: nat)
    ensures Directory(CopyPath(path, seconds, attempt)) == Directory(path)
    ensures Extension(path).Some? ==> Extension(CopyPath(path, seconds, attempt)) == Extension(path)
    ensures |CopyPath(path, seconds, attempt)| > |path|
  {
    hide SplitLast, Directory, Tag;
    var tag := Tag(seconds, attempt);
    TagIsOneSegment(seconds, attempt);
    if Extension(path).Some? {
      var stem, ext := SplitLast(path, '.').value.0, Extension(path).value;
      var middle := " (" + tag + ")";
      Inserted(stem, middle, ext);
      assert CopyPath(path, seconds, attempt) == stem + middle + "." + ext;
      assert path == stem + "." + ext;
    } else {
      var more := " (" + tag + ")";
      assert CopyPath(path, seconds, attempt) == path + more;
      DirectoryOf(path, more);
    }
  }

  // --- Names do not repeat --------------------------------------------------------

  function Value(s: string): nat
    requires forall i :: 0 <= i < |s| ==> '0' <= s[i] <= '9'
  {
    if s == "" then 0 else 10 * Value(s[..|s| - 1]) + (s[|s| - 1] - '0') as nat
  }

  lemma {:induction false} DecimalReadsBack(n: nat)
    ensures Value(Decimal(n)) == n
  {
    var s := Decimal(n);
    if n >= 10 {
      DecimalReadsBack(n / 10);
      assert s[..|s| - 1] == Decimal(n / 10);
    } else {
      assert s[..|s| - 1] == "";
    }
  }

  predicate StartsAfterDigits(rest: string) {
    rest == "" || rest[0] == '-'
  }

  lemma DigitsEndAtTheDash(a: nat, ra: string, b: nat, rb: string)
    requires StartsAfterDigits(ra) && |Decimal(a)| < |Decimal(b)|
    ensures Decimal(a) + ra != Decimal(b) + rb
  {
    if ra != "" {
      assert (Decimal(a) + ra)[|Decimal(a)|] == '-';
      assert (Decimal(b) + rb)[|Decimal(a)|] == Decimal(b)[|Decimal(a)|];
    } else {
      assert |Decimal(a) + ra| < |Decimal(b) + rb|;
    }
  }

  lemma NumberThenDash(a: nat, ra: string, b: nat, rb: string)
    requires StartsAfterDigits(ra) && StartsAfterDigits(rb)
    requires Decimal(a) + ra == Decimal(b) + rb
    ensures a == b && ra == rb
  {
    hide Decimal;
    if |Decimal(a)| < |Decimal(b)| {
      DigitsEndAtTheDash(a, ra, b, rb);
    } else if |Decimal(b)| < |Decimal(a)| {
      DigitsEndAtTheDash(b, rb, a, ra);
    } else {
      var s := Decimal(a) + ra;
      assert Decimal(a) == s[..|Decimal(a)|] == Decimal(b);
      assert ra == s[|Decimal(a)|..] == rb;
      DecimalReadsBack(a);
      DecimalReadsBack(b);
    }
  }

  lemma TagsDiffer(s1: nat, a1: nat, s2: nat, a2: nat)
    requires Tag(s1, a1) == Tag(s2, a2)
    ensures s1 == s2 && a1 == a2
  {
    var head := "conflicted copy ";
    var r1 := if a1 == 0 then "" else "-" + Decimal(a1);
    var r2 := if a2 == 0 then "" else "-" + Decimal(a2);
    assert Tag(s1, a1)[|head|..] == Decimal(s1) + r1;
    assert Tag(s2, a2)[|head|..] == Decimal(s2) + r2;
    NumberThenDash(s1, r1, s2, r2);
    if a1 != 0 {
      assert r1[1..] == Decimal(a1) && r2[1..] == Decimal(a2);
      DecimalReadsBack(a1);
      DecimalReadsBack(a2);
    }
  }

  /** No two seconds and no two attempts give the same name. */
  lemma CopyNamesDiffer(path: string, s1: nat, a1: nat, s2: nat, a2: nat)
    requires CopyPath(path, s1, a1) == CopyPath(path, s2, a2)
    ensures s1 == s2 && a1 == a2
  {
    var c1, c2 := CopyPath(path, s1, a1), CopyPath(path, s2, a2);
    var t1, t2 := Tag(s1, a1), Tag(s2, a2);
    var from := if Extension(path).Some? then |SplitLast(path, '.').value.0| + 2 else |path| + 2;
    var tail := if Extension(path).Some? then |")."| + |Extension(path).value| else 1;
    assert c1[from..|c1| - tail] == t1;
    assert c2[from..|c2| - tail] == t2;
    TagsDiffer(s1, a1, s2, a2);
  }
}

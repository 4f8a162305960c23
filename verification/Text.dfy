/** Searching, joining and replacing in strings. */
module Text {
  predicate Contains(s: string, part: string) {
    exists k :: 0 <= k <= |s| - |part| && s[k..][..|part|] == part
  }

  /** A part is contained where some text stands before and after it. */
  lemma ContainsIff(s: string, part: string)
    ensures Contains(s, part) <==> exists a: string, b: string :: s == a + part + b
  {
    if Contains(s, part) {
      var k :| 0 <= k <= |s| - |part| && s[k..][..|part|] == part;
      assert s == s[..k] + part + s[k + |part|..];
    }
    if a: string, b: string :| s == a + part + b {
      assert s[|a|..][..|part|] == part;
    }
  }

  /** `join` */
  function Join(parts: seq<string>, separator: string): string {
    if parts == [] then "" else if |parts| == 1 then parts[0] else parts[0] + separator + Join(parts[1..], separator)
  }

  /** A separator stands between any two neighbours, and nothing else is added. */
  lemma {:induction false} JoinIs(parts: seq<string>, more: seq<string>, x: string, separator: string)
    ensures Join([], separator) == "" && Join([x], separator) == x
    ensures parts != [] && more != [] ==>
              Join(parts + more, separator) == Join(parts, separator) + separator + Join(more, separator)
    decreases |parts|
  {
    if |parts| > 1 && more != [] {
      assert (parts + more)[1..] == parts[1..] + more;
      JoinIs(parts[1..], more, x, separator);
      Regroup(parts[0] + separator, Join(parts[1..], separator), separator, Join(more, separator));
    } else if |parts| == 1 && more != [] {
      assert (parts + more)[1..] == more;
    }
  }

  lemma Regroup(a: string, b: string, c: string, d: string)
    ensures a + (b + c + d) == (a + b) + c + d
  {
  }

  /** `str::replace`: leftmost, non-overlapping, in one pass. */
  function Replace(s: string, from: string, to: string): string
    requires from != ""
  {
    if s == "" then ""
    else if from <= s then to + Replace(s[|from|..], from, to)
    else [s[0]] + Replace(s[1..], from, to)
  }

  lemma {:induction false} ReplaceAbsent(s: string, target: string, replacement: string)
    requires target != "" && !Contains(s, target)
    ensures Replace(s, target, replacement) == s
  {
    if s != "" {
      NotAtStart(s, target);
      NotInTail(s, target);
      ReplaceAbsent(s[1..], target, replacement);
    }
  }

  lemma NotAtStart(s: string, target: string)
    requires !Contains(s, target)
    ensures !(target <= s)
  {
    if |target| <= |s| {
      assert s[0..][..|target|] == s[..|target|];
    }
  }

  lemma NotInTail(s: string, target: string)
    requires !Contains(s, target) && s != ""
    ensures !Contains(s[1..], target)
  {
    forall k | 0 <= k <= |s[1..]| - |target|
      ensures s[1..][k..][..|target|] != target
    {
      assert s[1..][k..] == s[k + 1..];
    }
  }

  /** No occurrence of the target starts within `x` when the target follows it. */
  predicate Before(x: string, target: string)
    requires target != ""
  {
    !Contains(x + target[..|target|-1], target)
  }

  lemma ReplaceHit(target: string, y: string, replacement: string)
    requires target != ""
    ensures Replace(target + y, target, replacement) == replacement + Replace(y, target, replacement)
  {
    assert (target + y)[|target|..] == y;
  }

  lemma TailBefore(x: string, target: string, y: string)
    requires target != "" && x != "" && Before(x, target)
    ensures Before(x[1..], target) && !(target <= x + target + y)
  {
    var z := x + target[..|target|-1];
    NotAtStart(z, target);
    NotInTail(z, target);
    assert z[1..] == x[1..] + target[..|target|-1];
    assert (x + target + y)[..|target|] == z[..|target|];
  }

  /** The first occurrence gives way to the replacement, and the search goes on behind it. */
  lemma {:induction false} ReplaceFirst(x: string, target: string, y: string, replacement: string)
    requires target != "" && Before(x, target)
    ensures Replace(x + target + y, target, replacement) == x + replacement + Replace(y, target, replacement)
    decreases |x|
  {
    if x == "" {
      assert x + target + y == target + y;
      ReplaceHit(target, y, replacement);
    } else {
      TailBefore(x, target, y);
      ReplaceFirst(x[1..], target, y, replacement);
      assert (x + target + y)[1..] == x[1..] + target + y;
      assert x == [x[0]] + x[1..];
    }
  }

  /** The pieces of a text between the occurrences of a target, read from the left. */
  predicate Pieces(parts: seq<string>, target: string)
    requires target != ""
  {
    && parts != []
    && (forall i :: 0 <= i < |parts| - 1 ==> Before(parts[i], target))
    && !Contains(parts[|parts|-1], target)
  }

  /** Replacing joins the pieces with the replacement instead of the target. */
  lemma {:induction false} ReplaceJoins(parts: seq<string>, target: string, replacement: string)
    requires target != "" && Pieces(parts, target)
    ensures Replace(Join(parts, target), target, replacement) == Join(parts, replacement)
    decreases |parts|
  {
    if |parts| == 1 {
      ReplaceAbsent(parts[0], target, replacement);
    } else {
      ReplaceFirst(parts[0], target, Join(parts[1..], target), replacement);
      ReplaceJoins(parts[1..], target, replacement);
    }
  }

  lemma {:induction false} FirstOccurrence(s: string, target: string, from: nat) returns (k: nat)
    requires target != "" && from <= |s| && Contains(s, target)
    requires forall j :: 0 <= j < from && j <= |s| - |target| ==> s[j..][..|target|] != target
    ensures k <= |s| - |target| && s[k..][..|target|] == target
    ensures forall j :: 0 <= j < k ==> s[j..][..|target|] != target
    decreases |s| - from
  {
    if from <= |s| - |target| && s[from..][..|target|] == target {
      k := from;
    } else {
      var j :| 0 <= j <= |s| - |target| && s[j..][..|target|] == target;
      k := FirstOccurrence(s, target, from + 1);
    }
  }

  lemma NoneBefore(s: string, target: string, k: nat)
    requires target != "" && k <= |s| - |target| && s[k..][..|target|] == target
    requires forall j :: 0 <= j < k ==> s[j..][..|target|] != target
    ensures Before(s[..k], target)
  {
    var z := s[..k] + target[..|target|-1];
    assert z == s[..k + |target| - 1] by {
      assert target[..|target|-1] == s[k..k + |target| - 1];
    }
    forall j | 0 <= j <= |z| - |target|
      ensures z[j..][..|target|] != target
    {
      assert z[j..][..|target|] == s[j..][..|target|];
    }
  }

  lemma CutOut(s: string, target: string, k: nat)
    requires k <= |s| - |target| && s[k..][..|target|] == target
    ensures s == s[..k] + target + s[k + |target|..]
  {
    assert s[k..] == target + s[k + |target|..];
  }

  lemma MorePieces(x: string, rest: seq<string>, target: string)
    requires target != "" && Before(x, target) && Pieces(rest, target)
    ensures Pieces([x] + rest, target) && Join([x] + rest, target) == x + target + Join(rest, target)
  {
    var parts := [x] + rest;
    assert parts[1..] == rest && parts[|parts|-1] == rest[|rest|-1];
    forall i | 0 <= i < |parts| - 1
      ensures Before(parts[i], target)
    {
      assert i > 0 ==> parts[i] == rest[i-1];
    }
  }

  /** Every text has such pieces. */
  lemma {:induction false} PiecesOf(s: string, target: string) returns (parts: seq<string>)
    requires target != ""
    ensures Pieces(parts, target) && Join(parts, target) == s
    decreases |s|
  {
    if Contains(s, target) {
      var k := FirstOccurrence(s, target, 0);
      var rest := PiecesOf(s[k + |target|..], target);
      NoneBefore(s, target, k);
      CutOut(s, target, k);
      MorePieces(s[..k], rest, target);
      parts := [s[..k]] + rest;
    } else {
      parts := [s];
    }
  }
}

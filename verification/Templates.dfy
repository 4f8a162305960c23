/** Payload substitution in request templates.

    A position named `n` is marked by `§n§`.  The generators replace the markers of one position
    after the other with `str::replace`; what a user means is one simultaneous substitution of all
    markers.  The two agree when markers do not share a `§` and no replacement can build a new
    marker out of the text around it. */
module Templates {
  import opened Text

  const MARK: char := '\U{00A7}'

  predicate Plain(s: string) {
    MARK !in s
  }

  function Marker(name: string): (m: string) {
    [MARK] + name + [MARK]
  }

  /** A marker is a name between section signs. */
  lemma MarkerIs(name: string)
    ensures Marker(name) == "\U{00A7}" + name + "\U{00A7}"
  {
  }

  /** One `replace` call for each (name, payload), in order. */
  function Chain(s: string, subs: seq<(string, string)>): string
    decreases |subs|
  {
    if subs == [] then s else Chain(Replace(s, Marker(subs[0].0), subs[0].1), subs[1..])
  }

  // The reference: all markers at once

  function UpToMark(s: string): (g: string)
    ensures g <= s && Plain(g) && (|g| < |s| ==> s[|g|] == MARK)
  {
    if s == "" || s[0] == MARK then "" else [s[0]] + UpToMark(s[1..])
  }

  /** Every marker of a name in `a`, read from the left, gives way to its payload; all other text stays. */
  function Substitute(s: string, a: map<string, string>): string
    decreases |s|
  {
    if s == "" then ""
    else
      var name := UpToMark(s[1..]);
      if s[0] == MARK && |name| + 1 < |s| && name in a then a[name] + Substitute(s[|name| + 2..], a)
      else [s[0]] + Substitute(s[1..], a)
  }

  /** The payload each name gets from a chain of replacements: the first one listed. */
  function FirstWins(subs: seq<(string, string)>): map<string, string> {
    if subs == [] then map[] else FirstWins(subs[1..])[subs[0].0 := subs[0].1]
  }

  // ---------------------------------------------------------------------------------------------
  // Templates as the texts between their marks

  function Split(s: string): (gaps: seq<string>)
    ensures gaps != [] && forall i :: 0 <= i < |gaps| ==> Plain(gaps[i])
    ensures gaps[0] == UpToMark(s)
  {
    if s == "" then [""]
    else if s[0] == MARK then [""] + Split(s[1..])
    else var rest := Split(s[1..]); [[s[0]] + rest[0]] + rest[1..]
  }

  function Unsplit(gaps: seq<string>): string
    requires gaps != []
  {
    if |gaps| == 1 then gaps[0] else gaps[0] + [MARK] + Unsplit(gaps[1..])
  }

  lemma {:induction false} UnsplitSplit(s: string)
    ensures Unsplit(Split(s)) == s
  {
    if s != "" {
      UnsplitSplit(s[1..]);
      var rest := Split(s[1..]);
      if s[0] != MARK && |rest| > 1 {
        assert Split(s)[1..] == rest[1..];
      } else if s[0] == MARK {
        assert Split(s)[1..] == rest;
      }
    }
  }

  ghost predicate Occurs(x: string, n: string) {
    exists k: nat :: OccursAt(x, n, k)
  }

  predicate OccursAt(x: string, n: string, k: nat) {
    k + |x| <= |n| && n[k..k + |x|] == x
  }

  /** `x` is part of no name, so no text holding `x` is a name. */
  ghost predicate Foreign(x: string, a: map<string, string>) {
    forall n :: n in a ==> !Occurs(x, n)
  }

  /** Wherever a replacement would join the texts on both sides of a marker into a text that is itself
      enclosed in marks, one of the three pieces is part of no name. */
  ghost predicate Unjoinable(template: string, a: map<string, string>) {
    var g := Split(template);
    forall i :: 2 <= i < |g| - 2 && g[i] in a ==> Foreign(g[i-1], a) || Foreign(a[g[i]], a) || Foreign(g[i+1], a)
  }

  /** The condition on a template: no two markers share a mark, and no replacement joins texts into a
      new marker. */
  ghost predicate Separable(template: string, a: map<string, string>) {
    var g := Split(template);
    Unjoinable(template, a) && forall i :: 1 <= i < |g| - 2 ==> !(g[i] in a && g[i+1] in a)
  }

  /** `Separable` on gaps, following the recursion of a pass over the template; `h` says whether the
      first gap has a mark on its left too. */
  ghost predicate Good(h: bool, g: seq<string>, a: map<string, string>)
    decreases |g|
  {
    if |g| < 3 then true
    else if g[1] !in a then Good(true, g[1..], a)
    else
      && (h ==> g[0] !in a)
      && (|g| > 3 ==> g[2] !in a)
      && (h && |g| > 3 ==> Foreign(g[0], a) || Foreign(a[g[1]], a) || Foreign(g[2], a))
      && Good(true, g[2..], a)
  }

  lemma {:induction false} SeparableIsGood(h: bool, g: seq<string>, a: map<string, string>)
    requires forall i :: (if h then 0 else 1) <= i < |g| - 2 ==> !(g[i] in a && g[i+1] in a)
    requires forall i :: (if h then 1 else 2) <= i < |g| - 2 && g[i] in a ==>
               Foreign(g[i-1], a) || Foreign(a[g[i]], a) || Foreign(g[i+1], a)
    ensures Good(h, g, a)
    decreases |g|
  {
    if |g| >= 3 {
      if g[1] !in a {
        SeparableIsGood(true, g[1..], a);
      } else {
        SeparableIsGood(true, g[2..], a);
      }
    }
  }

  // One pass over the gaps, for one name and for all names

  function PassOne(g: seq<string>, n: string, p: string): (r: seq<string>)
    requires g != []
    ensures r != [] && g[0] <= r[0]
    decreases |g|
  {
    if |g| < 3 then g
    else if g[1] == n then
      var r := PassOne(g[2..], n, p);
      [g[0] + p + r[0]] + r[1..]
    else [g[0]] + PassOne(g[1..], n, p)
  }

  function PassAll(g: seq<string>, a: map<string, string>): (r: seq<string>)
    requires g != []
    ensures r != [] && g[0] <= r[0]
    decreases |g|
  {
    if |g| < 3 then g
    else if g[1] in a then
      var r := PassAll(g[2..], a);
      [g[0] + a[g[1]] + r[0]] + r[1..]
    else [g[0]] + PassAll(g[1..], a)
  }

  lemma ForeignGrows(x: string, y: string, z: string, a: map<string, string>)
    requires Foreign(y, a)
    ensures Foreign(x + y + z, a) && x + y + z !in a
  {
    forall n | n in a
      ensures !Occurs(x + y + z, n)
    {
      if k: nat :| OccursAt(x + y + z, n, k) {
        var w := n[k..k + |x + y + z|];
        assert w[|x|..|x| + |y|] == y;
        assert forall i :: 0 <= i < |y| ==> n[k + |x| + i] == w[|x| + i] == y[i];
        assert OccursAt(y, n, k + |x|);
      }
    }
    assert OccursAt(x + y + z, x + y + z, 0);
  }

  /** A longer first gap made of foreign text keeps a template good. */
  lemma GoodHead(h: bool, x: string, g: seq<string>, a: map<string, string>)
    requires g != [] && Good(true, g, a)
    requires h && |g| > 1 ==> Foreign(x, a)
    ensures Good(h, [x] + g[1..], a)
  {
    var g' := [x] + g[1..];
    if |g| >= 3 {
      assert g'[1..] == [x][1..] + g[1..] == g[1..];
      assert g'[2..] == g[2..];
      if h {
        ForeignGrows("", x, "", a);
        assert "" + x + "" == x;
      }
    }
  }

  lemma {:induction false} PassAllHead(x: string, g: seq<string>, a: map<string, string>)
    requires g != []
    ensures PassAll([x + g[0]] + g[1..], a) == [x + PassAll(g, a)[0]] + PassAll(g, a)[1..]
  {
    var g' := [x + g[0]] + g[1..];
    if |g| >= 3 {
      assert g'[1..] == g[1..] && g'[2..] == g[2..];
      if g[1] in a {
        var r := PassAll(g[2..], a);
        assert x + g[0] + a[g[1]] + r[0] == x + (g[0] + a[g[1]] + r[0]);
      }
    }
  }

  /** The step: replacing the markers of `n` leaves a good template, whose remaining markers,
      substituted at once, give what all markers substituted at once give. */
  lemma {:induction false} PassOneThenRest(h: bool, g: seq<string>, a: map<string, string>, n: string,
                                           b: map<string, string>)
    requires g != [] && Good(h, g, a) && n in a
    requires b.Keys <= a.Keys <= b.Keys + {n} && forall m :: m in b && m != n ==> b[m] == a[m]
    ensures Good(h, PassOne(g, n, a[n]), b)
    ensures PassAll(PassOne(g, n, a[n]), b) == PassAll(g, a)
    decreases |g|
  {
    var p := a[n];
    if |g| >= 3 {
      if g[1] == n {
        PassOneThenRest(true, g[2..], a, n, b);
        MergeKeepsGood(h, g, a, n, b);
        var r := PassOne(g[2..], n, p);
        PassAllHead(g[0] + p, r, b);
      } else if g[1] in a {
        PassOneThenRest(true, g[2..], a, n, b);
        SkipMarker(h, g, a, n, b);
      } else {
        PassOneThenRest(true, g[1..], a, n, b);
        SkipText(h, g, a, n, b);
      }
    }
  }

  lemma {:induction false} PassOneLength(g: seq<string>, n: string, p: string)
    requires g != []
    ensures |PassOne(g, n, p)| <= |g|
    decreases |g|
  {
    if |g| >= 3 {
      PassOneLength(g[1..], n, p);
      PassOneLength(g[2..], n, p);
    }
  }

  /** The gap that replaces a marker is foreign if one of its three pieces was. */
  lemma MergedIsForeign(x: string, p: string, y: string, r: string, a: map<string, string>)
    requires y <= r && (Foreign(x, a) || Foreign(p, a) || Foreign(y, a))
    ensures Foreign(x + p + r, a) && x + p + r !in a
  {
    if Foreign(x, a) {
      ForeignGrows("", x, p + r, a);
      assert "" + x + (p + r) == x + p + r;
    } else if Foreign(p, a) {
      ForeignGrows(x, p, r, a);
    } else {
      var tail := r[|y|..];
      ForeignGrows(x + p, y, tail, a);
      assert r == y + tail;
      assert x + p + y + tail == x + p + r;
    }
  }

  lemma MergeKeepsGood(h: bool, g: seq<string>, a: map<string, string>, n: string, b: map<string, string>)
    requires |g| >= 3 && Good(h, g, a) && n in a && g[1] == n && b.Keys <= a.Keys
    requires Good(true, PassOne(g[2..], n, a[n]), b)
    ensures Good(h, PassOne(g, n, a[n]), b)
  {
    var r := PassOne(g[2..], n, a[n]);
    if h && |r| > 1 {
      PassOneLength(g[2..], n, a[n]);
      MergedIsForeign(g[0], a[n], g[2], r[0], a);
    }
    GoodHead(h, g[0] + a[n] + r[0], r, b);
  }

  /** After a pass, a first gap that still has a mark on its right is as it was, or foreign. */
  lemma HeadAfterPass(g: seq<string>, a: map<string, string>, n: string)
    requires g != [] && Good(true, g, a) && n in a
    ensures var r := PassOne(g, n, a[n]); |r| > 1 ==> r[0] == g[0] || (Foreign(r[0], a) && r[0] !in a)
  {
    if |g| >= 3 && g[1] == n {
      var r := PassOne(g[2..], n, a[n]);
      if |r| > 1 {
        PassOneLength(g[2..], n, a[n]);
        MergedIsForeign(g[0], a[n], g[2], r[0], a);
      }
    }
  }

  lemma SkipMarker(h: bool, g: seq<string>, a: map<string, string>, n: string, b: map<string, string>)
    requires |g| >= 3 && Good(h, g, a) && n in a && g[1] != n && g[1] in a
    requires b.Keys <= a.Keys <= b.Keys + {n} && forall m :: m in b && m != n ==> b[m] == a[m]
    requires Good(true, PassOne(g[2..], n, a[n]), b) && PassAll(PassOne(g[2..], n, a[n]), b) == PassAll(g[2..], a)
    ensures Good(h, PassOne(g, n, a[n]), b) && PassAll(PassOne(g, n, a[n]), b) == PassAll(g, a)
  {
    var u := PassOne(g[2..], n, a[n]);
    PassOneSkips(g, n, a[n]);
    PassOneLength(g[2..], n, a[n]);
    HeadAfterPass(g[2..], a, n);
    SkipMarkerGood(h, g, a, n, b, u);
    SkipMarkerAll(g, a, b, u);
  }

  lemma PassOneSkips(g: seq<string>, n: string, p: string)
    requires |g| >= 3 && g[1] != n && (|g| > 3 ==> g[2] != n)
    ensures PassOne(g, n, p) == [g[0], g[1]] + PassOne(g[2..], n, p)
  {
  }

  lemma SkipMarkerAll(g: seq<string>, a: map<string, string>, b: map<string, string>, u: seq<string>)
    requires |g| >= 3 && u != [] && g[1] in a && g[1] in b && a[g[1]] == b[g[1]] && PassAll(u, b) == PassAll(g[2..], a)
    ensures PassAll([g[0], g[1]] + u, b) == PassAll(g, a)
  {
  }

  lemma SkipMarkerGood(h: bool, g: seq<string>, a: map<string, string>, n: string, b: map<string, string>,
                       u: seq<string>)
    requires |g| >= 3 && Good(h, g, a) && n in a && g[1] != n && g[1] in a
    requires b.Keys <= a.Keys <= b.Keys + {n} && forall m :: m in b && m != n ==> b[m] == a[m]
    requires u == PassOne(g[2..], n, a[n]) && |u| <= |g| - 2 && Good(true, u, b)
    requires |u| > 1 ==> u[0] == g[2] || (Foreign(u[0], a) && u[0] !in a)
    ensures Good(h, [g[0], g[1]] + u, b)
  {
  }

  lemma SkipText(h: bool, g: seq<string>, a: map<string, string>, n: string, b: map<string, string>)
    requires |g| >= 3 && Good(h, g, a) && n in a && g[1] !in a && b.Keys <= a.Keys
    requires Good(true, PassOne(g[1..], n, a[n]), b) && PassAll(PassOne(g[1..], n, a[n]), b) == PassAll(g[1..], a)
    ensures Good(h, PassOne(g, n, a[n]), b) && PassAll(PassOne(g, n, a[n]), b) == PassAll(g, a)
  {
    var t := PassOne(g[1..], n, a[n]);
    var r := PassOne(g, n, a[n]);
    assert r == [g[0]] + t && r[1..] == t;
    HeadAfterPass(g[1..], a, n);
    if |t| == 1 {
      assert PassAll(t, b) == t;
      assert |g| == 3 || PassAll(g[1..], a) == t;
    }
  }

  lemma {:induction false} PassAllEmpty(g: seq<string>)
    requires g != []
    ensures PassAll(g, map[]) == g
    decreases |g|
  {
    if |g| >= 3 {
      PassAllEmpty(g[1..]);
    }
  }

  lemma {:induction false} ChainOnGaps(g: seq<string>, subs: seq<(string, string)>)
    requires g != [] && Good(false, g, FirstWins(subs))
    ensures ChainPass(g, subs) == PassAll(g, FirstWins(subs))
    decreases |subs|
  {
    if subs == [] {
      PassAllEmpty(g);
    } else {
      PassOneThenRest(false, g, FirstWins(subs), subs[0].0, FirstWins(subs[1..]));
      ChainOnGaps(PassOne(g, subs[0].0, subs[0].1), subs[1..]);
    }
  }

  function ChainPass(g: seq<string>, subs: seq<(string, string)>): (r: seq<string>)
    requires g != []
    ensures r != []
    decreases |subs|
  {
    if subs == [] then g else ChainPass(PassOne(g, subs[0].0, subs[0].1), subs[1..])
  }

  // ---------------------------------------------------------------------------------------------
  // From gaps back to strings

  ghost predicate PlainGaps(g: seq<string>) {
    g != [] && forall i :: 0 <= i < |g| ==> Plain(g[i])
  }

  lemma {:induction false} PassOnePlain(g: seq<string>, n: string, p: string)
    requires PlainGaps(g) && Plain(p)
    ensures PlainGaps(PassOne(g, n, p))
    decreases |g|
  {
    if |g| >= 3 {
      PassOnePlain(g[1..], n, p);
      PassOnePlain(g[2..], n, p);
    }
  }

  lemma UnsplitHead(x: string, g: seq<string>)
    requires g != []
    ensures Unsplit([x + g[0]] + g[1..]) == x + Unsplit(g)
  {
  }

  /** A plain text followed by a mark, or by the end, is what a scan up to the next mark finds. */
  lemma {:induction false} UpToMarkOf(x: string, rest: string)
    requires Plain(x) && (rest == "" || rest[0] == MARK)
    ensures UpToMark(x + rest) == x
  {
    if x != "" {
      assert (x + rest)[1..] == x[1..] + rest;
      UpToMarkOf(x[1..], rest);
    } else {
      assert x + rest == rest;
    }
  }

  lemma UpToMarkOfUnsplit(g: seq<string>)
    requires PlainGaps(g)
    ensures UpToMark(Unsplit(g)) == g[0]
  {
    if |g| > 1 {
      var rest := [MARK] + Unsplit(g[1..]);
      assert g[0] + [MARK] + Unsplit(g[1..]) == g[0] + rest;
      UpToMarkOf(g[0], rest);
    } else {
      UpToMarkOf(g[0], "");
      assert g[0] + "" == g[0];
    }
  }

  lemma MarkerSplits(u: string, n: string)
    requires Marker(n) <= [MARK] + u
    ensures |n| < |u| && u == n + ([MARK] + u[|n| + 1..])
  {
    var s := [MARK] + u;
    assert s == Marker(n) + s[|n| + 2..];
    assert s[1..] == Marker(n)[1..] + s[|n| + 2..];
    assert Marker(n)[1..] == n + [MARK] && s[1..] == u;
  }

  lemma MarkerEnds(u: string, n: string)
    requires Plain(n) && |n| < |u| && u == n + ([MARK] + u[|n| + 1..])
    ensures UpToMark(u) == n
  {
    UpToMarkOf(n, [MARK] + u[|n| + 1..]);
  }

  lemma MarkerStarts(u: string, n: string)
    requires n <= u && |n| < |u| && u[|n|] == MARK
    ensures Marker(n) <= [MARK] + u
  {
    assert u == n + [MARK] + u[|n| + 1..];
    assert [MARK] + u == Marker(n) + u[|n| + 1..];
  }

  /** Where the marker of a plain name starts in a text `u` that follows a mark. */
  lemma MarkerAtMark(u: string, n: string)
    requires Plain(n)
    ensures Marker(n) <= [MARK] + u <==> |UpToMark(u)| < |u| && UpToMark(u) == n
  {
    if |UpToMark(u)| < |u| && UpToMark(u) == n {
      MarkerStarts(u, n);
    }
    if Marker(n) <= [MARK] + u {
      MarkerSplits(u, n);
      MarkerEnds(u, n);
    }
  }

  /** One character of the first gap, or one mark, taken off a text. */
  lemma PeelCharacter(g: seq<string>) returns (g': seq<string>)
    requires PlainGaps(g) && g[0] != ""
    ensures g' == [g[0][1..]] + g[1..] && PlainGaps(g') && g == [g[0][..1] + g'[0]] + g'[1..]
    ensures Unsplit(g) == [g[0][0]] + Unsplit(g') && g[0][0] != MARK
  {
    g' := [g[0][1..]] + g[1..];
    assert g[0] == g[0][..1] + g'[0] && g'[1..] == g[1..];
    assert g == [g[0][..1] + g'[0]] + g'[1..];
    UnsplitHead(g[0][..1], g');
    assert g[0][..1] == [g[0][0]];
  }

  lemma PeelMark(g: seq<string>)
    requires PlainGaps(g) && |g| > 1 && g[0] == ""
    ensures Unsplit(g) == [MARK] + Unsplit(g[1..]) && UpToMark(Unsplit(g[1..])) == g[1]
    ensures |g| > 2 <==> |g[1]| < |Unsplit(g[1..])|
    ensures |g| > 2 ==> Unsplit(g)[|g[1]| + 2..] == Unsplit(g[2..])
  {
    var t := g[1..];
    assert g[0] + [MARK] + Unsplit(t) == [MARK] + Unsplit(t);
    UpToMarkOfUnsplit(t);
    if |g| > 2 {
      assert t[1..] == g[2..];
      assert Unsplit(t) == g[1] + [MARK] + Unsplit(g[2..]);
      assert [MARK] + (g[1] + [MARK] + Unsplit(g[2..])) == Marker(g[1]) + Unsplit(g[2..]);
    }
  }

  lemma {:induction false} ReplaceIsPassOne(g: seq<string>, n: string, p: string)
    requires PlainGaps(g) && Plain(n)
    ensures Replace(Unsplit(g), Marker(n), p) == Unsplit(PassOne(g, n, p))
    decreases |g|, |g[0]|
  {
    if g[0] != "" {
      var g' := ReplaceCharacter(g, n, p);
      ReplaceIsPassOne(g', n, p);
    } else if |g| > 2 && g[1] == n {
      ReplaceMarker(g, n, p);
      ReplaceIsPassOne(g[2..], n, p);
    } else if |g| > 1 {
      ReplaceMark(g, n, p);
      PassOneText(g, n, p);
      ReplaceIsPassOne(g[1..], n, p);
    }
  }

  lemma ReplaceCharacter(g: seq<string>, n: string, p: string) returns (g': seq<string>)
    requires PlainGaps(g) && g[0] != ""
    ensures g' == [g[0][1..]] + g[1..] && PlainGaps(g')
    ensures Replace(Unsplit(g), Marker(n), p) == g[0][..1] + Replace(Unsplit(g'), Marker(n), p)
    ensures Unsplit(PassOne(g, n, p)) == g[0][..1] + Unsplit(PassOne(g', n, p))
  {
    g' := PeelCharacter(g);
    PassOneHead(g[0][..1], g', n, p);
    UnsplitHead(g[0][..1], PassOne(g', n, p));
    assert g[0][..1] == [g[0][0]] && Unsplit(g)[1..] == Unsplit(g');
    assert !(Marker(n) <= Unsplit(g)) by {
      assert Marker(n)[0] != Unsplit(g)[0];
    }
  }

  lemma ReplaceMarker(g: seq<string>, n: string, p: string)
    requires PlainGaps(g) && Plain(n) && g[0] == "" && |g| > 2 && g[1] == n
    ensures Replace(Unsplit(g), Marker(n), p) == p + Replace(Unsplit(g[2..]), Marker(n), p)
    ensures Unsplit(PassOne(g, n, p)) == p + Unsplit(PassOne(g[2..], n, p))
  {
    PeelMark(g);
    MarkerAtMark(Unsplit(g[1..]), n);
    var r := PassOne(g[2..], n, p);
    UnsplitHead(p, r);
    assert g[0] + p == p;
  }

  lemma ReplaceMark(g: seq<string>, n: string, p: string)
    requires PlainGaps(g) && Plain(n) && g[0] == "" && |g| > 1 && (|g| > 2 ==> g[1] != n)
    ensures Replace(Unsplit(g), Marker(n), p) == [MARK] + Replace(Unsplit(g[1..]), Marker(n), p)
  {
    PeelMark(g);
    MarkerAtMark(Unsplit(g[1..]), n);
    assert Unsplit(g)[1..] == Unsplit(g[1..]);
  }

  lemma PassOneText(g: seq<string>, n: string, p: string)
    requires |g| > 1 && g[0] == "" && (|g| > 2 ==> g[1] != n)
    ensures Unsplit(PassOne(g, n, p)) == [MARK] + Unsplit(PassOne(g[1..], n, p))
  {
  }

  lemma PassAllText(g: seq<string>, a: map<string, string>)
    requires |g| > 1 && g[0] == "" && (|g| > 2 ==> g[1] !in a)
    ensures Unsplit(PassAll(g, a)) == [MARK] + Unsplit(PassAll(g[1..], a))
  {
  }

  lemma {:induction false} PassOneHead(x: string, g: seq<string>, n: string, p: string)
    requires g != []
    ensures PassOne([x + g[0]] + g[1..], n, p) == [x + PassOne(g, n, p)[0]] + PassOne(g, n, p)[1..]
  {
    var g' := [x + g[0]] + g[1..];
    if |g| >= 3 {
      assert g'[1..] == g[1..] && g'[2..] == g[2..];
      if g[1] == n {
        var r := PassOne(g[2..], n, p);
        assert x + g[0] + p + r[0] == x + (g[0] + p + r[0]);
      }
    }
  }

  lemma {:induction false} SubstituteIsPassAll(g: seq<string>, a: map<string, string>)
    requires PlainGaps(g)
    ensures Substitute(Unsplit(g), a) == Unsplit(PassAll(g, a))
    decreases |g|, |g[0]|
  {
    if g[0] != "" {
      var g' := SubstituteCharacter(g, a);
      SubstituteIsPassAll(g', a);
    } else if |g| > 2 && g[1] in a {
      SubstituteMarker(g, a);
      SubstituteIsPassAll(g[2..], a);
    } else if |g| > 1 {
      SubstituteMark(g, a);
      PassAllText(g, a);
      SubstituteIsPassAll(g[1..], a);
    }
  }

  lemma SubstituteCharacter(g: seq<string>, a: map<string, string>) returns (g': seq<string>)
    requires PlainGaps(g) && g[0] != ""
    ensures g' == [g[0][1..]] + g[1..] && PlainGaps(g')
    ensures Substitute(Unsplit(g), a) == g[0][..1] + Substitute(Unsplit(g'), a)
    ensures Unsplit(PassAll(g, a)) == g[0][..1] + Unsplit(PassAll(g', a))
  {
    g' := PeelCharacter(g);
    PassAllHead(g[0][..1], g', a);
    UnsplitHead(g[0][..1], PassAll(g', a));
    assert g[0][..1] == [g[0][0]] && Unsplit(g)[1..] == Unsplit(g');
  }

  lemma SubstituteMarker(g: seq<string>, a: map<string, string>)
    requires PlainGaps(g) && g[0] == "" && |g| > 2 && g[1] in a
    ensures Substitute(Unsplit(g), a) == a[g[1]] + Substitute(Unsplit(g[2..]), a)
    ensures Unsplit(PassAll(g, a)) == a[g[1]] + Unsplit(PassAll(g[2..], a))
  {
    PeelMark(g);
    assert Unsplit(g)[1..] == Unsplit(g[1..]);
    var r := PassAll(g[2..], a);
    UnsplitHead(a[g[1]], r);
    assert g[0] + a[g[1]] == a[g[1]];
  }

  lemma SubstituteMark(g: seq<string>, a: map<string, string>)
    requires PlainGaps(g) && g[0] == "" && |g| > 1 && (|g| > 2 ==> g[1] !in a)
    ensures Substitute(Unsplit(g), a) == [MARK] + Substitute(Unsplit(g[1..]), a)
  {
    PeelMark(g);
    assert Unsplit(g)[1..] == Unsplit(g[1..]);
  }

  ghost predicate PlainSubs(subs: seq<(string, string)>) {
    forall i :: 0 <= i < |subs| ==> Plain(subs[i].0) && Plain(subs[i].1)
  }

  lemma {:induction false} ChainIsChainPass(g: seq<string>, subs: seq<(string, string)>)
    requires PlainGaps(g) && PlainSubs(subs)
    ensures Chain(Unsplit(g), subs) == Unsplit(ChainPass(g, subs))
    decreases |subs|
  {
    if subs != [] {
      ReplaceIsPassOne(g, subs[0].0, subs[0].1);
      PassOnePlain(g, subs[0].0, subs[0].1);
      ChainIsChainPass(PassOne(g, subs[0].0, subs[0].1), subs[1..]);
    }
  }

  /** The main result: on a separable template, the chain of `replace` calls is one simultaneous
      substitution of all markers; a name listed twice keeps its first payload. */
  lemma ChainIsSubstitution(template: string, subs: seq<(string, string)>)
    requires PlainSubs(subs) && Separable(template, FirstWins(subs))
    ensures Chain(template, subs) == Substitute(template, FirstWins(subs))
  {
    var g := Split(template);
    UnsplitSplit(template);
    SeparableIsGood(false, g, FirstWins(subs));
    ChainIsChainPass(g, subs);
    ChainOnGaps(g, subs);
    SubstituteIsPassAll(g, FirstWins(subs));
  }

  /** Hence the order of the positions does not matter. */
  lemma OrderIrrelevant(template: string, subs: seq<(string, string)>, others: seq<(string, string)>)
    requires PlainSubs(subs) && PlainSubs(others) && FirstWins(subs) == FirstWins(others)
    requires Separable(template, FirstWins(subs))
    ensures Chain(template, subs) == Chain(template, others)
  {
    ChainIsSubstitution(template, subs);
    ChainIsSubstitution(template, others);
  }

  /** A condition that can be read off the template: between any two marks stands a name, or a text
      with a character that no name uses, and two names never stand next to each other. */
  lemma ForeignCharactersSeparate(template: string, a: map<string, string>)
    requires var g := Split(template);
      && (forall i :: 1 <= i < |g| - 2 ==> !(g[i] in a && g[i+1] in a))
      && (forall i :: 1 <= i < |g| - 1 && g[i] !in a ==> exists c :: c in g[i] && forall n :: n in a ==> c !in n)
    ensures Separable(template, a)
  {
  }
}

/** When the order of the replacements shows.

    Where no replacement can make a new marker the answer is exact: the chain of `replace` calls
    depends on the order of the positions if and only if some marker that is replaced shares its
    second mark with a marker of another name. */
module Orders {
  import opened Templates

  /** A list of replacements that gives every name of `a` its payload, in some order. */
  predicate OrderOf(subs: seq<(string, string)>, a: map<string, string>) {
    && PartOf(subs, a)
    && forall n :: n in a ==> Lists(subs, n)
  }

  predicate PartOf(subs: seq<(string, string)>, a: map<string, string>) {
    forall i :: 0 <= i < |subs| ==> subs[i].0 in a && a[subs[i].0] == subs[i].1
  }

  predicate Lists(subs: seq<(string, string)>, n: string) {
    exists i :: 0 <= i < |subs| && subs[i].0 == n
  }

  /** No payload is part of a name. */
  ghost predicate ForeignPayloads(a: map<string, string>) {
    forall n :: n in a ==> Foreign(a[n], a)
  }

  ghost predicate PlainMap(a: map<string, string>) {
    forall n :: n in a ==> Plain(n) && Plain(a[n])
  }

  /** Reading from the left and skipping the second mark of each marker replaced, some marker is
      followed by a marker of another name that shares its mark. */
  predicate Clash(g: seq<string>, a: map<string, string>)
    decreases |g|
  {
    |g| > 3 && if g[1] in a then (g[2] in a && g[2] != g[1]) || Clash(g[2..], a) else Clash(g[1..], a)
  }

  /** The two names of the first clash. */
  function ClashingNames(g: seq<string>, a: map<string, string>): (names: (string, string))
    requires Clash(g, a)
    ensures names.0 in a && names.1 in a && names.0 != names.1
    decreases |g|
  {
    if g[1] !in a then ClashingNames(g[1..], a)
    else if g[2] in a && g[2] != g[1] then (g[1], g[2])
    else ClashingNames(g[2..], a)
  }

  // ---------------------------------------------------------------------------------------------
  // Templates on which no pass makes a new marker

  /** `Unjoinable` on gaps; `h` says whether the first gap has a mark on its left too. */
  ghost predicate Calm(h: bool, g: seq<string>, a: map<string, string>)
    decreases |g|
  {
    |g| >= 3 ==> (h && |g| > 3 && g[1] in a ==> AnyForeign(g[0], a[g[1]], g[2], a)) && Calm(true, g[1..], a)
  }

  ghost predicate AnyForeign(x: string, p: string, y: string, a: map<string, string>) {
    Foreign(x, a) || Foreign(p, a) || Foreign(y, a)
  }

  lemma {:induction false} UnjoinableIsCalm(h: bool, g: seq<string>, a: map<string, string>)
    requires forall i :: (if h then 1 else 2) <= i < |g| - 2 && g[i] in a ==> AnyForeign(g[i-1], a[g[i]], g[i+1], a)
    ensures Calm(h, g, a)
    decreases |g|
  {
    if |g| >= 3 {
      UnjoinableIsCalm(true, g[1..], a);
    }
  }

  lemma CalmAfterMarker(h: bool, g: seq<string>, a: map<string, string>)
    requires |g| >= 3 && Calm(h, g, a)
    ensures Calm(true, g[1..], a) && Calm(true, g[2..], a)
  {
    assert g[1..][1..] == g[2..];
  }

  lemma ForeignPrefix(y: string, r: string, a: map<string, string>)
    requires y <= r && Foreign(y, a)
    ensures Foreign(r, a)
  {
    ForeignGrows("", y, r[|y|..], a);
    assert "" + y + r[|y|..] == r;
  }

  /** A pass keeps the template calm. */
  lemma {:induction false} PassKeepsCalm(h: bool, g: seq<string>, n: string, a: map<string, string>)
    requires g != [] && n in a && Calm(h, g, a)
    ensures Calm(h, PassOne(g, n, a[n]), a)
    decreases |g|
  {
    if |g| >= 3 {
      CalmAfterMarker(h, g, a);
      if g[1] == n {
        PassKeepsCalm(true, g[2..], n, a);
        MergedIsCalm(h, g, n, a);
      } else {
        PassKeepsCalm(true, g[1..], n, a);
        KeptIsCalm(h, g, n, a);
      }
    }
  }

  lemma MergedIsCalm(h: bool, g: seq<string>, n: string, a: map<string, string>)
    requires |g| >= 3 && n in a && g[1] == n && Calm(h, g, a) && Calm(true, PassOne(g[2..], n, a[n]), a)
    ensures Calm(h, PassOne(g, n, a[n]), a)
  {
    var r := PassOne(g[2..], n, a[n]);
    var g' := [g[0] + a[n] + r[0]] + r[1..];
    assert g'[1..] == r[1..];
    PassOneLength(g[2..], n, a[n]);
    if h && |g'| > 3 {
      MergedIsForeign(g[0], a[n], g[2], r[0], a);
    }
  }

  lemma KeptIsCalm(h: bool, g: seq<string>, n: string, a: map<string, string>)
    requires |g| >= 3 && n in a && g[1] != n && Calm(h, g, a) && Calm(true, PassOne(g[1..], n, a[n]), a)
    ensures Calm(h, PassOne(g, n, a[n]), a)
  {
    var u := PassOne(g[1..], n, a[n]);
    assert PassOne(g, n, a[n]) == [g[0]] + u && ([g[0]] + u)[1..] == u;
    PassOneLength(g[1..], n, a[n]);
    if h && |u| > 2 && u[0] in a {
      TextHeadStays(g[1..], n, a);
      SecondGap(g[1..], n, a[n]);
      if Foreign(g[2], a) {
        ForeignPrefix(g[2], u[1], a);
      }
    }
  }

  /** A first gap that was no name is none after a pass, unless it has become the last. */
  lemma HeadStaysText(t: seq<string>, n: string, a: map<string, string>)
    requires t != [] && n in a && Calm(true, t, a) && (|t| > 1 ==> t[0] !in a)
    ensures var r := PassOne(t, n, a[n]); |r| > 1 ==> r[0] !in a
  {
    TextHeadStays(t, n, a);
  }

  lemma TextHeadStays(t: seq<string>, n: string, a: map<string, string>)
    requires t != [] && n in a && Calm(true, t, a)
    ensures var r := PassOne(t, n, a[n]); |r| > 1 ==> r[0] !in a || (r[0] == t[0] && (|t| >= 3 ==> t[1] != n))
  {
    if |t| >= 3 && t[1] == n {
      var r := PassOne(t[2..], n, a[n]);
      PassOneLength(t[2..], n, a[n]);
      if |r| > 1 {
        MergedIsForeign(t[0], a[n], t[2], r[0], a);
      }
    }
  }

  lemma SecondGap(t: seq<string>, n: string, p: string)
    requires |t| >= 2 && (|t| >= 3 ==> t[1] != n)
    ensures |PassOne(t, n, p)| >= 2 && t[1] <= PassOne(t, n, p)[1]
  {
  }

  // ---------------------------------------------------------------------------------------------
  // What a chain does to the first gaps

  /** A gap that is no name keeps its marks. */
  lemma {:induction false} ChainSkipsText(x: string, t: seq<string>, subs: seq<(string, string)>,
                                          a: map<string, string>)
    requires t != [] && (|t| > 1 ==> t[0] !in a) && PartOf(subs, a) && Calm(true, t, a)
    ensures ChainPass([x] + t, subs) == [x] + ChainPass(t, subs)
    decreases |subs|
  {
    if subs != [] {
      var n, p := subs[0].0, subs[0].1;
      HeadStaysText(t, n, a);
      PassKeepsCalm(true, t, n, a);
      assert ([x] + t)[1..] == t;
      assert PassOne([x] + t, n, p) == [x] + PassOne(t, n, p);
      ChainSkipsText(x, PassOne(t, n, p), subs[1..], a);
    }
  }

  /** Text put before the first gap. */
  function Joined(x: string, g: seq<string>): (r: seq<string>)
    requires g != []
    ensures r != [] && |r| == |g|
  {
    [x + g[0]] + g[1..]
  }

  lemma {:induction false} ChainOfJoined(x: string, g: seq<string>, subs: seq<(string, string)>)
    requires g != []
    ensures ChainPass(Joined(x, g), subs) == Joined(x, ChainPass(g, subs))
    decreases |subs|
  {
    if subs != [] {
      PassOneHead(x, g, subs[0].0, subs[0].1);
      ChainOfJoined(x, PassOne(g, subs[0].0, subs[0].1), subs[1..]);
    }
  }

  lemma PassSkipsMarker(x: string, m: string, u: seq<string>, n: string, a: map<string, string>)
    requires u != [] && n in a && n != m && Calm(true, u, a) && (|u| > 1 ==> u[0] !in a || u[0] == m)
    ensures PassOne([x, m] + u, n, a[n]) == [x, m] + PassOne(u, n, a[n])
    ensures var r := PassOne(u, n, a[n]); |r| > 1 ==> r[0] !in a || r[0] == m
  {
    var g := [x, m] + u;
    assert g[2..] == u;
    PassOneSkips(g, n, a[n]);
    PassOneLength(u, n, a[n]);
    TextHeadStays(u, n, a);
  }

  lemma PassTakesMarker(x: string, m: string, u: seq<string>, p: string)
    requires u != []
    ensures PassOne([x, m] + u, m, p) == Joined(x + p, PassOne(u, m, p))
  {
    assert ([x, m] + u)[2..] == u;
  }

  /** A marker without a clash is replaced when its turn comes, and nothing after it is affected. */
  lemma {:induction false} ChainTakesMarker(x: string, m: string, u: seq<string>, subs: seq<(string, string)>,
                                            a: map<string, string>)
    requires u != [] && m in a && PartOf(subs, a) && Calm(true, u, a) && Lists(subs, m)
    requires |u| > 1 ==> u[0] !in a || u[0] == m
    ensures ChainPass([x, m] + u, subs) == Joined(x + a[m], ChainPass(u, subs))
    decreases |subs|
  {
    var n, p := subs[0].0, subs[0].1;
    if n == m {
      PassTakesMarker(x, m, u, p);
      ChainOfJoined(x + p, PassOne(u, m, p), subs[1..]);
    } else {
      PassSkipsMarker(x, m, u, n, a);
      PassKeepsCalm(true, u, n, a);
      var i :| 0 <= i < |subs| && subs[i].0 == m;
      assert subs[1..][i-1].0 == m;
      ChainTakesMarker(x, m, PassOne(u, n, p), subs[1..], a);
    }
  }

  lemma {:induction false} ChainOfShort(g: seq<string>, subs: seq<(string, string)>)
    requires 0 < |g| < 3
    ensures ChainPass(g, subs) == g
    decreases |subs|
  {
    if subs != [] {
      ChainOfShort(g, subs[1..]);
    }
  }

  // ---------------------------------------------------------------------------------------------
  // Without a clash

  lemma {:induction false} NoClashNoOrder(h: bool, g: seq<string>, subs: seq<(string, string)>, a: map<string, string>)
    requires g != [] && OrderOf(subs, a) && Calm(h, g, a) && !Clash(g, a)
    ensures ChainPass(g, subs) == PassAll(g, a)
    decreases |g|
  {
    if |g| < 3 {
      ChainOfShort(g, subs);
    } else if g[1] in a {
      CalmAfterMarker(h, g, a);
      assert g == [g[0], g[1]] + g[2..];
      ChainTakesMarker(g[0], g[1], g[2..], subs, a);
      NoClashNoOrder(true, g[2..], subs, a);
    } else {
      assert g == [g[0]] + g[1..];
      ChainSkipsText(g[0], g[1..], subs, a);
      NoClashNoOrder(true, g[1..], subs, a);
    }
  }

  // ---------------------------------------------------------------------------------------------
  // With a clash

  lemma UnsplitText(x: string, t: seq<string>)
    requires t != []
    ensures Unsplit([x] + t) == x + ([MARK] + Unsplit(t))
  {
    assert ([x] + t)[1..] == t;
  }

  /** Replacing the second of two clashing markers first leaves the first one as text. */
  lemma SecondFirst(x: string, m: string, n: string, v: seq<string>, subs: seq<(string, string)>,
                    a: map<string, string>)
      returns (t: seq<string>)
    requires v != [] && m in a && n in a && m != n && PartOf(subs, a) && subs != [] && subs[0].0 == n
    requires Calm(true, [m, n] + v, a)
    ensures t != [] && ChainPass([x, m, n] + v, subs) == [x] + t
  {
    var g, p := [x, m, n] + v, a[n];
    var r := PassOne(v, n, p);
    var u := [m + p + r[0]] + r[1..];
    assert g[1..] == [m, n] + v && ([m, n] + v)[2..] == v;
    assert PassOne([m, n] + v, n, p) == u;
    assert PassOne(g, n, p) == [x] + u;
    TextHeadStays([m, n] + v, n, a);
    PassKeepsCalm(true, [m, n] + v, n, a);
    ChainSkipsText(x, u, subs[1..], a);
    t := ChainPass(u, subs[1..]);
  }

  /** A chain only adds to the end of the first gap. */
  lemma {:induction false} ChainKeepsHead(g: seq<string>, subs: seq<(string, string)>)
    requires g != []
    ensures g[0] <= ChainPass(g, subs)[0]
    decreases |subs|
  {
    if subs != [] {
      ChainKeepsHead(PassOne(g, subs[0].0, subs[0].1), subs[1..]);
    }
  }

  /** Replacing the first one first puts its payload there, and then the second name. */
  lemma FirstFirst(x: string, m: string, u: seq<string>, subs: seq<(string, string)>, a: map<string, string>)
      returns (t: seq<string>)
    requires u != [] && PartOf(subs, a) && subs != [] && subs[0].0 == m
    ensures t != [] && u[0] <= t[0] && ChainPass([x, m] + u, subs) == Joined(x + a[m], t)
  {
    PassTakesMarker(x, m, u, a[m]);
    var r := PassOne(u, m, a[m]);
    ChainOfJoined(x + a[m], r, subs[1..]);
    ChainKeepsHead(r, subs[1..]);
    t := ChainPass(r, subs[1..]);
  }

  lemma UnsplitStarts(g: seq<string>)
    requires g != []
    ensures g[0] <= Unsplit(g)
  {
  }

  lemma TextsDiffer(x: string, p: string, n: string, t: seq<string>, u: seq<string>)
    requires t != [] && u != [] && Plain(p) && Plain(n) && n <= t[0] && (p != "" || n != "")
    ensures Unsplit(Joined(x + p, t)) != Unsplit([x] + u)
  {
    UnsplitHead(x + p, t);
    UnsplitText(x, u);
    UnsplitStarts(t);
    var s, s' := x + p + Unsplit(t), x + ([MARK] + Unsplit(u));
    assert s'[|x|] == MARK;
    if p != "" {
      assert s[|x|] == p[0];
    } else {
      assert s[|x|] == Unsplit(t)[0] == n[0];
    }
  }

  /** A clash can be seen if the replacement or the name after it leaves some text. */
  predicate Visible(a: map<string, string>) {
    "" !in a || forall n :: n in a ==> a[n] != ""
  }

  lemma ClashHere(g: seq<string>, first: seq<(string, string)>, second: seq<(string, string)>, a: map<string, string>)
    requires |g| > 3 && g[1] in a && g[2] in a && g[1] != g[2] && PlainMap(a) && Visible(a) && Calm(true, g[1..], a)
    requires OrderOf(first, a) && first != [] && first[0].0 == g[1]
    requires OrderOf(second, a) && second != [] && second[0].0 == g[2]
    ensures Unsplit(ChainPass(g, first)) != Unsplit(ChainPass(g, second))
  {
    assert g == [g[0], g[1]] + g[2..] && g == [g[0], g[1], g[2]] + g[3..] && g[1..] == [g[1], g[2]] + g[3..];
    var t := FirstFirst(g[0], g[1], g[2..], first, a);
    var u := SecondFirst(g[0], g[1], g[2], g[3..], second, a);
    TextsDiffer(g[0], a[g[1]], g[2], t, u);
  }

  lemma {:induction false} ClashShows(h: bool, g: seq<string>, first: seq<(string, string)>,
                                      second: seq<(string, string)>, a: map<string, string>)
    requires Clash(g, a) && PlainMap(a) && Visible(a) && Calm(h, g, a)
    requires OrderOf(first, a) && first != [] && first[0].0 == ClashingNames(g, a).0
    requires OrderOf(second, a) && second != [] && second[0].0 == ClashingNames(g, a).1
    ensures Unsplit(ChainPass(g, first)) != Unsplit(ChainPass(g, second))
    decreases |g|
  {
    if g[1] !in a {
      ClashShows(true, g[1..], first, second, a);
      ShownAfterText(h, g, first, second, a);
    } else if g[2] in a && g[2] != g[1] {
      ClashHere(g, first, second, a);
    } else {
      CalmAfterMarker(h, g, a);
      ClashShows(true, g[2..], first, second, a);
      ShownAfterMarker(h, g, first, second, a);
    }
  }

  lemma ShownAfterText(h: bool, g: seq<string>, first: seq<(string, string)>, second: seq<(string, string)>,
                       a: map<string, string>)
    requires |g| > 3 && g[1] !in a && Calm(h, g, a) && PartOf(first, a) && PartOf(second, a)
    requires Unsplit(ChainPass(g[1..], first)) != Unsplit(ChainPass(g[1..], second))
    ensures Unsplit(ChainPass(g, first)) != Unsplit(ChainPass(g, second))
  {
    assert g == [g[0]] + g[1..];
    ChainSkipsText(g[0], g[1..], first, a);
    ChainSkipsText(g[0], g[1..], second, a);
    UnsplitText(g[0], ChainPass(g[1..], first));
    UnsplitText(g[0], ChainPass(g[1..], second));
    SameHead([MARK], Unsplit(ChainPass(g[1..], first)), Unsplit(ChainPass(g[1..], second)));
    SameHead(g[0], [MARK] + Unsplit(ChainPass(g[1..], first)), [MARK] + Unsplit(ChainPass(g[1..], second)));
  }

  lemma ShownAfterMarker(h: bool, g: seq<string>, first: seq<(string, string)>, second: seq<(string, string)>,
                         a: map<string, string>)
    requires |g| > 3 && g[1] in a && (g[2] !in a || g[2] == g[1]) && Calm(h, g, a)
    requires OrderOf(first, a) && OrderOf(second, a)
    requires Unsplit(ChainPass(g[2..], first)) != Unsplit(ChainPass(g[2..], second))
    ensures Unsplit(ChainPass(g, first)) != Unsplit(ChainPass(g, second))
  {
    var x, m, u := g[0], g[1], g[2..];
    assert g == [x, m] + u;
    CalmAfterMarker(h, g, a);
    ChainTakesMarker(x, m, u, first, a);
    ChainTakesMarker(x, m, u, second, a);
    UnsplitHead(x + a[m], ChainPass(u, first));
    UnsplitHead(x + a[m], ChainPass(u, second));
    SameHead(x + a[m], Unsplit(ChainPass(u, first)), Unsplit(ChainPass(u, second)));
  }

  lemma SameHead(x: string, s: string, t: string)
    requires s != t
    ensures x + s != x + t
  {
    assert (x + s)[|x|..] == s && (x + t)[|x|..] == t;
  }

  /** Some order that starts with a given name. */
  lemma {:induction false} OrderFrom(n: string, a: map<string, string>) returns (subs: seq<(string, string)>)
    requires n in a
    ensures OrderOf(subs, a) && subs != [] && subs[0].0 == n
    decreases |a|
  {
    var rest := a - {n};
    subs := [(n, a[n])];
    if m :| m in rest {
      assert a == rest[n := a[n]];
      var others := OrderFrom(m, rest);
      subs := subs + others;
      forall k | k in a
        ensures Lists(subs, k)
      {
        if k != n {
          var i :| 0 <= i < |others| && others[i].0 == k;
          assert subs[i + 1].0 == k;
        } else {
          assert subs[0].0 == k;
        }
      }
    } else {
      assert subs[0].0 == n;
      assert forall k :: k in a ==> k == n;
    }
  }

  // ---------------------------------------------------------------------------------------------
  // The condition is exact

  predicate OrderShows(template: string, a: map<string, string>, subs: seq<(string, string)>,
                       others: seq<(string, string)>)
  {
    OrderOf(subs, a) && OrderOf(others, a) && Chain(template, subs) != Chain(template, others)
  }

  lemma ChainOnTemplate(template: string, subs: seq<(string, string)>, a: map<string, string>)
    requires PlainMap(a) && OrderOf(subs, a)
    ensures Chain(template, subs) == Unsplit(ChainPass(Split(template), subs))
  {
    UnsplitSplit(template);
    ChainIsChainPass(Split(template), subs);
  }

  lemma NoClashIsSubstitution(template: string, a: map<string, string>, subs: seq<(string, string)>)
    requires PlainMap(a) && Unjoinable(template, a) && OrderOf(subs, a) && !Clash(Split(template), a)
    ensures Chain(template, subs) == Substitute(template, a)
  {
    UnsplitSplit(template);
    UnjoinableIsCalm(false, Split(template), a);
    ChainOnTemplate(template, subs, a);
    NoClashNoOrder(false, Split(template), subs, a);
    SubstituteIsPassAll(Split(template), a);
  }

  lemma ClashOrders(template: string, a: map<string, string>)
      returns (first: seq<(string, string)>, second: seq<(string, string)>)
    requires PlainMap(a) && Visible(a) && Unjoinable(template, a) && Clash(Split(template), a)
    ensures OrderShows(template, a, first, second)
  {
    var names := ClashingNames(Split(template), a);
    first := OrderFrom(names.0, a);
    second := OrderFrom(names.1, a);
    UnjoinableIsCalm(false, Split(template), a);
    ChainOnTemplate(template, first, a);
    ChainOnTemplate(template, second, a);
    ClashShows(false, Split(template), first, second, a);
  }

  /** On templates where no replacement makes a new marker: every order of the positions gives the
      simultaneous substitution exactly if no marker clashes with the next, and otherwise two orders
      differ.  Payloads may be empty if names are not, and may be part of names. */
  lemma OrderShowsIff(template: string, a: map<string, string>)
    requires PlainMap(a) && Visible(a) && Unjoinable(template, a)
    ensures (forall subs :: OrderOf(subs, a) ==> Chain(template, subs) == Substitute(template, a))
      <==> !Clash(Split(template), a)
    ensures (exists subs, others :: OrderShows(template, a, subs, others)) <==> Clash(Split(template), a)
  {
    if Clash(Split(template), a) {
      var first, second := ClashOrders(template, a);
      assert OrderShows(template, a, first, second);
    } else {
      forall subs | OrderOf(subs, a)
        ensures Chain(template, subs) == Substitute(template, a)
      {
        NoClashIsSubstitution(template, a, subs);
      }
    }
  }

  /** Payloads that are part of no name join nothing, on any template. */
  lemma ForeignPayloadsAreEnough(template: string, a: map<string, string>)
    requires ForeignPayloads(a)
    ensures Unjoinable(template, a) && Visible(a)
  {
    if "" in a {
      forall n | n in a
        ensures a[n] != ""
      {
        assert OccursAt("", n, 0);
      }
    }
  }

  /** Separable templates have no clash. */
  lemma SeparableHasNoClash(template: string, a: map<string, string>)
    requires Separable(template, a)
    ensures Unjoinable(template, a) && !Clash(Split(template), a)
  {
    NoNeighboursNoClash(Split(template), a);
  }

  lemma {:induction false} NoNeighboursNoClash(g: seq<string>, a: map<string, string>)
    requires forall i :: 1 <= i < |g| - 2 ==> !(g[i] in a && g[i+1] in a)
    ensures !Clash(g, a)
    decreases |g|
  {
    if |g| > 3 {
      NoNeighboursNoClash(g[1..], a);
      NoNeighboursNoClash(g[2..], a);
    }
  }

  // ---------------------------------------------------------------------------------------------
  // Any payloads

  lemma ChainOfTwo(g: seq<string>, m: string, p: string, n: string, q: string)
    requires PlainGaps(g) && Plain(m) && Plain(p) && Plain(n) && Plain(q)
    ensures Chain(Unsplit(g), [(m, p), (n, q)]) == Unsplit(PassOne(PassOne(g, m, p), n, q))
  {
    var subs := [(m, p), (n, q)];
    assert subs[1..] == [(n, q)] && subs[1..][1..] == [];
    ChainIsChainPass(g, subs);
    assert ChainPass(PassOne(g, m, p), subs[1..]) == PassOne(PassOne(g, m, p), n, q);
  }

  lemma UnsplitTwo(x: string, y: string)
    ensures Unsplit([x, y]) == x + [MARK] + y
  {
    assert [x, y][1..] == [y];
  }

  lemma PassSkipsGap(x: string, t: seq<string>, n: string, p: string)
    requires t != [] && t[0] != n
    ensures PassOne([x] + t, n, p) == [x] + PassOne(t, n, p)
  {
    assert ([x] + t)[1..] == t;
  }

  lemma LastMarker(x: string, m: string, y: string, p: string)
    ensures PassOne([x, m, y], m, p) == [x + p + y]
  {
    assert [x, m, y] == [x, m] + [y];
    PassTakesMarker(x, m, [y], p);
  }

  lemma MarkerThenMark(x: string, m: string, y: string, z: string, p: string)
    ensures PassOne([x, m, y, z], m, p) == [x + p + y, z]
  {
    assert [x, m, y, z] == [x, m] + [y, z];
    PassTakesMarker(x, m, [y, z], p);
  }

  /** Two markers that share a mark, `§m§n§`: whatever the names and the payloads, the order shows. */
  lemma SharedMarkDependsOnOrder(m: string, n: string, p: string, q: string)
    requires Plain(m) && Plain(n) && Plain(p) && Plain(q) && m != n
    ensures var t := Marker(m) + n + [MARK]; Chain(t, [(m, p), (n, q)]) != Chain(t, [(n, q), (m, p)])
  {
    var g := ["", m, n, ""];
    SharedMark(m, n);
    ChainOfTwo(g, m, p, n, q);
    ChainOfTwo(g, n, q, m, p);
    MarkerThenMark("", m, n, "", p);
    LastMarker(m, n, "", q);
    assert g == [""] + [m, n, ""];
    PassSkipsGap("", [m, n, ""], n, q);
    UnsplitTwo("" + p + n, "");
    UnsplitTwo("", m + q + "");
    assert PassOne(["" + p + n, ""], n, q) == ["" + p + n, ""] && PassOne(["", m + q + ""], m, p) == ["", m + q + ""];
    FirstMarks("" + p + n, m + q + "");
  }

  lemma FirstMarks(x: string, y: string)
    requires Plain(x) && Plain(y) && (x != "" || y != "")
    ensures x + [MARK] + "" != "" + [MARK] + y
  {
    if x != "" {
      assert (x + [MARK] + "")[0] == x[0];
    }
  }

  lemma SharedMark(m: string, n: string)
    ensures Unsplit(["", m, n, ""]) == Marker(m) + n + [MARK]
  {
    assert ["", m, n, ""][1..] == [m, n, ""] && [m, n, ""][1..] == [n, ""];
    UnsplitTwo(n, "");
  }

  /** A replacement that joins the texts around it into another marker, `§x§m§y§` with payload `p` and
      the name `x + p + y`: the order shows although no two markers share a mark. */
  lemma JoinedMarkDependsOnOrder(x: string, m: string, y: string, p: string, q: string)
    requires Plain(x) && Plain(m) && Plain(y) && Plain(p) && Plain(q)
    requires var n := x + p + y; x != m && m != n && n != x && n != y
    ensures var n := x + p + y; var t := Unsplit(["", x, m, y, ""]);
      Chain(t, [(m, p), (n, q)]) == q && Chain(t, [(n, q), (m, p)]) == Marker(n)
  {
    var n, g := x + p + y, ["", x, m, y, ""];
    ChainOfTwo(g, m, p, n, q);
    ChainOfTwo(g, n, q, m, p);
    JoiningPass(x, m, y, p);
    IdlePass(x, m, y, n, q);
    assert ["", n, ""] == ["", n] + [""];
    PassTakesMarker("", n, [""], q);
    assert ["", n, ""][1..] == [n, ""];
    UnsplitTwo(n, "");
  }

  lemma JoiningPass(x: string, m: string, y: string, p: string)
    requires x != m
    ensures PassOne(["", x, m, y, ""], m, p) == ["", x + p + y, ""]
  {
    assert ["", x, m, y, ""] == [""] + [x, m, y, ""] && [x, m, y, ""] == [x, m] + [y, ""];
    PassSkipsGap("", [x, m, y, ""], m, p);
    PassTakesMarker(x, m, [y, ""], p);
  }

  lemma IdlePass(x: string, m: string, y: string, n: string, q: string)
    requires n != x && n != m && n != y
    ensures PassOne(["", x, m, y, ""], n, q) == ["", x, m, y, ""]
  {
    assert ["", x, m, y, ""] == [""] + [x, m, y, ""];
    assert [x, m, y, ""] == [x] + [m, y, ""] && [m, y, ""] == [m] + [y, ""];
    PassSkipsGap("", [x, m, y, ""], n, q);
    PassSkipsGap(x, [m, y, ""], n, q);
    PassSkipsGap(m, [y, ""], n, q);
  }

  /** Equal markers absorb each other in pairs, so names that meet after an even run do no harm: on
      `§m§m§n§` both orders agree for all payloads. */
  lemma EvenRunAgrees(m: string, n: string, p: string, q: string)
    requires Plain(m) && Plain(n) && Plain(p) && Plain(q) && m != n
    ensures var t := Unsplit(["", m, m, n, ""]);
      && Split(t) == ["", m, m, n, ""]
      && Chain(t, [(m, p), (n, q)]) == p + m + q == Chain(t, [(n, q), (m, p)])
  {
    var g := ["", m, m, n, ""];
    SplitUnsplit(g);
    ChainOfTwo(g, m, p, n, q);
    ChainOfTwo(g, n, q, m, p);
    FirstOfRun(m, n, p, q);
    AfterRun(m, n, p, q);
    Regrouped(p, m, q);
  }

  lemma Regrouped(p: string, m: string, q: string)
    ensures (("" + p + m) + q) + "" == p + m + q == "" + p + (m + q + "")
  {
  }

  lemma FirstOfRun(m: string, n: string, p: string, q: string)
    requires m != n
    ensures PassOne(PassOne(["", m, m, n, ""], m, p), n, q) == [(("" + p + m) + q) + ""]
  {
    assert ["", m, m, n, ""] == ["", m] + [m, n, ""] && [m, n, ""] == [m] + [n, ""];
    PassTakesMarker("", m, [m, n, ""], p);
    PassSkipsGap(m, [n, ""], m, p);
    LastMarker("" + p + m, n, "", q);
  }

  lemma AfterRun(m: string, n: string, p: string, q: string)
    requires m != n
    ensures PassOne(PassOne(["", m, m, n, ""], n, q), m, p) == ["" + p + (m + q + "")]
  {
    assert ["", m, m, n, ""] == [""] + [m, m, n, ""] && [m, m, n, ""] == [m] + [m, n, ""];
    PassSkipsGap("", [m, m, n, ""], n, q);
    PassSkipsGap(m, [m, n, ""], n, q);
    LastMarker(m, n, "", q);
    LastMarker("", m, m + q + "", p);
  }

  lemma {:induction false} SplitUnsplit(g: seq<string>)
    requires PlainGaps(g)
    ensures Split(Unsplit(g)) == g
    decreases |g|, |g[0]|
  {
    if g[0] != "" {
      var g' := PeelCharacter(g);
      SplitUnsplit(g');
      assert Unsplit(g)[1..] == Unsplit(g');
      assert g[0][..1] == [g[0][0]];
    } else if |g| > 1 {
      PeelMark(g);
      SplitUnsplit(g[1..]);
      assert Unsplit(g)[1..] == Unsplit(g[1..]);
      assert g == [""] + g[1..];
    }
  }

  /** `Separable` is sufficient and not necessary: it refuses `§m§m§`, on which the chain and the
      substitution agree for all payloads. */
  lemma SeparableIsNotNecessary(m: string, p: string)
    requires Plain(m) && Plain(p)
    ensures var t, a := Unsplit(["", m, m, ""]), map[m := p];
      !Separable(t, a) && Chain(t, [(m, p)]) == Substitute(t, a) == p + m + [MARK]
  {
    EqualNeighboursRefused(m, p);
    var g, a, subs := ["", m, m, ""], map[m := p], [(m, p)];
    ChainIsChainPass(g, subs);
    SubstituteIsPassAll(g, a);
    OnlyFirst(m, p);
    AfterFirst(m, p);
  }

  lemma EqualNeighboursRefused(m: string, p: string)
    requires Plain(m)
    ensures !Separable(Unsplit(["", m, m, ""]), map[m := p])
  {
    var g := ["", m, m, ""];
    SplitUnsplit(g);
    assert g[1] in map[m := p] && g[2] in map[m := p];
  }

  lemma AfterFirst(m: string, p: string)
    ensures Unsplit(["" + p + m, ""]) == p + m + [MARK]
  {
    UnsplitTwo("" + p + m, "");
    assert "" + p + m + [MARK] + "" == p + m + [MARK];
  }

  lemma OnlyFirst(m: string, p: string)
    ensures ChainPass(["", m, m, ""], [(m, p)]) == ["" + p + m, ""] == PassAll(["", m, m, ""], map[m := p])
  {
    var g, a := ["", m, m, ""], map[m := p];
    MarkerThenMark("", m, m, "", p);
    assert [(m, p)][1..] == [] && ChainPass(g, [(m, p)]) == ChainPass(PassOne(g, m, p), []);
    assert g[2..] == [m, ""] && PassAll([m, ""], a) == [m, ""];
  }
}

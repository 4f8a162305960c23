/** The four request generators of the intruder. */
module Generators {
  import opened Arith
  import opened Templates
  import opened Text

  /** A position as configured; only its name is used to build requests. */
  datatype Position = Position(start: nat, end: nat, name: string)

  /** A request and the payload label stored with its result. */
  type Request = (string, string)

  // ---------------------------------------------------------------------------------------------
  // The replacements each attack type performs for one request

  function Uniform(positions: seq<Position>, payload: string): (subs: seq<(string, string)>)
    ensures |subs| == |positions|
  {
    seq(|positions|, i requires 0 <= i < |positions| => (positions[i].name, payload))
  }

  /** Blank every position of another name. */
  function Blanks(positions: seq<Position>, name: string): seq<(string, string)> {
    if positions == [] then []
    else (if positions[0].name != name then [(positions[0].name, "")] else []) + Blanks(positions[1..], name)
  }

  function SniperSubs(positions: seq<Position>, q: nat, payload: string): seq<(string, string)>
    requires q < |positions|
  {
    [(positions[q].name, payload)] + Blanks(positions, positions[q].name)
  }

  /** Position `j` gets the payload numbered `v[j]`. */
  function Vector(positions: seq<Position>, payloads: seq<string>, v: seq<nat>): (subs: seq<(string, string)>)
    requires |v| == |positions| && forall j :: 0 <= j < |v| ==> v[j] < |payloads|
    ensures |subs| == |positions|
  {
    seq(|positions|, j requires 0 <= j < |positions| => (positions[j].name, payloads[v[j]]))
  }

  /** The payloads of a vector. */
  function Chosen(payloads: seq<string>, v: seq<nat>): (r: seq<string>)
    requires forall j :: 0 <= j < |v| ==> v[j] < |payloads|
    ensures |r| == |v| && forall j :: 0 <= j < |v| ==> r[j] == payloads[v[j]]
  {
    seq(|v|, j requires 0 <= j < |v| => payloads[v[j]])
  }

  lemma {:induction false} ChainSnoc(s: string, subs: seq<(string, string)>, n: string, p: string)
    ensures Chain(s, subs + [(n, p)]) == Replace(Chain(s, subs), Marker(n), p)
    decreases |subs|
  {
    if subs == [] {
      assert [(n, p)][1..] == [];
    } else {
      assert (subs + [(n, p)])[1..] == subs[1..] + [(n, p)];
      ChainSnoc(Replace(s, Marker(subs[0].0), subs[0].1), subs[1..], n, p);
    }
  }

  lemma ChainTo(template: string, subs: seq<(string, string)>, q: nat)
    requires q < |subs|
    ensures Chain(template, subs[..q + 1]) == Replace(Chain(template, subs[..q]), Marker(subs[q].0), subs[q].1)
  {
    ChainSnoc(template, subs[..q], subs[q].0, subs[q].1);
    assert subs[..q + 1] == subs[..q] + [(subs[q].0, subs[q].1)];
  }

  // ---------------------------------------------------------------------------------------------
  // Sniper

  method SniperRequest(template: string, positions: seq<Position>, q: nat, payload: string) returns (modified: string)
    requires q < |positions|
    ensures modified == Chain(template, SniperSubs(positions, q, payload))
  {
    var name := positions[q].name;
    modified := Replace(template, Marker(name), payload);
    ghost var done := [(name, payload)];
    assert Chain(template, done) == modified by {
      assert done[1..] == [];
    }
    for o := 0 to |positions|
      invariant modified == Chain(template, done)
      invariant SniperSubs(positions, q, payload) == done + Blanks(positions[o..], name)
    {
      assert positions[o..][1..] == positions[o + 1..];
      if positions[o].name != name {
        ChainSnoc(template, done, positions[o].name, "");
        modified := Replace(modified, Marker(positions[o].name), "");
        done := done + [(positions[o].name, "")];
      }
    }
    assert positions[|positions|..] == [];
    assert done + [] == done;
  }

  /** For every payload, in order, one request for every position, in order. */
  function Sniper(template: string, positions: seq<Position>, payloads: seq<string>): seq<Request> {
    if payloads == [] then []
    else
      var last := payloads[|payloads|-1];
      Sniper(template, positions, payloads[..|payloads|-1])
      + seq(|positions|, q requires 0 <= q < |positions| => (Chain(template, SniperSubs(positions, q, last)), last))
  }

  lemma {:induction false} SniperAt(template: string, positions: seq<Position>, payloads: seq<string>, k: nat, q: nat)
    requires k < |payloads| && q < |positions|
    ensures |Sniper(template, positions, payloads)| == |payloads| * |positions|
    ensures 0 <= k * |positions| + q < |payloads| * |positions|
    ensures Sniper(template, positions, payloads)[k * |positions| + q] ==
            (Chain(template, SniperSubs(positions, q, payloads[k])), payloads[k])
    decreases |payloads|
  {
    var p, last := |positions|, |payloads| - 1;
    SniperLength(template, positions, payloads);
    SniperLength(template, positions, payloads[..last]);
    MulMono(k + 1, |payloads|, p);
    assert (k + 1) * p == k * p + p;
    if k < last {
      SniperAt(template, positions, payloads[..last], k, q);
    }
  }

  lemma {:induction false} SniperLength(template: string, positions: seq<Position>, payloads: seq<string>)
    ensures |Sniper(template, positions, payloads)| == |payloads| * |positions|
    decreases |payloads|
  {
    if payloads != [] {
      var last := |payloads| - 1;
      SniperLength(template, positions, payloads[..last]);
      assert last * |positions| + |positions| == |payloads| * |positions|;
    }
  }

  method GenerateSniper(template: string, positions: seq<Position>, payloads: seq<string>)
      returns (requests: seq<Request>)
    ensures requests == Sniper(template, positions, payloads)
  {
    requests := [];
    for k := 0 to |payloads|
      invariant requests == Sniper(template, positions, payloads[..k])
    {
      ghost var before := requests;
      for q := 0 to |positions|
        invariant requests == before + seq(q, r requires 0 <= r < q =>
                                (Chain(template, SniperSubs(positions, r, payloads[k])), payloads[k]))
      {
        var modified := SniperRequest(template, positions, q, payloads[k]);
        requests := requests + [(modified, payloads[k])];
      }
      assert payloads[..k + 1][..k] == payloads[..k];
    }
    assert payloads[..|payloads|] == payloads;
  }

  // ---------------------------------------------------------------------------------------------
  // Battering and Pitchfork

  method GenerateBattering(template: string, positions: seq<Position>, payloads: seq<string>)
      returns (requests: seq<Request>)
    ensures |requests| == |payloads|
    ensures forall k :: 0 <= k < |payloads| ==>
      requests[k] == (Chain(template, Uniform(positions, payloads[k])), payloads[k])
  {
    requests := [];
    for k := 0 to |payloads|
      invariant |requests| == k
      invariant forall i :: 0 <= i < k ==>
        requests[i] == (Chain(template, Uniform(positions, payloads[i])), payloads[i])
    {
      var modified := template;
      ghost var subs := Uniform(positions, payloads[k]);
      for q := 0 to |positions|
        invariant modified == Chain(template, subs[..q])
      {
        ChainTo(template, subs, q);
        modified := Replace(modified, Marker(positions[q].name), payloads[k]);
      }
      assert subs[..|positions|] == subs;
      requests := requests + [(modified, payloads[k])];
    }
  }

  /** Every position of request `i` gets payload `i`; the label lists it once per position. */
  method GeneratePitchfork(template: string, positions: seq<Position>, payloads: seq<string>)
      returns (requests: seq<Request>)
    ensures |requests| == |payloads|
    ensures forall k :: 0 <= k < |payloads| ==>
      requests[k] == (Chain(template, Uniform(positions, payloads[k])), Join(seq(|positions|, _ => payloads[k]), ", "))
  {
    requests := [];
    for k := 0 to |payloads|
      invariant |requests| == k
      invariant forall i :: 0 <= i < k ==>
        && requests[i].0 == Chain(template, Uniform(positions, payloads[i]))
        && requests[i].1 == Join(seq(|positions|, _ => payloads[i]), ", ")
    {
      var modified := template;
      var used: seq<string> := [];
      ghost var subs := Uniform(positions, payloads[k]);
      for q := 0 to |positions|
        invariant modified == Chain(template, subs[..q])
        invariant used == seq(q, _ => payloads[k])
      {
        var payload := if k < |payloads| then payloads[k] else "";
        ChainTo(template, subs, q);
        modified := Replace(modified, Marker(positions[q].name), payload);
        used := used + [payload];
      }
      assert subs[..|positions|] == subs;
      requests := requests + [(modified, Join(used, ", "))];
    }
  }

  // ---------------------------------------------------------------------------------------------
  // Cluster bomb: the mixed-radix enumeration of payload vectors

  const USIZE: nat := 0x1_0000_0000_0000_0000

  /** The payload number of each position in combination `i`, first position fastest. */
  function Digits(i: nat, n: nat, p: nat): (v: seq<nat>)
    requires n > 0
    ensures |v| == p && forall j :: 0 <= j < p ==> v[j] < n
    decreases p
  {
    if p == 0 then [] else [i % n] + Digits(i / n, n, p - 1)
  }

  function Index(v: seq<nat>, n: nat): nat {
    if v == [] then 0 else v[0] + n * Index(v[1..], n)
  }

  lemma {:induction false} IndexOfDigits(i: nat, n: nat, p: nat)
    requires n > 0 && i < Pow(n, p)
    ensures Index(Digits(i, n, p), n) == i
    decreases p
  {
    if p > 0 {
      DivBelow(i, n, Pow(n, p - 1));
      assert n * Pow(n, p - 1) == Pow(n, p - 1) * n;
      IndexOfDigits(i / n, n, p - 1);
      assert Digits(i, n, p)[1..] == Digits(i / n, n, p - 1);
    }
  }

  lemma {:induction false} DigitsOfIndex(v: seq<nat>, n: nat)
    requires n > 0 && forall j :: 0 <= j < |v| ==> v[j] < n
    ensures Index(v, n) < Pow(n, |v|) && Digits(Index(v, n), n, |v|) == v
    decreases |v|
  {
    if v != [] {
      var x, c := Index(v[1..], n), Pow(n, |v| - 1);
      DigitsOfIndex(v[1..], n);
      assert n * x == x * n && n * c == c * n;
      DivUnique(Index(v, n), n, x, v[0]);
      DivBelow(Index(v, n), n, c);
      assert v == [v[0]] + v[1..];
    }
  }

  /** The number of combinations as the release build computes it: the number of positions is cast to
      u32, and exponentiation wraps at the word size. */
  function Combinations(n: nat, p: nat): (c: nat)
    ensures c < USIZE
  {
    Pow(n, p % 0x1_0000_0000) % USIZE
  }

  lemma {:induction false} PowSum(n: nat, a: nat, b: nat)
    ensures Pow(n, a + b) == Pow(n, a) * Pow(n, b)
    decreases a
  {
    if a > 0 {
      PowSum(n, a - 1, b);
      Associate(n, Pow(n, a - 1), Pow(n, b));
    }
  }

  lemma {:induction false} PowOfOne(p: nat)
    ensures Pow(1, p) == 1
  {
    if p > 0 {
      PowOfOne(p - 1);
    }
  }

  lemma {:induction false} PowExceeds(n: nat, p: nat)
    requires n >= 2
    ensures Pow(n, p) > p
  {
    if p > 0 {
      PowExceeds(n, p - 1);
      MulMono(2, n, Pow(n, p - 1));
    }
  }

  lemma HugePow(n: nat, p: nat)
    requires n >= 2 && p >= 0x1_0000_0000
    ensures Pow(n, p) >= USIZE
  {
    var a, b := 0x4000_0000, p - 0x8000_0000;
    PowSum(n, a + a, b);
    PowSum(n, a, a);
    PowExceeds(n, a);
    PowExceeds(n, b);
    var x, y := Pow(n, a), Pow(n, b);
    MulMono(a, x, x);
    MulMono(a, x, a);
    assert x * x >= a * a == 0x1000_0000_0000_0000;
    MulMono(a * a, x * x, y);
    MulMono(a, y, a * a);
    assert y * (a * a) == (a * a) * y;
  }

  lemma WordSized(x: nat)
    ensures x % USIZE <= x && (x % USIZE == x <==> x < USIZE)
  {
  }

  lemma SmallMod(p: nat)
    requires p < 0x1_0000_0000
    ensures p % 0x1_0000_0000 == p
  {
  }

  lemma SmallCount(n: nat, p: nat)
    requires p < 0x1_0000_0000
    ensures Combinations(n, p) <= Pow(n, p)
    ensures Combinations(n, p) == Pow(n, p) <==> Pow(n, p) < USIZE
  {
    SmallMod(p);
    WordSized(Pow(n, p));
  }

  /** 2^32 positions more make no difference to the count. */
  lemma CountIsPeriodic(n: nat, p: nat)
    ensures Combinations(n, p + 0x1_0000_0000) == Combinations(n, p)
    ensures p < 0x1_0000_0000 ==> Combinations(n, p) == Pow(n, p) % 0x1_0000_0000_0000_0000
  {
    assert (p + 0x1_0000_0000) % 0x1_0000_0000 == p % 0x1_0000_0000;
    if p < 0x1_0000_0000 {
      SmallMod(p);
    }
  }

  /** The computed number is never too large, and right exactly when it fits a machine word. */
  lemma CombinationsExact(n: nat, p: nat)
    requires n > 0
    ensures Combinations(n, p) <= Pow(n, p)
    ensures Combinations(n, p) == Pow(n, p) <==> Pow(n, p) < 0x1_0000_0000_0000_0000
  {
    if p < 0x1_0000_0000 {
      SmallCount(n, p);
    } else if n == 1 {
      PowOfOne(p);
      PowOfOne(p % 0x1_0000_0000);
    } else {
      HugePow(n, p);
    }
  }

  method GenerateClusterBomb(template: string, positions: seq<Position>, payloads: seq<string>)
      returns (requests: seq<Request>)
    requires positions == [] || payloads != [] || |positions| % 0x1_0000_0000 != 0  // otherwise division by zero
    ensures |requests| == if positions == [] then 0 else Combinations(|payloads|, |positions|)
    ensures forall i :: 0 <= i < |requests| ==>
      && payloads != []
      && requests[i].0 == Chain(template, Vector(positions, payloads, Digits(i, |payloads|, |positions|)))
      && requests[i].1 == Join(Chosen(payloads, Digits(i, |payloads|, |positions|)), ", ")
  {
    requests := [];
    if |positions| == 0 {
      return;
    }
    var n, p := |payloads|, |positions|;
    var total := Combinations(n, p);
    assert n == 0 ==> total == 0;
    for i := 0 to total
      invariant |requests| == i
      invariant i > 0 ==> n > 0
      invariant forall k :: 0 <= k < i ==>
        && requests[k].0 == Chain(template, Vector(positions, payloads, Digits(k, n, p)))
        && requests[k].1 == Join(Chosen(payloads, Digits(k, n, p)), ", ")
    {
      var modified, shown := ClusterRequest(template, positions, payloads, i);
      requests := requests + [(modified, shown)];
    }
  }

  /** `combination` holds what is left of the digits `v` after the first `q`. */
  ghost predicate AtDigit(v: seq<nat>, combination: nat, n: nat, q: nat) {
    n > 0 && q <= |v| && v[q..] == Digits(combination, n, |v| - q)
  }

  lemma NextDigit(v: seq<nat>, combination: nat, n: nat, q: nat)
    requires AtDigit(v, combination, n, q) && q < |v|
    ensures v[q] == combination % n && AtDigit(v, combination / n, n, q + 1)
  {
    DigitsStep(combination, n, |v| - q);
    assert v[q] == v[q..][0] && v[q + 1..] == v[q..][1..];
  }

  method SplitDigit(combination: nat, n: nat, ghost v: seq<nat>, ghost q: nat) returns (index: nat, rest: nat)
    requires AtDigit(v, combination, n, q) && q < |v|
    ensures index == v[q] && AtDigit(v, rest, n, q + 1)
  {
    NextDigit(v, combination, n, q);
    index := combination % n;
    rest := combination / n;
  }

  lemma DigitsStep(i: nat, n: nat, p: nat)
    requires n > 0 && p > 0
    ensures Digits(i, n, p)[0] == i % n && Digits(i, n, p)[1..] == Digits(i / n, n, p - 1)
  {
  }

  method ClusterRequest(template: string, positions: seq<Position>, payloads: seq<string>, i: nat)
      returns (modified: string, shown: string)
    requires payloads != []
    ensures modified == Chain(template, Vector(positions, payloads, Digits(i, |payloads|, |positions|)))
    ensures shown == Join(Chosen(payloads, Digits(i, |payloads|, |positions|)), ", ")
  {
    var n := |payloads|;
    modified := template;
    var combination: nat := i;
    var used: seq<string> := [];
    ghost var v := Digits(i, n, |positions|);
    ghost var subs := Vector(positions, payloads, v);
    for q := 0 to |positions|
      invariant modified == Chain(template, subs[..q])
      invariant used == Chosen(payloads, v)[..q]
      invariant AtDigit(v, combination, n, q)
    {
      var index, rest := SplitDigit(combination, n, v, q);
      ChainTo(template, subs, q);
      modified := Replace(modified, Marker(positions[q].name), payloads[index]);
      used := used + [payloads[index]];
      combination := rest;
    }
    assert subs[..|positions|] == subs;
    assert Chosen(payloads, v)[..|positions|] == Chosen(payloads, v);
    shown := Join(used, ", ");
  }

  ghost predicate IsVector(v: seq<nat>, n: nat, p: nat) {
    |v| == p && forall j :: 0 <= j < p ==> v[j] < n
  }

  ghost predicate Enumerated(v: seq<nat>, n: nat, p: nat)
    requires n > 0
  {
    exists i :: 0 <= i < Combinations(n, p) && Digits(i, n, p) == v
  }

  lemma DistinctVectors(n: nat, p: nat, i: nat, k: nat)
    requires n > 0 && i < k < Combinations(n, p)
    ensures Digits(i, n, p) != Digits(k, n, p)
  {
    CombinationsExact(n, p);
    IndexOfDigits(i, n, p);
    IndexOfDigits(k, n, p);
  }

  /** No combination is generated twice, and every payload vector is generated exactly when the
      number of combinations fits in a machine word. */
  lemma EveryVectorOnce(n: nat, p: nat)
    requires n > 0
    ensures forall i, k :: 0 <= i < k < Combinations(n, p) ==> Digits(i, n, p) != Digits(k, n, p)
    ensures Pow(n, p) < USIZE <==> forall v :: IsVector(v, n, p) ==> Enumerated(v, n, p)
  {
    forall i, k | 0 <= i < k < Combinations(n, p)
      ensures Digits(i, n, p) != Digits(k, n, p)
    {
      DistinctVectors(n, p, i, k);
    }
    CombinationsExact(n, p);
    if Pow(n, p) < USIZE {
      forall v | IsVector(v, n, p)
        ensures Enumerated(v, n, p)
      {
        DigitsOfIndex(v, n);
        assert Digits(Index(v, n), n, p) == v;
      }
    } else {
      var v := MissedVector(n, p);
      assert IsVector(v, n, p) && !Enumerated(v, n, p);
    }
  }

  lemma MissedVector(n: nat, p: nat) returns (v: seq<nat>)
    requires n > 0 && Pow(n, p) >= USIZE
    ensures IsVector(v, n, p) && !Enumerated(v, n, p)
  {
    var c := Combinations(n, p);
    CombinationsExact(n, p);
    IndexOfDigits(c, n, p);
    v := Digits(c, n, p);
    forall i | 0 <= i < c
      ensures Digits(i, n, p) != v
    {
      IndexOfDigits(i, n, p);
    }
  }

  // ---------------------------------------------------------------------------------------------
  // What the requests mean: one simultaneous substitution

  function Names(positions: seq<Position>): set<string> {
    set q | 0 <= q < |positions| :: positions[q].name
  }

  predicate PlainConfig(positions: seq<Position>, payloads: seq<string>) {
    && (forall q :: 0 <= q < |positions| ==> Plain(positions[q].name))
    && (forall k :: 0 <= k < |payloads| ==> Plain(payloads[k]))
  }

  /** The name under attack gets the payload, every other name the empty text. */
  function SniperMap(positions: seq<Position>, q: nat, payload: string): map<string, string>
    requires q < |positions|
  {
    map n | n in Names(positions) :: if n == positions[q].name then payload else ""
  }

  function UniformMap(positions: seq<Position>, payload: string): map<string, string> {
    map n | n in Names(positions) :: payload
  }

  /** Where a name occurs at several positions the first of them decides. */
  function FirstPosition(positions: seq<Position>, n: string): (q: nat)
    requires n in Names(positions)
    ensures q < |positions| && positions[q].name == n && forall r :: 0 <= r < q ==> positions[r].name != n
  {
    if positions[0].name == n then 0
    else
      assert n in Names(positions[1..]) by {
        var q :| 0 <= q < |positions| && positions[q].name == n;
        assert positions[1..][q-1].name == n;
      }
      1 + FirstPosition(positions[1..], n)
  }

  function VectorMap(positions: seq<Position>, payloads: seq<string>, v: seq<nat>): map<string, string>
    requires |v| == |positions| && forall j :: 0 <= j < |v| ==> v[j] < |payloads|
  {
    map n | n in Names(positions) :: payloads[v[FirstPosition(positions, n)]]
  }

  lemma {:induction false} FirstWinsKeys(subs: seq<(string, string)>)
    ensures forall n :: n in FirstWins(subs) <==> exists i :: 0 <= i < |subs| && subs[i].0 == n
  {
    if subs != [] {
      FirstWinsKeys(subs[1..]);
      forall n
        ensures n in FirstWins(subs) <==> exists i :: 0 <= i < |subs| && subs[i].0 == n
      {
        if i :| 0 <= i < |subs| && subs[i].0 == n {
          assert i > 0 ==> subs[1..][i-1].0 == n;
        }
        if n in FirstWins(subs[1..]) {
          var i :| 0 <= i < |subs[1..]| && subs[1..][i].0 == n;
          assert subs[i+1].0 == n;
        }
      }
    }
  }

  lemma {:induction false} FirstWinsAt(subs: seq<(string, string)>, q: nat)
    requires q < |subs| && forall r :: 0 <= r < q ==> subs[r].0 != subs[q].0
    ensures subs[q].0 in FirstWins(subs) && FirstWins(subs)[subs[q].0] == subs[q].1
  {
    if q > 0 {
      FirstWinsAt(subs[1..], q - 1);
      assert subs[0].0 != subs[q].0;
    }
  }

  lemma VectorWins(positions: seq<Position>, payloads: seq<string>, v: seq<nat>)
    requires |v| == |positions| && forall j :: 0 <= j < |v| ==> v[j] < |payloads|
    ensures FirstWins(Vector(positions, payloads, v)) == VectorMap(positions, payloads, v)
  {
    var subs := Vector(positions, payloads, v);
    FirstWinsKeys(subs);
    forall n | n in Names(positions)
      ensures n in FirstWins(subs) && FirstWins(subs)[n] == payloads[v[FirstPosition(positions, n)]]
    {
      FirstWinsAt(subs, FirstPosition(positions, n));
    }
    forall n | n in FirstWins(subs)
      ensures n in Names(positions)
    {
      var i :| 0 <= i < |subs| && subs[i].0 == n;
      assert positions[i].name == n;
    }
  }

  lemma {:induction false} BlanksOf(positions: seq<Position>, name: string)
    ensures FirstWins(Blanks(positions, name)) == map n | n in Names(positions) && n != name :: ""
  {
    if positions != [] {
      BlanksOf(positions[1..], name);
      assert Names(positions) == {positions[0].name} + Names(positions[1..]) by {
        forall n | n in Names(positions)
          ensures n == positions[0].name || n in Names(positions[1..])
        {
          var q :| 0 <= q < |positions| && positions[q].name == n;
          assert q > 0 ==> positions[1..][q-1].name == n;
        }
        forall n | n in Names(positions[1..])
          ensures n in Names(positions)
        {
          var q :| 0 <= q < |positions| - 1 && positions[1..][q].name == n;
          assert positions[q+1].name == n;
        }
      }
      var rest := Blanks(positions[1..], name);
      if positions[0].name != name {
        assert Blanks(positions, name)[1..] == rest;
      } else {
        assert Blanks(positions, name) == rest;
      }
    }
  }

  lemma {:induction false} BlanksPlain(positions: seq<Position>, name: string)
    requires forall q :: 0 <= q < |positions| ==> Plain(positions[q].name)
    ensures PlainSubs(Blanks(positions, name))
  {
    if positions != [] {
      BlanksPlain(positions[1..], name);
    }
  }

  /** A sniper request is the template with the payload at the attacked position and nothing at the
      others, all markers substituted at once. */
  lemma SniperMeaning(template: string, positions: seq<Position>, payloads: seq<string>, k: nat, q: nat)
    requires PlainConfig(positions, payloads) && k < |payloads| && q < |positions|
    requires Separable(template, SniperMap(positions, q, payloads[k]))
    ensures 0 <= k * |positions| + q < |Sniper(template, positions, payloads)|
    ensures Sniper(template, positions, payloads)[k * |positions| + q] ==
            (Substitute(template, SniperMap(positions, q, payloads[k])), payloads[k])
  {
    SniperAt(template, positions, payloads, k, q);
    SniperChainMeaning(template, positions, q, payloads[k]);
  }

  lemma SniperChainMeaning(template: string, positions: seq<Position>, q: nat, payload: string)
    requires PlainConfig(positions, [payload]) && q < |positions|
    requires Separable(template, SniperMap(positions, q, payload))
    ensures Chain(template, SniperSubs(positions, q, payload)) == Substitute(template, SniperMap(positions, q, payload))
  {
    var name, subs := positions[q].name, SniperSubs(positions, q, payload);
    assert Plain([payload][0]);
    BlanksPlain(positions, name);
    BlanksOf(positions, name);
    assert subs[1..] == Blanks(positions, name);
    assert FirstWins(subs) == SniperMap(positions, q, payload);
    ChainIsSubstitution(template, subs);
  }

  /** A cluster-bomb request is the template with the payloads of its combination, substituted at once. */
  lemma VectorMeaning(template: string, positions: seq<Position>, payloads: seq<string>, v: seq<nat>)
    requires PlainConfig(positions, payloads)
    requires |v| == |positions| && forall j :: 0 <= j < |v| ==> v[j] < |payloads|
    requires Separable(template, VectorMap(positions, payloads, v))
    ensures Chain(template, Vector(positions, payloads, v)) == Substitute(template, VectorMap(positions, payloads, v))
  {
    VectorWins(positions, payloads, v);
    ChainIsSubstitution(template, Vector(positions, payloads, v));
  }

  /** A Battering or Pitchfork request is the template with one payload at every position. */
  lemma UniformMeaning(template: string, positions: seq<Position>, payloads: seq<string>, k: nat)
    requires PlainConfig(positions, payloads) && k < |payloads|
    requires Separable(template, UniformMap(positions, payloads[k]))
    ensures Chain(template, Uniform(positions, payloads[k])) == Substitute(template, UniformMap(positions, payloads[k]))
  {
    var v: seq<nat> := seq(|positions|, _ => k);
    assert Vector(positions, payloads, v) == Uniform(positions, payloads[k]);
    assert VectorMap(positions, payloads, v) == UniformMap(positions, payloads[k]);
    VectorMeaning(template, positions, payloads, v);
  }

  // ---------------------------------------------------------------------------------------------
  // How the generators relate

  /** 1 + n + ... + n^(p-1) */
  function Repunit(n: nat, p: nat): nat {
    if p == 0 then 0 else 1 + n * Repunit(n, p - 1)
  }

  lemma {:induction false} ConstantVector(k: nat, n: nat, p: nat)
    requires k < n
    ensures Index(seq(p, _ => k), n) == k * Repunit(n, p)
  {
    if p > 0 {
      ConstantVector(k, n, p - 1);
      var v := seq(p, _ => k);
      assert v[1..] == seq(p - 1, _ => k);
      var r := Repunit(n, p - 1);
      Exchange(n, k, r);
      Distribute(k, 1, n * r);
    }
  }

  /** Battering is the diagonal of the cluster bomb: the replacements for payload `k` everywhere are
      those of the combination numbered k * (1 + n + ... + n^(p-1)). */
  lemma BatteringIsDiagonal(positions: seq<Position>, payloads: seq<string>, k: nat)
    requires k < |payloads| && positions != []
    ensures var n, p := |payloads|, |positions|; var i := k * Repunit(n, p);
      i < Pow(n, p) && Vector(positions, payloads, Digits(i, n, p)) == Uniform(positions, payloads[k])
  {
    var n, p := |payloads|, |positions|;
    var v: seq<nat> := seq(p, _ => k);
    ConstantVector(k, n, p);
    DigitsOfIndex(v, n);
  }

  function Diagonal(k: nat, n: nat, p: nat): nat {
    k * Repunit(n, p)
  }

  /** The three generators run on one configuration: Pitchfork builds Battering's request strings, and
      Battering's k-th is the cluster bomb's at index k * (1 + n + ... + n^(p-1)) wherever that was
      generated, for every template; all of them were if n^p fits a machine word. */
  method CompareGenerators(template: string, positions: seq<Position>, payloads: seq<string>)
      returns (battering: seq<Request>, pitchfork: seq<Request>, cluster: seq<Request>)
    requires positions != [] && (payloads != [] || |positions| % 0x1_0000_0000 != 0)
    ensures |battering| == |pitchfork| == |payloads| && |cluster| == Combinations(|payloads|, |positions|)
    ensures forall k :: 0 <= k < |payloads| ==> battering[k].0 == pitchfork[k].0
    ensures forall k :: 0 <= k < |payloads| && Diagonal(k, |payloads|, |positions|) < |cluster| ==>
              cluster[Diagonal(k, |payloads|, |positions|)].0 == battering[k].0
    ensures Pow(|payloads|, |positions|) < USIZE ==>
              && |cluster| == Pow(|payloads|, |positions|)
              && forall k :: 0 <= k < |payloads| ==> Diagonal(k, |payloads|, |positions|) < |cluster|
  {
    battering := GenerateBattering(template, positions, payloads);
    pitchfork := GeneratePitchfork(template, positions, payloads);
    cluster := GenerateClusterBomb(template, positions, payloads);
    if payloads != [] {
      CombinationsExact(|payloads|, |positions|);
    }
    forall k | 0 <= k < |payloads|
      ensures Diagonal(k, |payloads|, |positions|) < Pow(|payloads|, |positions|)
      ensures Diagonal(k, |payloads|, |positions|) < |cluster| ==>
                cluster[Diagonal(k, |payloads|, |positions|)].0 == battering[k].0
    {
      BatteringIsDiagonal(positions, payloads, k);
    }
  }
}

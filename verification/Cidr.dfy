/** CIDR matching and the address filter built on it. */
module Cidr {
  import opened Arith
  import opened Addresses

  /** Bitwise `and` of two unsigned numbers, bit by bit. */
  function BitAnd(a: nat, b: nat): nat {
    if a == 0 || b == 0 then 0 else BitAnd(a / 2, b / 2) * 2 + (if a % 2 == 1 && b % 2 == 1 then 1 else 0)
  }

  function Pow2(n: nat): (p: nat)
    ensures p > 0
  {
    if n == 0 then 1 else 2 * Pow2(n - 1)
  }

  /** `x << k` in unlimited width, and `x >> k`. */
  function Shl(x: nat, k: nat): nat {
    if k == 0 then x else 2 * Shl(x, k - 1)
  }

  function Shr(x: nat, k: nat): nat {
    if k == 0 then x else Shr(x / 2, k - 1)
  }

  /** `!0 << k` in `w` bits. */
  function ShiftedOnes(w: nat, k: nat): nat {
    Shl(Pow2(w) - 1, k) % Pow2(w)
  }

  function Mask(w: nat, prefix: nat): nat
    requires prefix <= w
  {
    if prefix == 0 then 0 else ShiftedOnes(w, w - prefix)
  }

  predicate MaskedEqual(x: nat, y: nat, w: nat, prefix: nat)
    requires prefix <= w
  {
    BitAnd(x, Mask(w, prefix)) == BitAnd(y, Mask(w, prefix))
  }

  datatype Range = Range(network: IpAddr, prefix: nat)

  /** The test of the source: compare both addresses under the network mask. */
  predicate InCidr(ip: IpAddr, range: Range) {
    match (ip, range.network)
    case (V4(x), V4(n)) => range.prefix <= 32 && MaskedEqual(x, n, 32, range.prefix)
    case (V6(x), V6(n)) => range.prefix <= 128 && MaskedEqual(x, n, 128, range.prefix)
    case (_, _) => false
  }

  // ---------------------------------------------------------------------------------------------
  // Masks are quotients

  /** `n` ones followed by `k` zeros. */
  function Ones(n: nat, k: nat): nat {
    Shl(Pow2(n) - 1, k)
  }

  lemma {:induction false} ShlPow2(n: nat, k: nat)
    ensures Shl(Pow2(n), k) == Pow2(n + k) == Pow2(n) * Pow2(k)
  {
    if k > 0 {
      ShlPow2(n, k - 1);
      Exchange(Pow2(n), 2, Pow2(k - 1));
    }
  }

  lemma {:induction false} OnesValue(n: nat, k: nat)
    ensures Ones(n, k) == Pow2(n + k) - Pow2(k)
  {
    if k > 0 {
      OnesValue(n, k - 1);
    }
  }

  /** Shifting out of the word leaves `prefix` ones followed by zeros. */
  lemma MaskIsOnes(w: nat, prefix: nat)
    requires prefix <= w
    ensures Mask(w, prefix) == Ones(prefix, w - prefix)
  {
    var k := w - prefix;
    OnesValue(prefix, k);
    if prefix > 0 {
      OnesValue(w, k);
      ShlPow2(w, k);
      ShlPow2(prefix - 1, k);
      MulMono(1, Pow2(prefix), Pow2(k));
      ShlPow2(prefix, k);
      assert Pow2(w) * Pow2(k) == (Pow2(k) - 1) * Pow2(w) + Pow2(w) by {
        Distribute(Pow2(w), Pow2(k), -1);
      }
      DivUnique(Shl(Pow2(w) - 1, k), Pow2(w), Pow2(k) - 1, Pow2(w) - Pow2(k));
    }
  }

  lemma AndEven(x: nat, m: nat)
    ensures BitAnd(x, 2 * m) == 2 * BitAnd(x / 2, m)
  {
    if x > 0 && m > 0 {
      var y := 2 * m;
      assert y / 2 == m && y % 2 == 0 && y > 0;
      assert BitAnd(x, y) == BitAnd(x / 2, y / 2) * 2;
    }
  }

  lemma {:induction false} AndOnes(x: nat, n: nat)
    requires x < Pow2(n)
    ensures BitAnd(x, Pow2(n) - 1) == x
  {
    if x > 0 {
      var m := Pow2(n) - 1;
      assert m == 2 * (Pow2(n - 1) - 1) + 1;
      assert m / 2 == Pow2(n - 1) - 1 && m % 2 == 1;
      AndOnes(x / 2, n - 1);
    }
  }

  /** Masking off the low `k` of `n + k` bits. */
  lemma {:induction false} AndMask(x: nat, n: nat, k: nat)
    requires x < Pow2(n + k)
    ensures BitAnd(x, Ones(n, k)) == Shl(Shr(x, k), k)
    decreases k
  {
    if k > 0 {
      AndEven(x, Ones(n, k - 1));
      AndMask(x / 2, n, k - 1);
    } else {
      AndOnes(x, n);
    }
  }

  lemma {:induction false} ShlDistinct(x: nat, y: nat, k: nat)
    requires x != y
    ensures Shl(x, k) != Shl(y, k)
  {
    if k > 0 {
      ShlDistinct(x, y, k - 1);
    }
  }

  /** Two addresses agree under the mask exactly when they agree after dropping the low bits. */
  lemma MaskedEqualIsShift(x: nat, y: nat, w: nat, prefix: nat)
    requires prefix <= w && x < Pow2(w) && y < Pow2(w)
    ensures MaskedEqual(x, y, w, prefix) <==> Shr(x, w - prefix) == Shr(y, w - prefix)
  {
    MaskIsOnes(w, prefix);
    AndMask(x, prefix, w - prefix);
    AndMask(y, prefix, w - prefix);
    if Shr(x, w - prefix) != Shr(y, w - prefix) {
      ShlDistinct(Shr(x, w - prefix), Shr(y, w - prefix), w - prefix);
    }
  }

  lemma {:induction false} ShrIsQuotient(x: nat, k: nat)
    ensures Shr(x, k) == x / Pow2(k)
  {
    if k > 0 {
      ShrIsQuotient(x / 2, k - 1);
      DivDiv(x, 2, Pow2(k - 1));
    }
  }

  lemma {:induction false} ShrShr(x: nat, a: nat, b: nat)
    ensures Shr(Shr(x, a), b) == Shr(x, a + b)
    decreases a
  {
    if a > 0 {
      ShrShr(x / 2, a - 1, b);
    }
  }

  lemma {:induction false} ShrBelow(x: nat, n: nat, k: nat)
    requires x < Pow2(n + k)
    ensures Shr(x, k) < Pow2(n)
    decreases k
  {
    if k > 0 {
      ShrBelow(x / 2, n, k - 1);
    }
  }

  /** Low bits below a shifted number. */
  lemma {:induction false} ShlLow(q: nat, n: nat, k: nat, low: nat)
    requires q < Pow2(n) && low < Pow2(k)
    ensures Shl(q, k) + low < Pow2(n + k) && Shr(Shl(q, k) + low, k) == q
    decreases k
  {
    if k > 0 {
      ShlLow(q, n, k - 1, low / 2);
      assert (2 * Shl(q, k - 1) + low) / 2 == Shl(q, k - 1) + low / 2;
    }
  }

  /** The two ends of a block of 2^(a + d) addresses, without their low `a` bits. */
  lemma {:induction false} BlockEnds(q: nat, a: nat, d: nat)
    ensures Shr(Shl(q, a + d), a) == Shl(q, d)
    ensures Shr(Shl(q, a + d) + Pow2(a + d) - 1, a) == Shl(q, d) + Pow2(d) - 1
    decreases a
  {
    if a > 0 {
      BlockEnds(q, a - 1, d);
      var x, p := Shl(q, a + d - 1), Pow2(a + d - 1);
      assert (2 * x) / 2 == x && (2 * x + 2 * p - 1) / 2 == x + p - 1;
    }
  }

  // ---------------------------------------------------------------------------------------------
  // Address blocks

  function Width(ip: IpAddr): nat {
    if ip.V4? then 32 else 128
  }

  function Value(ip: IpAddr): nat {
    if ip.V4? then ip.bits else ip.wide
  }

  /** Bits a valid prefix leaves open. */
  function Open(range: Range): nat
    requires range.prefix <= Width(range.network)
  {
    Width(range.network) - range.prefix
  }

  lemma Pow2Square(n: nat, v: nat) returns (m: nat, sq: nat)
    requires Pow2(n) == v
    ensures m == n + n && sq == v * v && Pow2(m) == sq
  {
    m, sq := n + n, v * v;
    ShlPow2(n, n);
  }

  lemma Widths()
    ensures Pow2(32) == 0x1_0000_0000 && Pow2(128) == 0x1_0000_0000_0000_0000_0000_0000_0000_0000
  {
    var n, v := 4, 16;
    n, v := Pow2Square(n, v);
    n, v := Pow2Square(n, v);
    n, v := Pow2Square(n, v);
    assert n == 32 && v == 0x1_0000_0000;
    n, v := Pow2Square(n, v);
    n, v := Pow2Square(n, v);
    assert n == 128;
  }

  lemma ValueFits(ip: IpAddr)
    ensures Value(ip) < Pow2(Width(ip))
  {
    Widths();
  }

  lemma InCidrIsShift(ip: IpAddr, range: Range)
    ensures InCidr(ip, range) <==>
      && ip.V4? == range.network.V4? && range.prefix <= Width(range.network)
      && Shr(Value(ip), Open(range)) == Shr(Value(range.network), Open(range))
  {
    if ip.V4? == range.network.V4? && range.prefix <= Width(range.network) {
      ValueFits(ip);
      ValueFits(range.network);
      MaskedEqualIsShift(Value(ip), Value(range.network), Width(ip), range.prefix);
    }
  }

  /** Same family, a prefix no longer than the address, equal quotients by 2^(width - prefix). */
  predicate InBlock(ip: IpAddr, range: Range) {
    match (ip, range.network)
    case (V4(x), V4(n)) => range.prefix <= 32 && x / Pow2(32 - range.prefix) == n / Pow2(32 - range.prefix)
    case (V6(x), V6(n)) => range.prefix <= 128 && x / Pow2(128 - range.prefix) == n / Pow2(128 - range.prefix)
    case (_, _) => false
  }

  /** The mask test is membership in an aligned block of 2^(width - prefix) addresses, as section 3.1 of
      RFC 4632 defines prefixes: same family, valid prefix, equal quotients. */
  lemma InCidrIsBlock(ip: IpAddr, range: Range)
    ensures InCidr(ip, range) <==> InBlock(ip, range)
  {
    InCidrIsShift(ip, range);
    if range.prefix <= Width(range.network) {
      ShrIsQuotient(Value(ip), Open(range));
      ShrIsQuotient(Value(range.network), Open(range));
    }
  }

  ghost predicate Inside(r: Range, s: Range) {
    forall ip :: InCidr(ip, r) ==> InCidr(ip, s)
  }

  ghost predicate Disjoint(r: Range, s: Range) {
    forall ip :: !(InCidr(ip, r) && InCidr(ip, s))
  }

  /** Whether one range lies inside another, decided without looking at any address. */
  predicate Covers(s: Range, r: Range) {
    r.prefix > Width(r.network) || (s.prefix <= r.prefix && InCidr(r.network, s))
  }

  /** An address of `r` is in a shorter-prefix range exactly when the network of `r` is. */
  lemma ShorterAgrees(ip: IpAddr, r: Range, s: Range)
    requires InCidr(ip, r) && s.prefix <= r.prefix
    ensures InCidr(ip, s) <==> InCidr(r.network, s)
  {
    InCidrIsShift(ip, r);
    InCidrIsShift(ip, s);
    InCidrIsShift(r.network, s);
    if ip.V4? == s.network.V4? {
      ShrShr(Value(ip), Open(r), r.prefix - s.prefix);
      ShrShr(Value(r.network), Open(r), r.prefix - s.prefix);
    }
  }

  function WithValue(like: IpAddr, x: nat): (ip: IpAddr)
    requires x < Pow2(Width(like))
    ensures Width(ip) == Width(like) && ip.V4? == like.V4? && Value(ip) == x
  {
    Widths();
    if like.V4? then V4(x) else V6(x)
  }

  /** The address of a block with given low bits. */
  lemma BlockAddress(r: Range, low: nat) returns (ip: IpAddr)
    requires r.prefix <= Width(r.network) && low < Pow2(Open(r))
    ensures InCidr(ip, r) && ip.V4? == r.network.V4?
    ensures Value(ip) == Shl(Shr(Value(r.network), Open(r)), Open(r)) + low
  {
    var q := Shr(Value(r.network), Open(r));
    ValueFits(r.network);
    ShrBelow(Value(r.network), r.prefix, Open(r));
    ShlLow(q, r.prefix, Open(r), low);
    ip := WithValue(r.network, Shl(q, Open(r)) + low);
    InCidrIsShift(ip, r);
  }

  /** Both ends of a block cannot lie in one smaller block. */
  lemma EndsSeparate(r: Range, s: Range) returns (ip: IpAddr)
    requires r.prefix < s.prefix <= Width(s.network) && r.network.V4? == s.network.V4?
    ensures InCidr(ip, r) && !InCidr(ip, s)
  {
    var first := BlockAddress(r, 0);
    var last := BlockAddress(r, Pow2(Open(r)) - 1);
    BlockEnds(Shr(Value(r.network), Open(r)), Open(s), s.prefix - r.prefix);
    InCidrIsShift(first, s);
    InCidrIsShift(last, s);
    ip := if InCidr(first, s) then last else first;
  }

  /** `Covers` decides containment exactly. */
  lemma CoversIsInside(s: Range, r: Range)
    ensures Covers(s, r) <==> Inside(r, s)
  {
    if Covers(s, r) {
      forall ip | InCidr(ip, r)
        ensures InCidr(ip, s)
      {
        InCidrIsShift(ip, r);
        ShorterAgrees(ip, r, s);
      }
    } else {
      InCidrIsShift(r.network, r);
      InCidrIsShift(r.network, s);
      if InCidr(r.network, s) {
        var ip := EndsSeparate(r, s);
      }
    }
  }

  /** Any two ranges are nested or disjoint. */
  lemma NestedOrDisjoint(r: Range, s: Range)
    ensures Inside(r, s) || Inside(s, r) || Disjoint(r, s)
  {
    if !Disjoint(r, s) {
      var ip :| InCidr(ip, r) && InCidr(ip, s);
      if s.prefix <= r.prefix {
        ShorterAgrees(ip, r, s);
        CoversIsInside(s, r);
      } else {
        ShorterAgrees(ip, s, r);
        CoversIsInside(r, s);
      }
    }
  }

  /** A block is the union of its two halves, which are disjoint. */
  lemma Halves(r: Range) returns (low: Range, high: Range)
    requires r.prefix < Width(r.network)
    ensures low.prefix == high.prefix == r.prefix + 1
    ensures forall ip :: InCidr(ip, r) <==> InCidr(ip, low) || InCidr(ip, high)
    ensures Disjoint(low, high)
  {
    var q := Shr(Value(r.network), Open(r));
    low, high := HalfNetworks(r, q);
    forall ip
      ensures InCidr(ip, r) <==> InCidr(ip, low) || InCidr(ip, high)
      ensures !(InCidr(ip, low) && InCidr(ip, high))
    {
      HalfOf(ip, r, low, high, q);
    }
  }

  lemma HalfNetworks(r: Range, q: nat) returns (low: Range, high: Range)
    requires r.prefix < Width(r.network) && q == Shr(Value(r.network), Open(r))
    ensures low.prefix == high.prefix == r.prefix + 1 && low.network.V4? == high.network.V4? == r.network.V4?
    ensures Shr(Value(low.network), Open(low)) == 2 * q && Shr(Value(high.network), Open(high)) == 2 * q + 1
  {
    var a := Open(r) - 1;
    var first := BlockAddress(r, 0);
    var last := BlockAddress(r, Pow2(Open(r)) - 1);
    low, high := Range(first, r.prefix + 1), Range(last, r.prefix + 1);
    HalfValues(q, a, Value(first), Value(last));
    assert Open(low) == a && Open(high) == a;
  }

  lemma HalfValues(q: nat, a: nat, first: nat, last: nat)
    requires first == Shl(q, a + 1) && last == Shl(q, a + 1) + Pow2(a + 1) - 1
    ensures Shr(first, a) == 2 * q && Shr(last, a) == 2 * q + 1
  {
    BlockEnds(q, a, 1);
    assert Shl(q, 0) == q && Pow2(0) == 1;
  }

  lemma HalfOf(ip: IpAddr, r: Range, low: Range, high: Range, q: nat)
    requires r.prefix < Width(r.network) && q == Shr(Value(r.network), Open(r))
    requires low.prefix == high.prefix == r.prefix + 1 && low.network.V4? == high.network.V4? == r.network.V4?
    requires Shr(Value(low.network), Open(low)) == 2 * q && Shr(Value(high.network), Open(high)) == 2 * q + 1
    ensures InCidr(ip, r) <==> InCidr(ip, low) || InCidr(ip, high)
    ensures !(InCidr(ip, low) && InCidr(ip, high))
  {
    InCidrIsShift(ip, r);
    InCidrIsShift(ip, low);
    InCidrIsShift(ip, high);
    ShrShr(Value(ip), Open(low), 1);
    var x := Shr(Value(ip), Open(low));
    assert Shr(x, 1) == Shr(x / 2, 0) == x / 2;
  }

  // ---------------------------------------------------------------------------------------------
  // The filter

  datatype Decision = Allowed | Blocked(reason: string)

  function AnyMatch(ip: IpAddr, ranges: seq<Range>): bool {
    exists i :: 0 <= i < |ranges| && InCidr(ip, ranges[i])
  }

  class IpFilter {
    var allowlist: set<IpAddr>
    var blocklist: set<IpAddr>
    var allowRanges: seq<Range>
    var blockRanges: seq<Range>
    var enabled: bool
    var allowlistMode: bool

    constructor ()
      ensures allowlist == {} && blocklist == {} && allowRanges == [] && blockRanges == [] && !enabled && !allowlistMode
    {
      allowlist, blocklist, allowRanges, blockRanges := {}, {}, [], [];
      enabled, allowlistMode := false, false;
    }

    predicate InBlocklist(ip: IpAddr)
      reads this
    {
      ip in blocklist || AnyMatch(ip, blockRanges)
    }

    /** An empty allowlist admits everybody. */
    predicate InAllowlist(ip: IpAddr)
      reads this
    {
      (allowlist == {} && allowRanges == []) || ip in allowlist || AnyMatch(ip, allowRanges)
    }

    method IsInBlocklist(ip: IpAddr) returns (found: bool)
      ensures found == InBlocklist(ip)
    {
      if ip in blocklist {
        return true;
      }
      for i := 0 to |blockRanges|
        invariant forall k :: 0 <= k < i ==> !InCidr(ip, blockRanges[k])
      {
        if InCidr(ip, blockRanges[i]) {
          return true;
        }
      }
      return false;
    }

    method IsInAllowlist(ip: IpAddr) returns (found: bool)
      ensures found == InAllowlist(ip)
    {
      if allowlist == {} && allowRanges == [] {
        return true;
      }
      if ip in allowlist {
        return true;
      }
      for i := 0 to |allowRanges|
        invariant forall k :: 0 <= k < i ==> !InCidr(ip, allowRanges[k])
      {
        if InCidr(ip, allowRanges[i]) {
          return true;
        }
      }
      return false;
    }

    /** Disabled filters admit everybody; the blocklist comes first; in allowlist mode the rest must be listed. */
    method IsAllowed(ip: IpAddr) returns (decision: Decision)
      ensures decision.Allowed? <==> !enabled || (!InBlocklist(ip) && (allowlistMode ==> InAllowlist(ip)))
      ensures decision.Blocked? ==>
                decision.reason == if InBlocklist(ip) then "IP is in blocklist" else "IP is not in allowlist"
    {
      if !enabled {
        return Allowed;
      }
      var blocked := IsInBlocklist(ip);
      if blocked {
        return Blocked("IP is in blocklist");
      }
      if allowlistMode {
        var listed := IsInAllowlist(ip);
        decision := if listed then Allowed else Blocked("IP is not in allowlist");
      } else {
        decision := Allowed;
      }
    }

    method SetEnabled(on: bool)
      modifies this`enabled
      ensures enabled == on
    {
      enabled := on;
    }

    method SetAllowlistMode(on: bool)
      modifies this`allowlistMode
      ensures allowlistMode == on
    {
      allowlistMode := on;
    }

    method AllowCidr(range: Range)
      modifies this`allowRanges
      ensures allowRanges == old(allowRanges) + [range]
    {
      allowRanges := allowRanges + [range];
    }

    method BlockCidr(range: Range)
      modifies this`blockRanges
      ensures blockRanges == old(blockRanges) + [range]
    {
      blockRanges := blockRanges + [range];
    }
  }

  /** An address is listed if it is named or lies in a listed block; an empty allowlist lists everybody. */
  lemma ListedIff(f: IpFilter, ip: IpAddr)
    ensures f.InBlocklist(ip) <==>
      ip in f.blocklist || exists i :: 0 <= i < |f.blockRanges| && InBlock(ip, f.blockRanges[i])
    ensures f.InAllowlist(ip) <==>
      || (f.allowlist == {} && f.allowRanges == [])
      || ip in f.allowlist || exists i :: 0 <= i < |f.allowRanges| && InBlock(ip, f.allowRanges[i])
  {
    AnyMatchIff(ip, f.blockRanges);
    AnyMatchIff(ip, f.allowRanges);
  }

  lemma AnyMatchIff(ip: IpAddr, ranges: seq<Range>)
    ensures AnyMatch(ip, ranges) <==> exists i :: 0 <= i < |ranges| && InBlock(ip, ranges[i])
  {
    forall i | 0 <= i < |ranges|
      ensures InCidr(ip, ranges[i]) <==> InBlock(ip, ranges[i])
    {
      InCidrIsBlock(ip, ranges[i]);
    }
  }

  /** Removing a range that another range of the same list covers changes no match, and leaves the list
      nonempty, so no answer of the filter changes. */
  lemma RedundantRange(ranges: seq<Range>, i: nat, k: nat, ip: IpAddr)
    requires i < |ranges| && k < |ranges| && i != k && Covers(ranges[k], ranges[i])
    ensures var rest := ranges[..i] + ranges[i+1..];
      rest != [] && (AnyMatch(ip, rest) <==> AnyMatch(ip, ranges))
  {
    var rest := ranges[..i] + ranges[i+1..];
    var k' := if k < i then k else k - 1;
    assert rest[k'] == ranges[k];
    if j :| 0 <= j < |ranges| && InCidr(ip, ranges[j]) {
      if j == i {
        CoversIsInside(ranges[k], ranges[i]);
        assert InCidr(ip, rest[k']);
      } else {
        var j' := if j < i then j else j - 1;
        assert rest[j'] == ranges[j];
        assert InCidr(ip, rest[j']);
      }
    }
    if j :| 0 <= j < |rest| && InCidr(ip, rest[j]) {
      var j' := if j < i then j else j + 1;
      assert ranges[j'] == rest[j];
    }
  }

  /** The same on two filters that differ in one redundant range. */
  method SameAnswers(f: IpFilter, g: IpFilter, i: nat, k: nat, blockSide: bool, ip: IpAddr)
      returns (d: Decision, e: Decision)
    requires f.enabled == g.enabled && f.allowlistMode == g.allowlistMode
    requires f.allowlist == g.allowlist && f.blocklist == g.blocklist
    requires var ranges := if blockSide then f.blockRanges else f.allowRanges;
      && i < |ranges| && k < |ranges| && i != k && Covers(ranges[k], ranges[i])
      && (if blockSide then g.blockRanges else g.allowRanges) == ranges[..i] + ranges[i+1..]
    requires if blockSide then f.allowRanges == g.allowRanges else f.blockRanges == g.blockRanges
    ensures d == e
  {
    RedundantRange(if blockSide then f.blockRanges else f.allowRanges, i, k, ip);
    d := f.IsAllowed(ip);
    e := g.IsAllowed(ip);
  }
}

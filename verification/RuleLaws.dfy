/** What the rules do to a message, in terms of its fields: when a condition holds, and what each action
    leaves when its rule is the only one of a list that fires. */
module RuleLaws {
  import opened Options
  import opened Blob
  import opened Text
  import opened Rules

  // ---------------------------------------------------------------------------------------------
  // Text

  /** The pieces between the occurrences of a target are joined by the replacement. */
  lemma ReplacesPieces(parts: seq<string>, target: string, replacement: string)
    requires target != "" && Pieces(parts, target)
    ensures ReplaceText(Join(parts, target), target, replacement) == Join(parts, replacement)
  {
    ReplaceJoins(parts, target, replacement);
  }

  /** The empty target stands at both ends of the text and between any two characters. */
  lemma {:induction false} ReplacesNothing(x: string, c: char, y: string, replacement: string)
    ensures ReplaceText("", "", replacement) == replacement
    ensures ReplaceText(x + [c] + y, "", replacement)
         == ReplaceText(x, "", replacement) + [c] + ReplaceText(y, "", replacement)
    decreases |x|
  {
    var s := x + [c] + y;
    if x == "" {
      assert s == [c] + y && s[1..] == y;
    } else {
      assert s[1..] == x[1..] + [c] + y;
      ReplacesNothing(x[1..], c, y, replacement);
      var head, rest := replacement + [x[0]], ReplaceText(x[1..], "", replacement);
      assert ReplaceText(x, "", replacement) == head + rest;
      assert ReplaceText(s, "", replacement) == head + (rest + [c] + ReplaceText(y, "", replacement));
    }
  }

  /** A text can be a header value unless it holds a control character other than the tab. */
  predicate Sendable(v: Bytes) {
    forall i :: 0 <= i < |v| ==> v[i] == 9 || (32 <= v[i] && v[i] != 127)
  }

  lemma FromTextIs(lib: Library, s: string)
    ensures FromText(lib, s) == if Sendable(lib.utf8(s)) then Some(lib.utf8(s)) else None
  {
  }

  /** The text of a header value: its bytes, all of which are visible ASCII or tabs. */
  predicate Shows(v: Bytes, t: string) {
    |t| == |v| && forall i :: 0 <= i < |v| ==> (v[i] == 9 || 32 <= v[i] < 127) && t[i] as nat == v[i]
  }

  /** The text of a header is that of its first value, if it is present and has one. */
  lemma HeaderTextIff(lib: Library, headers: Headers, key: string, t: string)
    ensures HeaderText(lib, headers, key) == Some(t) <==>
      var name := lib.parseName(key); name.Some? && name.value in headers && Shows(headers[name.value][0], t)
  {
    var name := lib.parseName(key);
    if name.Some? && name.value in headers && Shows(headers[name.value][0], t) {
      assert ToText(headers[name.value][0]).value == t;
    }
  }

  // ---------------------------------------------------------------------------------------------
  // Conditions

  /** Some text stands before and after the part. */
  ghost predicate Holds(s: string, part: string) {
    exists a: string, b: string :: s == a + part + b
  }

  ghost predicate HeaderHas(lib: Library, m: Message, key: string, t: string) {
    var name := lib.parseName(key);
    name.Some? && name.value in m.headers && Shows(m.headers[name.value][0], t)
  }

  predicate Matches(lib: Library, pattern: string, s: string) {
    lib.compile(pattern).Some? && lib.isMatch(lib.compile(pattern).value, s)
  }

  /** When a condition holds: URLs are those of requests, headers are read as text, bodies as UTF-8 with
      replacement characters, and a pattern that does not compile matches nothing. */
  lemma SatisfiedIff(lib: Library, c: Condition, m: Message)
    ensures Satisfied(lib, c, Compiled(lib, ConditionPattern(c, m)), m) <==>
      match c
      case UrlContains(part) => m.Request? && Holds(m.uri, part)
      case UrlRegex(pattern) => m.Request? && Matches(lib, pattern, m.uri)
      case HeaderContains(key, part) => exists t :: HeaderHas(lib, m, key, t) && Holds(t, part)
      case HeaderRegex(key, pattern) => exists t :: HeaderHas(lib, m, key, t) && Matches(lib, pattern, t)
      case BodyContains(part) => Holds(lib.lossy(m.body), part)
      case BodyRegex(pattern) => Matches(lib, pattern, lib.lossy(m.body))
  {
    match c
    case UrlContains(part) => if m.Request? { ContainsIff(m.uri, part); }
    case BodyContains(part) => ContainsIff(lib.lossy(m.body), part);
    case HeaderContains(key, part) => HeaderContainsIff(lib, m, key, part);
    case HeaderRegex(key, pattern) => HeaderRegexIff(lib, m, key, pattern);
    case _ =>
  }

  lemma HeaderContainsIff(lib: Library, m: Message, key: string, part: string)
    ensures (var text := HeaderText(lib, m.headers, key); text.Some? && Contains(text.value, part)) <==>
      exists t :: HeaderHas(lib, m, key, t) && Holds(t, part)
  {
    var text := HeaderText(lib, m.headers, key);
    if text.Some? {
      HeaderTextIff(lib, m.headers, key, text.value);
      ContainsIff(text.value, part);
      assert HeaderHas(lib, m, key, text.value);
    }
    if t :| HeaderHas(lib, m, key, t) && Holds(t, part) {
      HeaderTextIff(lib, m.headers, key, t);
    }
  }

  lemma HeaderRegexIff(lib: Library, m: Message, key: string, pattern: string)
    ensures (var text := HeaderText(lib, m.headers, key); text.Some? && Matches(lib, pattern, text.value)) <==>
      exists t :: HeaderHas(lib, m, key, t) && Matches(lib, pattern, t)
  {
    var text := HeaderText(lib, m.headers, key);
    if text.Some? {
      HeaderTextIff(lib, m.headers, key, text.value);
      assert HeaderHas(lib, m, key, text.value);
    }
    if t :| HeaderHas(lib, m, key, t) && Matches(lib, pattern, t) {
      HeaderTextIff(lib, m.headers, key, t);
    }
  }

  // ---------------------------------------------------------------------------------------------
  // Lists in which one rule fires

  predicate Fires(lib: Library, rule: Rule, m: Message) {
    && rule.active && (if m.Request? then rule.ruleType == ForRequests else rule.ruleType == ForResponses)
    && Satisfied(lib, rule.condition, Compiled(lib, ConditionPattern(rule.condition, m)), m)
  }

  /** A list none of whose rules fires leaves the message alone. */
  lemma {:induction false} NoneFires(lib: Library, rules: seq<Rule>, m: Message)
    requires forall k :: 0 <= k < |rules| ==> !Fires(lib, rules[k], m)
    ensures ApplyAll(lib, rules, m) == m
    decreases |rules|
  {
    if rules != [] {
      assert ApplyRule(lib, rules[0], m) == m;
      NoneFires(lib, rules[1..], m);
    }
  }

  /** Rule `k` fires on the message, no rule before it does, and none after it on what it leaves. */
  predicate OnlyFires(lib: Library, rules: seq<Rule>, k: nat, m: Message) {
    && k < |rules| && Fires(lib, rules[k], m)
    && (forall i :: 0 <= i < k ==> !Fires(lib, rules[i], m))
    && (forall i :: k < i < |rules| ==> !Fires(lib, rules[i], ApplyRule(lib, rules[k], m)))
  }

  lemma {:induction false} OneActs(lib: Library, rules: seq<Rule>, k: nat, m: Message)
    requires OnlyFires(lib, rules, k, m)
    ensures ApplyAll(lib, rules, m)
         == Performed(lib, rules[k].action, Compiled(lib, ActionPattern(rules[k].action)), m)
    decreases k
  {
    if k == 0 {
      forall i | 0 <= i < |rules[1..]|
        ensures !Fires(lib, rules[1..][i], ApplyRule(lib, rules[0], m))
      {
        assert rules[1..][i] == rules[i + 1];
      }
      NoneFires(lib, rules[1..], ApplyRule(lib, rules[0], m));
    } else {
      assert ApplyRule(lib, rules[0], m) == m && !Fires(lib, rules[0], m);
      assert rules[1..][k-1] == rules[k];
      OneActs(lib, rules[1..], k - 1, m);
    }
  }

  /** All but one header of two messages agree, and the target. */
  ghost predicate SameElse(m: Message, m': Message, name: string) {
    && SameTarget(m, m')
    && forall other :: other != name ==> SameHeader(m, m', other)
  }

  /** A message with a new body: its Content-Length, where there is one, is one decimal number, its length. */
  ghost predicate Rebodied(lib: Library, m: Message, m': Message, text: string) {
    && m'.body == lib.utf8(text) && SameElse(m, m', "content-length")
    && ("content-length" in m'.headers <==> "content-length" in m.headers)
    && ("content-length" in m'.headers ==>
          |m'.headers["content-length"]| == 1 && Denotes(m'.headers["content-length"][0], |m'.body|))
  }

  lemma WithBodyElse(lib: Library, m: Message, text: string)
    ensures var m' := WithBody(lib, m, text);
      && m'.body == lib.utf8(text) && SameElse(m, m', "content-length")
      && ("content-length" in m'.headers <==> "content-length" in m.headers)
  {
  }

  lemma WithBodyLength(lib: Library, m: Message, text: string)
    requires Lawful(lib) && "content-length" in m.headers
    ensures var m' := WithBody(lib, m, text);
      "content-length" in m'.headers && |m'.headers["content-length"]| == 1
      && Denotes(m'.headers["content-length"][0], |m'.body|)
  {
    var n := |lib.utf8(text)|;
    LengthText(lib, n);
    var v := FromText(lib, Decimal(n)).value;
    assert WithBody(lib, m, text).headers["content-length"] == [v];
  }

  lemma WithBodyIs(lib: Library, m: Message, text: string)
    requires Lawful(lib)
    ensures Rebodied(lib, m, WithBody(lib, m, text), text)
  {
    WithBodyElse(lib, m, text);
    if "content-length" in m.headers {
      WithBodyLength(lib, m, text);
    }
  }

  /** A body replacement: the pieces of the decoded body, joined by the replacement, encoded again. */
  lemma ReplaceBodyActs(lib: Library, rules: seq<Rule>, k: nat, m: Message, parts: seq<string>)
    requires Lawful(lib) && OnlyFires(lib, rules, k, m) && rules[k].action.ReplaceBody?
    requires var target := rules[k].action.target;
      target != "" && Pieces(parts, target) && lib.lossy(m.body) == Join(parts, target)
    ensures Rebodied(lib, m, ApplyAll(lib, rules, m), Join(parts, rules[k].action.replacement))
  {
    OneActs(lib, rules, k, m);
    ReplacesPieces(parts, rules[k].action.target, rules[k].action.replacement);
    WithBodyIs(lib, m, Join(parts, rules[k].action.replacement));
  }

  /** An empty target is replaced at both ends and between any two characters (`ReplacesNothing`). */
  lemma EmptyTargetActs(lib: Library, rules: seq<Rule>, k: nat, m: Message)
    requires Lawful(lib) && OnlyFires(lib, rules, k, m) && rules[k].action.ReplaceBody? && rules[k].action.target == ""
    ensures Rebodied(lib, m, ApplyAll(lib, rules, m), ReplaceText(lib.lossy(m.body), "", rules[k].action.replacement))
  {
    OneActs(lib, rules, k, m);
    WithBodyIs(lib, m, ReplaceText(lib.lossy(m.body), "", rules[k].action.replacement));
  }

  /** A pattern that compiles replaces all its matches in the decoded body; another leaves it alone. */
  lemma RegexReplaceBodyActs(lib: Library, rules: seq<Rule>, k: nat, m: Message)
    requires Lawful(lib) && OnlyFires(lib, rules, k, m) && rules[k].action.RegexReplaceBody?
    ensures var a, m' := rules[k].action, ApplyAll(lib, rules, m);
      match lib.compile(a.pattern)
      case None => m' == m
      case Some(regex) => Rebodied(lib, m, m', lib.replaceAll(regex, lib.lossy(m.body), a.replacement))
  {
    OneActs(lib, rules, k, m);
    var a := rules[k].action;
    if lib.compile(a.pattern).Some? {
      WithBodyIs(lib, m, lib.replaceAll(lib.compile(a.pattern).value, lib.lossy(m.body), a.replacement));
    }
  }

  /** One header has exactly one value, and all else is as before. */
  ghost predicate HasOnly(m: Message, m': Message, name: string, v: Bytes) {
    m'.body == m.body && SameElse(m, m', name) && name in m'.headers && m'.headers[name] == [v]
  }

  lemma WithHeaderIs(lib: Library, m: Message, key: string, value: string)
    ensures var name, m' := lib.parseName(key), WithHeader(lib, m, key, value);
      if name.Some? && Sendable(lib.utf8(value)) then HasOnly(m, m', name.value, lib.utf8(value)) else m' == m
  {
    FromTextIs(lib, value);
  }

  /** Setting a header leaves it exactly the new value; a name or value that cannot be one changes nothing. */
  lemma SetHeaderActs(lib: Library, rules: seq<Rule>, k: nat, m: Message)
    requires OnlyFires(lib, rules, k, m) && rules[k].action.SetHeader?
    ensures var a, m' := rules[k].action, ApplyAll(lib, rules, m); var name := lib.parseName(a.key);
      if name.Some? && Sendable(lib.utf8(a.value)) then HasOnly(m, m', name.value, lib.utf8(a.value)) else m' == m
  {
    OneActs(lib, rules, k, m);
    WithHeaderIs(lib, m, rules[k].action.key, rules[k].action.value);
  }

  /** Removing a header leaves none of its values. */
  lemma RemoveHeaderActs(lib: Library, rules: seq<Rule>, k: nat, m: Message)
    requires OnlyFires(lib, rules, k, m) && rules[k].action.RemoveHeader?
    ensures var name, m' := lib.parseName(rules[k].action.key), ApplyAll(lib, rules, m);
      if name.Some? then m'.body == m.body && SameElse(m, m', name.value) && name.value !in m'.headers else m' == m
  {
    OneActs(lib, rules, k, m);
  }

  /** Rewriting a header stores the rewritten text of its first value as the only one; if the pattern does not
      compile, the header has no such text, or the outcome cannot be a value, nothing changes. */
  lemma RegexReplaceHeaderActs(lib: Library, rules: seq<Rule>, k: nat, m: Message)
    requires OnlyFires(lib, rules, k, m) && rules[k].action.RegexReplaceHeader?
    ensures var a, m' := rules[k].action, ApplyAll(lib, rules, m); var regex := lib.compile(a.pattern);
      && (regex.None? || (forall t :: !HeaderHas(lib, m, a.key, t)) ==> m' == m)
      && (regex.Some? ==> forall t :: HeaderHas(lib, m, a.key, t) ==>
            var v := lib.utf8(lib.replaceAll(regex.value, t, a.replacement));
            if Sendable(v) then HasOnly(m, m', lib.parseName(a.key).value, v) else m' == m)
  {
    OneActs(lib, rules, k, m);
    var a := rules[k].action;
    var regex, text := lib.compile(a.pattern), HeaderText(lib, m.headers, a.key);
    if text.Some? {
      HeaderTextIff(lib, m.headers, a.key, text.value);
      assert HeaderHas(lib, m, a.key, text.value);
    }
    if regex.Some? {
      forall t | HeaderHas(lib, m, a.key, t)
        ensures var v := lib.utf8(lib.replaceAll(regex.value, t, a.replacement)); var m' := ApplyAll(lib, rules, m);
          if Sendable(v) then HasOnly(m, m', lib.parseName(a.key).value, v) else m' == m
      {
        HeaderTextIff(lib, m.headers, a.key, t);
        WithHeaderIs(lib, m, a.key, lib.replaceAll(regex.value, t, a.replacement));
      }
    }
  }

  /** Applying a list after another is applying both, so these laws carry to any list, rule by rule. */
  lemma {:induction false} ListsInTurn(lib: Library, rules: seq<Rule>, more: seq<Rule>, m: Message)
    ensures ApplyAll(lib, rules + more, m) == ApplyAll(lib, more, ApplyAll(lib, rules, m))
    decreases |rules|
  {
    if rules == [] {
      assert rules + more == more;
    } else {
      assert (rules + more)[1..] == rules[1..] + more;
      ListsInTurn(lib, rules[1..], more, ApplyRule(lib, rules[0], m));
    }
  }
}

/** The rewrite rules of the proxy: an ordered list applied to headers and body, with a cache of
    compiled patterns that must not be observable.

    Regular expressions, UTF-8 and the parsing of header names are parameters, known only by the law
    in `Lawful`; a compiled pattern is known by a handle. */
module Rules {
  import opened Options
  import opened Blob
  import opened Text

  datatype Regex = Regex(handle: nat)

  datatype Library = Library(
    compile: string -> Option<Regex>,
    isMatch: (Regex, string) -> bool,
    replaceAll: (Regex, string, string) -> string,
    lossy: Bytes -> string,                // invalid sequences become replacement characters
    utf8: string -> Bytes,
    parseName: string -> Option<string>)   // in lower case, if it is a header name

  datatype Condition =
    | UrlContains(part: string)
    | HeaderContains(key: string, part: string)
    | BodyContains(part: string)
    | UrlRegex(pattern: string)
    | HeaderRegex(key: string, pattern: string)
    | BodyRegex(pattern: string)

  datatype Action =
    | ReplaceBody(target: string, replacement: string)
    | SetHeader(key: string, value: string)
    | RemoveHeader(key: string)
    | RegexReplaceBody(pattern: string, replacement: string)
    | RegexReplaceHeader(key: string, pattern: string, replacement: string)

  datatype RuleType = ForRequests | ForResponses

  datatype Rule = Rule(active: bool, ruleType: RuleType, condition: Condition, action: Action)

  /** The values of each header present, in order. */
  type Headers = h: map<string, seq<Bytes>> | forall name :: name in h ==> h[name] != []

  datatype Message =
    | Request(uri: string, headers: Headers, body: Bytes)
    | Response(headers: Headers, body: Bytes)

  const CONTENT_LENGTH: string := "content-length"

  // ---------------------------------------------------------------------------------------------
  // Text and header values

  /** `str::replace`, for an empty target too. */
  function ReplaceText(s: string, target: string, replacement: string): string {
    if target == "" then Interspersed(s, replacement) else Replace(s, target, replacement)
  }

  function Interspersed(s: string, between: string): string {
    between + if s == "" then "" else [s[0]] + Interspersed(s[1..], between)
  }

  /** `HeaderValue::from_str` refuses control characters; `to_str` wants visible ASCII. */
  function FromText(lib: Library, s: string): Option<Bytes> {
    var v := lib.utf8(s);
    if forall i :: 0 <= i < |v| ==> v[i] == 9 || (32 <= v[i] && v[i] != 127) then Some(v) else None
  }

  function ToText(v: Bytes): Option<string> {
    if forall i :: 0 <= i < |v| ==> v[i] == 9 || 32 <= v[i] < 127
    then Some(seq(|v|, i requires 0 <= i < |v| => (v[i] as nat) as char))
    else None
  }

  /** The first value of a header, as text. */
  function HeaderText(lib: Library, headers: Headers, key: string): Option<string> {
    var name := lib.parseName(key);
    if name.Some? && name.value in headers then ToText(headers[name.value][0]) else None
  }

  function Decimal(n: nat): (s: string)
    ensures s != "" && forall i :: 0 <= i < |s| ==> '0' <= s[i] <= '9'
  {
    (if n < 10 then "" else Decimal(n / 10)) + ['0' + (n % 10) as char]
  }

  function ResetLength(lib: Library, headers: Headers, body: Bytes): Headers {
    var v := FromText(lib, Decimal(|body|));
    if CONTENT_LENGTH in headers && v.Some? then headers[CONTENT_LENGTH := [v.value]] else headers
  }

  // ---------------------------------------------------------------------------------------------
  // The meaning of a list of rules, with no cache

  predicate Applies(rule: Rule, m: Message) {
    rule.active && (rule.ruleType == ForRequests <==> m.Request?)
  }

  /** The pattern a condition compiles; a response has no URL to look at. */
  function ConditionPattern(c: Condition, m: Message): Option<string> {
    match c
    case UrlRegex(pattern) => if m.Request? then Some(pattern) else None
    case HeaderRegex(_, pattern) => Some(pattern)
    case BodyRegex(pattern) => Some(pattern)
    case _ => None
  }

  function ActionPattern(a: Action): Option<string> {
    match a
    case RegexReplaceBody(pattern, _) => Some(pattern)
    case RegexReplaceHeader(_, pattern, _) => Some(pattern)
    case _ => None
  }

  function Compiled(lib: Library, pattern: Option<string>): Option<Regex> {
    if pattern.None? then None else lib.compile(pattern.value)
  }

  predicate Satisfied(lib: Library, c: Condition, regex: Option<Regex>, m: Message) {
    match c
    case UrlContains(part) => m.Request? && Contains(m.uri, part)
    case UrlRegex(_) => m.Request? && regex.Some? && lib.isMatch(regex.value, m.uri)
    case HeaderContains(key, part) =>
      var text := HeaderText(lib, m.headers, key);
      text.Some? && Contains(text.value, part)
    case HeaderRegex(key, _) =>
      var text := HeaderText(lib, m.headers, key);
      regex.Some? && text.Some? && lib.isMatch(regex.value, text.value)
    case BodyContains(part) => Contains(lib.lossy(m.body), part)
    case BodyRegex(_) => regex.Some? && lib.isMatch(regex.value, lib.lossy(m.body))
  }

  function WithBody(lib: Library, m: Message, s: string): Message {
    m.(body := lib.utf8(s), headers := ResetLength(lib, m.headers, lib.utf8(s)))
  }

  function WithHeader(lib: Library, m: Message, key: string, value: string): Message {
    var name, v := lib.parseName(key), FromText(lib, value);
    if name.Some? && v.Some? then m.(headers := m.headers[name.value := [v.value]]) else m
  }

  function Performed(lib: Library, a: Action, regex: Option<Regex>, m: Message): Message {
    match a
    case ReplaceBody(target, replacement) => WithBody(lib, m, ReplaceText(lib.lossy(m.body), target, replacement))
    case RegexReplaceBody(_, replacement) =>
      if regex.Some? then WithBody(lib, m, lib.replaceAll(regex.value, lib.lossy(m.body), replacement)) else m
    case SetHeader(key, value) => WithHeader(lib, m, key, value)
    case RegexReplaceHeader(key, _, replacement) =>
      var text := HeaderText(lib, m.headers, key);
      if regex.Some? && text.Some?
      then WithHeader(lib, m, key, lib.replaceAll(regex.value, text.value, replacement))
      else m
    case RemoveHeader(key) =>
      var name := lib.parseName(key);
      if name.Some? then m.(headers := m.headers - {name.value}) else m
  }

  function ApplyRule(lib: Library, rule: Rule, m: Message): Message {
    if Applies(rule, m) && Satisfied(lib, rule.condition, Compiled(lib, ConditionPattern(rule.condition, m)), m)
    then Performed(lib, rule.action, Compiled(lib, ActionPattern(rule.action)), m)
    else m
  }

  function ApplyAll(lib: Library, rules: seq<Rule>, m: Message): Message
    decreases |rules|
  {
    if rules == [] then m else ApplyAll(lib, rules[1..], ApplyRule(lib, rules[0], m))
  }

  // ---------------------------------------------------------------------------------------------
  // The engine

  type Cache = map<string, Regex>

  predicate Sound(lib: Library, cache: Cache) {
    forall p :: p in cache ==> lib.compile(p) == Some(cache[p])
  }

  /** The message being rewritten; a response has no URI. */
  class Parts {
    const uri: Option<string>
    var headers: Headers
    var body: Bytes

    constructor (uri: Option<string>, headers: Headers, body: Bytes)
      ensures Value() ==
        if uri.Some? then Message.Request(uri.value, headers, body) else Message.Response(headers, body)
    {
      this.uri, this.headers, this.body := uri, headers, body;
    }

    function Value(): Message
      reads this
    {
      if uri.Some? then Message.Request(uri.value, headers, body) else Message.Response(headers, body)
    }
  }

  class RuleEngine {
    const lib: Library
    var rules: seq<Rule>
    var cache: Cache

    constructor (lib: Library)
      ensures this.lib == lib && rules == [] && cache == map[]
    {
      this.lib, rules, cache := lib, [], map[];
    }

    method AddRule(rule: Rule)
      modifies this`rules
      ensures rules == old(rules) + [rule]
    {
      rules := rules + [rule];
    }

    method ClearRules()
      modifies this`rules, this`cache
      ensures rules == [] && cache == map[]
    {
      rules := [];
      cache := map[];
    }

    method GetRegex(pattern: string) returns (r: Option<Regex>)
      requires Sound(lib, cache)
      modifies this`cache
      ensures Sound(lib, cache)
      ensures r == lib.compile(pattern)
      ensures cache == if r.Some? then old(cache)[pattern := r.value] else old(cache)
    {
      if pattern in cache {
        return Some(cache[pattern]);
      }
      r := lib.compile(pattern);
      if r.Some? {
        cache := cache[pattern := r.value];
      }
    }

    method MatchesRequest(rule: Rule, parts: Parts) returns (matches: bool)
      requires Sound(lib, cache) && parts.uri.Some?
      modifies this`cache
      ensures Sound(lib, cache)
      ensures var m := parts.Value();
        matches == Satisfied(lib, rule.condition, Compiled(lib, ConditionPattern(rule.condition, m)), m)
    {
      match rule.condition {
        case UrlContains(part) => matches := Contains(parts.uri.value, part);
        case UrlRegex(pattern) =>
          var regex := GetRegex(pattern);
          matches := regex.Some? && lib.isMatch(regex.value, parts.uri.value);
        case HeaderContains(key, part) =>
          var text := HeaderText(lib, parts.headers, key);
          matches := text.Some? && Contains(text.value, part);
        case HeaderRegex(key, pattern) =>
          var regex := GetRegex(pattern);
          var text := HeaderText(lib, parts.headers, key);
          matches := regex.Some? && text.Some? && lib.isMatch(regex.value, text.value);
        case BodyContains(part) => matches := Contains(lib.lossy(parts.body), part);
        case BodyRegex(pattern) =>
          var regex := GetRegex(pattern);
          matches := regex.Some? && lib.isMatch(regex.value, lib.lossy(parts.body));
      }
    }

    method MatchesResponse(rule: Rule, parts: Parts) returns (matches: bool)
      requires Sound(lib, cache) && parts.uri.None?
      modifies this`cache
      ensures Sound(lib, cache)
      ensures var m := parts.Value();
        matches == Satisfied(lib, rule.condition, Compiled(lib, ConditionPattern(rule.condition, m)), m)
    {
      match rule.condition {
        case UrlContains(_) => matches := false;
        case UrlRegex(_) => matches := false;
        case HeaderContains(key, part) =>
          var text := HeaderText(lib, parts.headers, key);
          matches := text.Some? && Contains(text.value, part);
        case HeaderRegex(key, pattern) =>
          var regex := GetRegex(pattern);
          var text := HeaderText(lib, parts.headers, key);
          matches := regex.Some? && text.Some? && lib.isMatch(regex.value, text.value);
        case BodyContains(part) => matches := Contains(lib.lossy(parts.body), part);
        case BodyRegex(pattern) =>
          var regex := GetRegex(pattern);
          matches := regex.Some? && lib.isMatch(regex.value, lib.lossy(parts.body));
      }
    }

    method ExecuteAction(rule: Rule, parts: Parts)
      requires Sound(lib, cache)
      modifies this`cache, parts`headers, parts`body
      ensures Sound(lib, cache)
      ensures parts.Value()
           == Performed(lib, rule.action, Compiled(lib, ActionPattern(rule.action)), old(parts.Value()))
    {
      match rule.action {
        case ReplaceBody(target, replacement) =>
          SetBody(ReplaceText(lib.lossy(parts.body), target, replacement), parts);
        case RegexReplaceBody(pattern, replacement) =>
          var regex := GetRegex(pattern);
          if regex.Some? {
            SetBody(lib.replaceAll(regex.value, lib.lossy(parts.body), replacement), parts);
          }
        case SetHeader(key, value) =>
          var name, v := lib.parseName(key), FromText(lib, value);
          if name.Some? && v.Some? {
            parts.headers := parts.headers[name.value := [v.value]];
          }
        case RegexReplaceHeader(key, pattern, replacement) =>
          var regex := GetRegex(pattern);
          if regex.Some? {
            RewriteHeader(key, regex.value, replacement, parts);
          }
        case RemoveHeader(key) =>
          var name := lib.parseName(key);
          if name.Some? {
            parts.headers := parts.headers - {name.value};
          }
      }
    }

    method RewriteHeader(key: string, regex: Regex, replacement: string, parts: Parts)
      modifies parts`headers
      ensures var text := HeaderText(lib, old(parts.headers), key);
        parts.Value() ==
          if text.Some?
          then WithHeader(lib, old(parts.Value()), key, lib.replaceAll(regex, text.value, replacement))
          else old(parts.Value())
    {
      var name := lib.parseName(key);
      if name.Some? && name.value in parts.headers {
        var text := ToText(parts.headers[name.value][0]);
        if text.Some? {
          var v := FromText(lib, lib.replaceAll(regex, text.value, replacement));
          if v.Some? {
            parts.headers := parts.headers[name.value := [v.value]];
          }
        }
      }
    }

    method SetBody(s: string, parts: Parts)
      modifies parts`headers, parts`body
      ensures parts.Value() == WithBody(lib, old(parts.Value()), s)
    {
      parts.body := lib.utf8(s);
      if CONTENT_LENGTH in parts.headers {
        var v := FromText(lib, Decimal(|parts.body|));
        if v.Some? {
          parts.headers := parts.headers[CONTENT_LENGTH := [v.value]];
        }
      }
    }

    /** The cache is not observable: the outcome is that of an engine that compiles every time. */
    method ApplyRequestRules(parts: Parts)
      requires Sound(lib, cache) && parts.uri.Some?
      modifies this`cache, parts`headers, parts`body
      ensures Sound(lib, cache)
      ensures parts.Value() == ApplyAll(lib, rules, old(parts.Value()))
    {
      for i := 0 to |rules|
        invariant Sound(lib, cache)
        invariant ApplyAll(lib, rules[i..], parts.Value()) == ApplyAll(lib, rules, old(parts.Value()))
      {
        var rule := rules[i];
        assert rules[i..][1..] == rules[i+1..];
        if rule.active && rule.ruleType == ForRequests {
          var matches := MatchesRequest(rule, parts);
          if matches {
            ExecuteAction(rule, parts);
          }
        }
      }
    }

    method ApplyResponseRules(parts: Parts)
      requires Sound(lib, cache) && parts.uri.None?
      modifies this`cache, parts`headers, parts`body
      ensures Sound(lib, cache)
      ensures parts.Value() == ApplyAll(lib, rules, old(parts.Value()))
    {
      for i := 0 to |rules|
        invariant Sound(lib, cache)
        invariant ApplyAll(lib, rules[i..], parts.Value()) == ApplyAll(lib, rules, old(parts.Value()))
      {
        var rule := rules[i];
        assert rules[i..][1..] == rules[i+1..];
        if rule.active && rule.ruleType == ForResponses {
          var matches := MatchesResponse(rule, parts);
          if matches {
            ExecuteAction(rule, parts);
          }
        }
      }
    }
  }

  // ---------------------------------------------------------------------------------------------
  // Content-Length

  predicate Digit(b: Byte) {
    48 <= b <= 57
  }

  function Value(b: Byte): nat
    requires Digit(b)
  {
    b as nat - 48
  }

  function Number(v: Bytes): nat
    requires forall i :: 0 <= i < |v| ==> Digit(v[i])
  {
    if v == [] then 0 else 10 * Number(v[..|v|-1]) + Value(v[|v|-1])
  }

  /** Section 8.6 of RFC 9110: a Content-Length value is a nonempty string of digits. */
  predicate Denotes(v: Bytes, n: nat) {
    v != [] && (forall i :: 0 <= i < |v| ==> Digit(v[i])) && Number(v) == n
  }

  /** Content-Length is absent, or each of its values is the length of the body. */
  predicate LengthAgrees(m: Message) {
    CONTENT_LENGTH in m.headers ==>
      forall k :: 0 <= k < |m.headers[CONTENT_LENGTH]| ==> Denotes(m.headers[CONTENT_LENGTH][k], |m.body|)
  }

  function Ascii(s: string): (v: Bytes)
    requires forall i :: 0 <= i < |s| ==> s[i] < 128 as char
    ensures |v| == |s| && forall i :: 0 <= i < |s| ==> v[i] == s[i] as nat
  {
    seq(|s|, i requires 0 <= i < |s| => s[i] as nat)
  }

  /** UTF-8 leaves ASCII alone. */
  ghost predicate Lawful(lib: Library) {
    forall s: string :: (forall i :: 0 <= i < |s| ==> s[i] < 128 as char) ==> lib.utf8(s) == Ascii(s)
  }

  lemma NumberAppend(v: Bytes, b: Byte)
    requires (forall i :: 0 <= i < |v| ==> Digit(v[i])) && Digit(b)
    ensures Number(v + [b]) == 10 * Number(v) + Value(b)
  {
    assert (v + [b])[..|v|] == v;
  }

  lemma {:induction false} DecimalDenotes(n: nat)
    ensures Denotes(Ascii(Decimal(n)), n)
  {
    var front := if n < 10 then "" else Decimal(n / 10);
    var last: Byte := 48 + n % 10;
    assert Ascii(Decimal(n)) == Ascii(front) + [last];
    if n >= 10 {
      DecimalDenotes(n / 10);
    }
    NumberAppend(Ascii(front), last);
  }

  lemma LengthText(lib: Library, n: nat)
    requires Lawful(lib)
    ensures FromText(lib, Decimal(n)).Some? && Denotes(FromText(lib, Decimal(n)).value, n)
  {
    DecimalDenotes(n);
    assert lib.utf8(Decimal(n)) == Ascii(Decimal(n));
  }

  /** Replacing a body makes Content-Length agree, whatever it was before. */
  lemma NewBodyAgrees(lib: Library, m: Message, s: string)
    requires Lawful(lib)
    ensures LengthAgrees(WithBody(lib, m, s))
  {
    var m' := WithBody(lib, m, s);
    LengthText(lib, |m'.body|);
    var v := FromText(lib, Decimal(|m'.body|)).value;
    if CONTENT_LENGTH in m'.headers {
      assert m'.headers[CONTENT_LENGTH] == [v];
    }
  }

  /** The rule may store a Content-Length of its own. */
  predicate SetsLength(lib: Library, rule: Rule) {
    && (rule.action.SetHeader? || rule.action.RegexReplaceHeader?)
    && lib.parseName(rule.action.key) == Some(CONTENT_LENGTH)
  }

  /** The message has the same body as another, and the same Content-Length unless that was removed. */
  predicate LengthUntouched(m: Message, m': Message) {
    && m'.body == m.body
    && (CONTENT_LENGTH in m'.headers ==>
          CONTENT_LENGTH in m.headers && m'.headers[CONTENT_LENGTH] == m.headers[CONTENT_LENGTH])
  }

  predicate ForHeaders(a: Action) {
    a.SetHeader? || a.RemoveHeader? || a.RegexReplaceHeader?
  }

  /** What one message keeps of a header of another. */
  predicate SameHeader(m: Message, m': Message, name: string) {
    (name in m'.headers <==> name in m.headers) && (name in m.headers ==> m'.headers[name] == m.headers[name])
  }

  predicate SameTarget(m: Message, m': Message) {
    (m.Request? <==> m'.Request?) && (m.Request? ==> m'.uri == m.uri)
  }

  lemma HeaderActionKeeps(lib: Library, a: Action, regex: Option<Regex>, m: Message, name: string)
    requires ForHeaders(a)
    ensures var m' := Performed(lib, a, regex, m);
      && m'.body == m.body && SameTarget(m, m')
      && (lib.parseName(a.key) != Some(name) ==> SameHeader(m, m', name))
      && (a.RemoveHeader? && name in m'.headers ==> SameHeader(m, m', name))
  {
  }

  lemma ActionKeepsLength(lib: Library, a: Action, regex: Option<Regex>, m: Message)
    requires Lawful(lib)
    requires a.SetHeader? || a.RegexReplaceHeader? ==> lib.parseName(a.key) != Some(CONTENT_LENGTH)
    ensures var m' := Performed(lib, a, regex, m); LengthAgrees(m') || LengthUntouched(m, m')
  {
    if a.ReplaceBody? {
      NewBodyAgrees(lib, m, ReplaceText(lib.lossy(m.body), a.target, a.replacement));
    } else if a.RegexReplaceBody? {
      if regex.Some? {
        NewBodyAgrees(lib, m, lib.replaceAll(regex.value, lib.lossy(m.body), a.replacement));
      }
    } else {
      HeaderActionKeeps(lib, a, regex, m, CONTENT_LENGTH);
    }
  }

  lemma RuleKeepsLength(lib: Library, rule: Rule, m: Message)
    requires Lawful(lib) && !SetsLength(lib, rule)
    ensures var m' := ApplyRule(lib, rule, m); LengthAgrees(m') || LengthUntouched(m, m')
  {
    ActionKeepsLength(lib, rule.action, Compiled(lib, ActionPattern(rule.action)), m);
  }

  /** No list of rules without a rule that sets Content-Length makes it wrong: the outcome agrees with
      its body, or neither was touched.  In particular a changed body always gets the right length. */
  lemma {:induction false} ListKeepsLength(lib: Library, rules: seq<Rule>, m: Message)
    requires Lawful(lib) && forall k :: 0 <= k < |rules| ==> !SetsLength(lib, rules[k])
    ensures var m' := ApplyAll(lib, rules, m);
      && (LengthAgrees(m') || LengthUntouched(m, m'))
      && (LengthAgrees(m) ==> LengthAgrees(m'))
      && (m'.body != m.body ==> LengthAgrees(m'))
    decreases |rules|
  {
    if rules != [] {
      RuleKeepsLength(lib, rules[0], m);
      ListKeepsLength(lib, rules[1..], ApplyRule(lib, rules[0], m));
    }
  }

  /** The value a rule that sets Content-Length would store in a message. */
  function LengthStored(lib: Library, a: Action, m: Message): Option<Bytes>
    requires a.SetHeader? || a.RegexReplaceHeader?
  {
    match a
    case SetHeader(_, value) => FromText(lib, value)
    case RegexReplaceHeader(key, pattern, replacement) =>
      var regex, text := lib.compile(pattern), HeaderText(lib, m.headers, key);
      if regex.Some? && text.Some? then FromText(lib, lib.replaceAll(regex.value, text.value, replacement)) else None
  }

  /** A rule that does set Content-Length keeps the agreement exactly when it does not fire, has nothing
      it can store, or stores the length of the body. */
  lemma SettingLengthIff(lib: Library, rule: Rule, m: Message)
    requires SetsLength(lib, rule) && LengthAgrees(m)
    ensures LengthAgrees(ApplyRule(lib, rule, m)) <==>
      || !Applies(rule, m)
      || !Satisfied(lib, rule.condition, Compiled(lib, ConditionPattern(rule.condition, m)), m)
      || LengthStored(lib, rule.action, m).None?
      || Denotes(LengthStored(lib, rule.action, m).value, |m.body|)
  {
    var v := LengthStored(lib, rule.action, m);
    var m' := Performed(lib, rule.action, Compiled(lib, ActionPattern(rule.action)), m);
    StoresLength(lib, rule.action, m);
    if v.Some? {
      assert LengthAgrees(m') <==> Denotes(m'.headers[CONTENT_LENGTH][0], |m.body|);
    }
  }

  lemma StoresLength(lib: Library, a: Action, m: Message)
    requires a.SetHeader? || a.RegexReplaceHeader?
    requires lib.parseName(a.key) == Some(CONTENT_LENGTH)
    ensures var v, m' := LengthStored(lib, a, m), Performed(lib, a, Compiled(lib, ActionPattern(a)), m);
      && (v.None? ==> m' == m)
      && (v.Some? ==> m'.body == m.body && CONTENT_LENGTH in m'.headers && m'.headers[CONTENT_LENGTH] == [v.value])
  {
  }

  // ---------------------------------------------------------------------------------------------
  // What a list leaves alone

  predicate Names(lib: Library, a: Action, name: string) {
    ForHeaders(a) && lib.parseName(a.key) == Some(name)
  }

  lemma WithBodyKeeps(lib: Library, m: Message, s: string, name: string)
    requires name != CONTENT_LENGTH
    ensures SameTarget(m, WithBody(lib, m, s)) && SameHeader(m, WithBody(lib, m, s), name)
  {
  }

  lemma RuleKeepsTheRest(lib: Library, rule: Rule, m: Message, name: string)
    requires name != CONTENT_LENGTH && !Names(lib, rule.action, name)
    ensures var m' := ApplyRule(lib, rule, m);
      SameTarget(m, m') && SameHeader(m, m', name) && (ForHeaders(rule.action) ==> m'.body == m.body)
  {
    var regex := Compiled(lib, ActionPattern(rule.action));
    match rule.action
    case ReplaceBody(target, replacement) =>
      WithBodyKeeps(lib, m, ReplaceText(lib.lossy(m.body), target, replacement), name);
    case RegexReplaceBody(_, replacement) =>
      if regex.Some? {
        WithBodyKeeps(lib, m, lib.replaceAll(regex.value, lib.lossy(m.body), replacement), name);
      }
    case _ => HeaderActionKeeps(lib, rule.action, regex, m, name);
  }

  /** Headers no action names are kept with all their values, the target always, and the body unless an
      action replaces bodies. */
  lemma {:induction false} ListKeepsTheRest(lib: Library, rules: seq<Rule>, m: Message, name: string)
    requires name != CONTENT_LENGTH && forall k :: 0 <= k < |rules| ==> !Names(lib, rules[k].action, name)
    ensures var m' := ApplyAll(lib, rules, m);
      && SameTarget(m, m')
      && SameHeader(m, m', name)
      && ((forall k :: 0 <= k < |rules| ==> ForHeaders(rules[k].action)) ==> m'.body == m.body)
    decreases |rules|
  {
    if rules != [] {
      RuleKeepsTheRest(lib, rules[0], m, name);
      ListKeepsTheRest(lib, rules[1..], ApplyRule(lib, rules[0], m), name);
    }
  }

  /** Decoding undoes encoding. */
  ghost predicate Decodes(lib: Library) {
    forall s: string :: lib.lossy(lib.utf8(s)) == s
  }

  /** A body replacement that finds nothing still decodes and re-encodes: the body survives exactly when it
      is the encoding of some text. */
  lemma IdleReplacementReencodes(lib: Library, target: string, replacement: string, m: Message)
    requires target != "" && !Contains(lib.lossy(m.body), target)
    ensures var m' := Performed(lib, ReplaceBody(target, replacement), None, m);
      && (m'.body == m.body <==> lib.utf8(lib.lossy(m.body)) == m.body)
      && (Decodes(lib) ==> (m'.body == m.body <==> exists s :: lib.utf8(s) == m.body))
  {
    ReplaceAbsent(lib.lossy(m.body), target, replacement);
    if Decodes(lib) {
      if s :| lib.utf8(s) == m.body {
        assert lib.lossy(lib.utf8(s)) == s;
      }
    }
  }

  // ---------------------------------------------------------------------------------------------
  // Concurrent use: every lookup and every insert of `get_regex` is a step of its own

  datatype Phase = Deciding | Acting | Done

  /** One call of an apply function.  `seen` and `start` record the rules and message it began with;
      the program keeps no such record. */
  datatype Task = Task(seen: seq<Rule>, start: Message, index: nat, phase: Phase, missed: bool, m: Message)

  datatype Sys = Sys(rules: seq<Rule>, cache: Cache, tasks: seq<Task>)

  /** `clear_rules` is two events, and any event may come between them. */
  datatype Event = Begin(m: Message) | Move(t: nat) | AddRule(rule: Rule) | ClearList | ClearCache

  const INIT := Sys([], map[], [])

  /** Every call holds the read lock of the list until it is done. */
  predicate Locked(s: Sys) {
    exists t :: 0 <= t < |s.tasks| && !s.tasks[t].phase.Done?
  }

  /** The call goes on with the outcome of its lookup. */
  function Proceed(lib: Library, rule: Rule, t: Task, regex: Option<Regex>): Task {
    if t.phase.Deciding? then
      if Satisfied(lib, rule.condition, regex, t.m) then t.(phase := Acting, missed := false)
      else t.(index := t.index + 1, missed := false)
    else
      t.(m := Performed(lib, rule.action, regex, t.m), phase := Deciding, index := t.index + 1, missed := false)
  }

  function MoveTask(lib: Library, rules: seq<Rule>, cache: Cache, t: Task): (Task, Cache) {
    if t.phase.Done? then (t, cache)
    else if t.index >= |rules| then (t.(phase := Done), cache)
    else
      var rule := rules[t.index];
      var pattern := if t.phase.Deciding? then ConditionPattern(rule.condition, t.m) else ActionPattern(rule.action);
      if t.phase.Deciding? && !Applies(rule, t.m) then (t.(index := t.index + 1), cache)
      else if pattern.None? then (Proceed(lib, rule, t, None), cache)
      else if t.missed then
        var regex := lib.compile(pattern.value);
        (Proceed(lib, rule, t, regex), if regex.Some? then cache[pattern.value := regex.value] else cache)
      else if pattern.value in cache then (Proceed(lib, rule, t, Some(cache[pattern.value])), cache)
      else (t.(missed := true), cache)
  }

  function Step(lib: Library, s: Sys, e: Event): Sys {
    match e
    case Begin(m) => s.(tasks := s.tasks + [Task(s.rules, m, 0, Deciding, false, m)])
    case Move(t) =>
      if t < |s.tasks| then
        var (task, cache) := MoveTask(lib, s.rules, s.cache, s.tasks[t]);
        s.(cache := cache, tasks := s.tasks[t := task])
      else s
    case AddRule(rule) => if Locked(s) then s else s.(rules := s.rules + [rule])
    case ClearList => if Locked(s) then s else s.(rules := [])
    case ClearCache => s.(cache := map[])
  }

  function Run(lib: Library, s: Sys, es: seq<Event>): Sys
    decreases |es|
  {
    if es == [] then s else Run(lib, Step(lib, s, es[0]), es[1..])
  }

  /** What is left of a call leads to what the whole call means. */
  ghost predicate OnCourse(lib: Library, rules: seq<Rule>, t: Task) {
    && (!t.phase.Done? ==> t.seen == rules && t.index <= |rules|)
    && (t.phase.Acting? ==>
          t.index < |rules| && Applies(rules[t.index], t.m)
          && var c := rules[t.index].condition; Satisfied(lib, c, Compiled(lib, ConditionPattern(c, t.m)), t.m))
    && ApplyAll(lib, t.seen, t.start) == if t.phase.Done? then t.m else ApplyAll(lib, rules[t.index..], t.m)
  }

  ghost predicate Inv(lib: Library, s: Sys) {
    Sound(lib, s.cache) && forall t :: 0 <= t < |s.tasks| ==> OnCourse(lib, s.rules, s.tasks[t])
  }

  lemma ProceedStaysOnCourse(lib: Library, rules: seq<Rule>, t: Task)
    requires OnCourse(lib, rules, t) && !t.phase.Done? && t.index < |rules| && Applies(rules[t.index], t.m)
    ensures var rule := rules[t.index];
      var pattern := if t.phase.Deciding? then ConditionPattern(rule.condition, t.m) else ActionPattern(rule.action);
      OnCourse(lib, rules, Proceed(lib, rule, t, Compiled(lib, pattern)))
  {
  }

  lemma MoveStaysOnCourse(lib: Library, rules: seq<Rule>, cache: Cache, t: Task)
    requires Sound(lib, cache) && OnCourse(lib, rules, t)
    ensures OnCourse(lib, rules, MoveTask(lib, rules, cache, t).0) && Sound(lib, MoveTask(lib, rules, cache, t).1)
  {
    if !t.phase.Done? && t.index < |rules| {
      if Applies(rules[t.index], t.m) {
        ProceedStaysOnCourse(lib, rules, t);
      } else {
        assert rules[t.index..][1..] == rules[t.index + 1..] && rules[t.index..][0] == rules[t.index];
      }
    }
  }

  lemma StepKeepsInv(lib: Library, s: Sys, e: Event)
    requires Inv(lib, s)
    ensures Inv(lib, Step(lib, s, e))
  {
    if e.Move? && e.t < |s.tasks| {
      MoveStaysOnCourse(lib, s.rules, s.cache, s.tasks[e.t]);
    } else if e.Begin? {
      assert s.rules[0..] == s.rules;
    }
  }

  lemma {:induction false} RunKeepsInv(lib: Library, s: Sys, es: seq<Event>)
    requires Inv(lib, s)
    ensures Inv(lib, Run(lib, s, es))
    decreases |es|
  {
    if es != [] {
      StepKeepsInv(lib, s, es[0]);
      RunKeepsInv(lib, Step(lib, s, es[0]), es[1..]);
    }
  }

  /** In every interleaving of calls, insertions and clears, with lookup and insert of the cache split,
      every cached pattern is its compilation, and each finished call returned what the rules it began
      with mean without a cache. */
  lemma CacheNeverShows(lib: Library, es: seq<Event>)
    ensures var s := Run(lib, INIT, es);
      && (forall p :: p in s.cache ==> lib.compile(p) == Some(s.cache[p]))
      && (forall t :: 0 <= t < |s.tasks| && s.tasks[t].phase.Done? ==>
            s.tasks[t].m == ApplyAll(lib, s.tasks[t].seen, s.tasks[t].start))
  {
    RunKeepsInv(lib, INIT, es);
  }

  /** Once `clear_rules` has emptied the list, nothing is cached until a rule is added: no call can
      bring a pattern back after its second half. */
  lemma {:induction false} ClearedCacheStaysEmpty(lib: Library, s: Sys, es: seq<Event>)
    requires s.rules == [] && forall e :: e in es ==> !e.AddRule?
    ensures var s' := Run(lib, s, es);
      s'.rules == [] && s'.cache == if ClearCache in es then map[] else s.cache
    decreases |es|
  {
    if es != [] {
      assert es == [es[0]] + es[1..];
      ClearedCacheStaysEmpty(lib, Step(lib, s, es[0]), es[1..]);
    }
  }

  /** Steps a call can still take. */
  function Remaining(rules: seq<Rule>, t: Task): nat {
    if t.phase.Done? then 0
    else if t.index >= |rules| then 1
    else 1 + 4 * (|rules| - t.index) - (if t.phase.Acting? then 2 else 0) - (if t.missed then 1 else 0)
  }

  /** Every move of an unfinished call brings it closer to its end, whatever happens to the cache. */
  lemma CallsFinish(lib: Library, rules: seq<Rule>, cache: Cache, t: Task)
    requires !t.phase.Done?
    ensures Remaining(rules, MoveTask(lib, rules, cache, t).0) < Remaining(rules, t)
  {
  }
}

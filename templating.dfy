/**
 * Property templating: `${key}` tokens in a text are replaced by values.
 *
 * The tokens are recognised the way java.util.regex.Matcher.find recognises them: the scan
 * starts at the leftmost position where the pattern matches, and resumes right after the end
 * of each match. Three patterns occur:
 *   - `\$\{([\w.-]+)\}`, the property token of both MavenExecutor and ClassLoaderExperiment;
 *   - `\$\{env.([\w_]+)\}`, ClassLoaderExperiment's environment token, whose `.` is not
 *     escaped and so matches any character except a line terminator;
 *   - `\$\{env\.([\w_]+)\}`, the environment token with the dot escaped (see Findings).
 * A character class followed by `\}` can never give back a character to the `\}` (a brace is
 * not in the class), so a match is: the fixed prefix, the longest run of class characters,
 * which must not be empty, and a closing brace right after it.
 */
module Templating {
  import opened Wrappers
  import opened JavaLang

  /** `\w` without UNICODE_CHARACTER_CLASS: ASCII letters, ASCII digits and the underscore. */
  predicate IsWordChar(c: char) {
    ('a' <= c <= 'z') || ('A' <= c <= 'Z') || ('0' <= c <= '9') || c == '_'
  }

  /** The key class `[\w.-]` of the property token. */
  predicate IsKeyChar(c: char) {
    IsWordChar(c) || c == '.' || c == '-'
  }

  /** The characters a regex `.` does not match when DOTALL is off. */
  predicate IsLineTerminator(c: char) {
    c == '\n' || c == '\r' || c == '\U{0085}' || c == '\U{2028}' || c == '\U{2029}'
  }

  /** A key the property token accepts: one or more key characters. */
  predicate IsKey(k: string) {
    |k| > 0 && forall i :: 0 <= i < |k| ==> IsKeyChar(k[i])
  }

  /** A name the environment token accepts: one or more word characters. */
  predicate IsName(k: string) {
    |k| > 0 && forall i :: 0 <= i < |k| ==> IsWordChar(k[i])
  }

  datatype Token =
    | PropertyToken
    | EnvironmentToken
    | StrictEnvironmentToken

  /** A match at the start of a text: how many characters it spans and its group 1. */
  datatype Match = Match(length: nat, key: string)

  predicate InClass(c: char, words: bool) {
    if words then IsWordChar(c) else IsKeyChar(c)
  }

  /** The longest prefix of s made of class characters: what a greedy `[...]+` consumes. */
  function Run(s: string, words: bool): (r: string)
    ensures |r| <= |s|
    decreases |s|
  {
    if |s| > 0 && InClass(s[0], words) then [s[0]] + Run(s[1..], words) else ""
  }

  /** A match whose group starts at offset start: the group is not empty and `}` follows it. */
  function Closed(s: string, start: nat, group: string): (r: Option<Match>)
    requires start + |group| <= |s|
    ensures r.Some? ==> r.value.length == start + |group| + 1 <= |s| && r.value.key == group
  {
    if |group| > 0 && start + |group| < |s| && s[start + |group|] == '}' then
      Some(Match(start + |group| + 1, group))
    else None
  }

  /** s starts with `${`. */
  predicate OpensToken(s: string) {
    |s| >= 2 && s[0] == '$' && s[1] == '{'
  }

  /** s starts with `${env` followed by one more character. */
  predicate OpensEnvironment(s: string) {
    |s| >= 6 && OpensToken(s) && s[2] == 'e' && s[3] == 'n' && s[4] == 'v'
  }

  /** Where the group of the token's pattern starts: after `${`, or after `${env` and one character. */
  function GroupStart(tok: Token): nat {
    if tok == PropertyToken then 2 else 6
  }

  /** The fixed part of the pattern, before its group, matches at the start of s. */
  predicate OpensPattern(tok: Token, s: string) {
    if tok == PropertyToken then OpensToken(s)
    else OpensEnvironment(s) && (if tok == EnvironmentToken then !IsLineTerminator(s[5]) else s[5] == '.')
  }

  /** Whether the token's pattern matches at the very start of s, and how. */
  function MatchAt(tok: Token, s: string): (r: Option<Match>)
    ensures r.Some? ==> 0 < r.value.length <= |s|
  {
    if OpensPattern(tok, s) then
      var start := GroupStart(tok);
      Closed(s, start, Run(s[start..], tok != PropertyToken))
    else None
  }

  /** The match of the token at position j of the text, if any. */
  function MatchFrom(tok: Token, text: string, j: nat): Option<Match>
    requires j <= |text|
  {
    MatchAt(tok, text[j..])
  }

  /** The text has no match of the token anywhere. */
  predicate NoToken(tok: Token, s: string) {
    forall j :: 0 <= j < |s| ==> MatchFrom(tok, s, j).None?
  }

  /** What a found key is replaced by. */
  datatype Rule =
      /** MavenExecutor: a leading `env.` is stripped before the lookup; a miss keeps `${key}`. */
    | MergedLookup(values: map<string, string>)
      /** ClassLoaderExperiment.template(text, Properties): a miss keeps `${key}`. */
    | PropertiesLookup(values: map<string, string>)
      /** templateEnvironmentVariables: only a non-blank value replaces; otherwise `${env.key}`. */
    | EnvironmentLookup(values: map<string, string>)

  /** The key a MavenExecutor token is looked up under. */
  function LookupKey(key: string): (r: string)
    ensures StartsWith(key, "env.") ==> key == "env." + r
    ensures !StartsWith(key, "env.") ==> r == key
  {
    if |key| >= 4 && key[0] == 'e' && key[1] == 'n' && key[2] == 'v' && key[3] == '.' then key[4..] else key
  }

  /** The token `${key}` written out. */
  function Placeholder(key: string): string {
    "${" + key + "}"
  }

  /** What replaces a found key: the value the rule finds for it, or the token written back. */
  function Replacement(rule: Rule, key: string): string {
    var k := if rule.MergedLookup? then LookupKey(key) else key;
    if k in rule.values && (rule.EnvironmentLookup? ==> !IsBlank(rule.values[k])) then rule.values[k]
    else if rule.EnvironmentLookup? then "${env." + key + "}" else Placeholder(key)
  }

  /** One pass: every match, leftmost first, replaced by its replacement; the rest copied. */
  function Substitute(tok: Token, rule: Rule, s: string): string
    decreases |s|
  {
    if |s| == 0 then ""
    else match MatchAt(tok, s)
      case Some(m) => Replacement(rule, m.key) + Substitute(tok, rule, s[m.length..])
      case None => [s[0]] + Substitute(tok, rule, s[1..])
  }

  // ---------------------------------------------------------------------------
  // The Matcher loop

  /** Matcher.find from a position: the leftmost match at or after it, if any. */
  method Find(tok: Token, text: string, from: nat) returns (start: nat, m: Option<Match>)
    requires from <= |text|
    ensures from <= start <= |text|
    ensures forall j :: from <= j < start ==> MatchFrom(tok, text, j).None?
    ensures m == MatchFrom(tok, text, start)
    ensures m.None? ==> start == |text|
  {
    start := from;
    while start < |text| && MatchFrom(tok, text, start).None?
      invariant from <= start <= |text|
      invariant forall j :: from <= j < start ==> MatchFrom(tok, text, j).None?
    {
      start := start + 1;
    }
    m := MatchFrom(tok, text, start);
  }

  /** Where no match starts, the first character is copied. */
  lemma SubstituteUnmatched(tok: Token, rule: Rule, s: string)
    requires |s| > 0 && MatchAt(tok, s).None?
    ensures Substitute(tok, rule, s) == [s[0]] + Substitute(tok, rule, s[1..])
  {
  }

  /** Where a match starts, it is replaced and the pass goes on after it. */
  lemma SubstituteMatched(tok: Token, rule: Rule, s: string)
    requires MatchAt(tok, s).Some?
    ensures var m := MatchAt(tok, s).value;
      Substitute(tok, rule, s) == Replacement(rule, m.key) + Substitute(tok, rule, s[m.length..])
  {
  }

  /** Text with no match starting between last and start is copied through as it is. */
  lemma {:induction false} CopyBetween(tok: Token, rule: Rule, text: string, last: nat, start: nat)
    requires last <= start <= |text|
    requires forall j :: last <= j < start ==> MatchFrom(tok, text, j).None?
    ensures Substitute(tok, rule, text[last..]) == text[last..start] + Substitute(tok, rule, text[start..])
    decreases start - last
  {
    if last < start {
      CopyOne(tok, rule, text, last);
      CopyBetween(tok, rule, text, last + 1, start);
      assert text[last..start] == [text[last]] + text[last + 1..start];
      Regroup(Substitute(tok, rule, text[last..]), [text[last]], text[last + 1..start],
              Substitute(tok, rule, text[start..]));
    }
  }

  /** Where no match starts, the character at that position is copied. */
  lemma CopyOne(tok: Token, rule: Rule, text: string, last: nat)
    requires last < |text| && MatchFrom(tok, text, last).None?
    ensures Substitute(tok, rule, text[last..]) == [text[last]] + Substitute(tok, rule, text[last + 1..])
  {
    SubstituteUnmatched(tok, rule, text[last..]);
    assert text[last..][1..] == text[last + 1..];
  }

  /** What the loop adds for one match: the text before it and its replacement. */
  lemma ReplaceOne(tok: Token, rule: Rule, text: string, last: nat, start: nat, m: Match, after: nat)
    requires last <= start <= |text|
    requires forall j :: last <= j < start ==> MatchFrom(tok, text, j).None?
    requires MatchFrom(tok, text, start) == Some(m) && after == start + m.length
    ensures after <= |text|
    ensures Substitute(tok, rule, text[last..]) ==
      (text[last..start] + Replacement(rule, m.key)) + Substitute(tok, rule, text[after..])
  {
    CopyBetween(tok, rule, text, last, start);
    MatchedSuffix(tok, rule, text, start, m, after);
    Regroup(Substitute(tok, rule, text[last..]), text[last..start], Replacement(rule, m.key),
            Substitute(tok, rule, text[after..]));
  }

  /** The pass over the text from a match on: its replacement, then the pass after it. */
  lemma MatchedSuffix(tok: Token, rule: Rule, text: string, start: nat, m: Match, after: nat)
    requires start <= |text| && MatchFrom(tok, text, start) == Some(m) && after == start + m.length
    ensures after <= |text|
    ensures Substitute(tok, rule, text[start..]) == Replacement(rule, m.key) + Substitute(tok, rule, text[after..])
  {
    SubstituteMatched(tok, rule, text[start..]);
    assert text[start..][m.length..] == text[after..];
  }

  lemma Regroup(whole: string, a: string, b: string, c: string)
    requires whole == a + (b + c)
    ensures whole == (a + b) + c
  {
    assert a + (b + c) == (a + b) + c;
  }

  /** One turn of the loop: what the builder holds, followed by a pass over the rest, is still the whole pass. */
  lemma AdvanceOne(tok: Token, rule: Rule, text: string, last: nat, start: nat, m: Match, done: string,
                    next: string, after: nat, whole: string)
    requires last <= start <= |text|
    requires forall j :: last <= j < start ==> MatchFrom(tok, text, j).None?
    requires MatchFrom(tok, text, start) == Some(m)
    requires done + Substitute(tok, rule, text[last..]) == whole
    requires next == done + (text[last..start] + Replacement(rule, m.key)) && after == start + m.length
    ensures last < after <= |text|
    ensures next + Substitute(tok, rule, text[after..]) == whole
  {
    ReplaceOne(tok, rule, text, last, start, m, after);
    Regroup(whole, done, text[last..start] + Replacement(rule, m.key), Substitute(tok, rule, text[after..]));
  }

  /**
   * The find/appendReplacement loop: the text between matches is copied, each match is
   * replaced, and the tail after the last match is appended.
   */
  method ReplaceTokens(tok: Token, rule: Rule, text: string) returns (output: string)
    ensures output == Substitute(tok, rule, text)
  {
    var builder := "";
    var last := 0;
    var start, m := Find(tok, text, 0);
    ghost var whole := Substitute(tok, rule, text);
    assert text[0..] == text;
    while m.Some?
      invariant last <= start <= |text|
      invariant m == MatchFrom(tok, text, start)
      invariant m.None? ==> start == |text|
      invariant forall j :: last <= j < start ==> MatchFrom(tok, text, j).None?
      invariant builder + Substitute(tok, rule, text[last..]) == whole
      decreases |text| - last
    {
      var found := m.value;
      var next := builder + (text[last..start] + Replacement(rule, found.key));
      var after := start + found.length;
      AdvanceOne(tok, rule, text, last, start, found, builder, next, after, whole);
      builder, last := next, after;
      start, m := Find(tok, text, last);
    }
    FinishTail(tok, rule, text, last, builder, whole);
    output := builder + text[last..];
  }

  /** After the last match, the rest of the text is copied: the builder and the tail make the whole pass. */
  lemma FinishTail(tok: Token, rule: Rule, text: string, last: nat, builder: string, whole: string)
    requires last <= |text|
    requires forall j :: last <= j < |text| ==> MatchFrom(tok, text, j).None?
    requires builder + Substitute(tok, rule, text[last..]) == whole
    ensures builder + text[last..] == whole
  {
    CopyBetween(tok, rule, text, last, |text|);
    assert text[|text|..] == "";
  }

  // ---------------------------------------------------------------------------
  // Facts about one pass

  /** A pass over text without tokens returns the text unchanged. */
  lemma TokenFreeUnchanged(tok: Token, rule: Rule, s: string)
    requires NoToken(tok, s)
    ensures Substitute(tok, rule, s) == s
  {
    CopyBetween(tok, rule, s, 0, |s|);
    assert s[0..] == s && s[0..|s|] == s && s[|s|..] == "";
  }

  lemma {:induction false} RunOfClass(k: string, rest: string, words: bool)
    requires forall i :: 0 <= i < |k| ==> InClass(k[i], words)
    requires rest == [] || !InClass(rest[0], words)
    ensures Run(k + rest, words) == k
    decreases |k|
  {
    if |k| > 0 {
      assert (k + rest)[0] == k[0];
      assert (k + rest)[1..] == k[1..] + rest;
      RunOfClass(k[1..], rest, words);
      assert [k[0]] + k[1..] == k;
    } else {
      assert k + rest == rest;
    }
  }

  /** `${key}` alone matches as a whole, with the key as its group. */
  lemma PropertyTokenMatch(k: string, rest: string)
    requires IsKey(k)
    ensures MatchAt(PropertyToken, "${" + k + "}" + rest) == Some(Match(|k| + 3, k))
  {
    var s := "${" + k + "}" + rest;
    assert s[2..] == k + ("}" + rest);
    RunOfClass(k, "}" + rest, false);
    assert s[2 + |k|] == '}';
  }

  /** A text that is one property token becomes its replacement. */
  lemma PropertyTokenAlone(rule: Rule, k: string)
    requires IsKey(k)
    ensures Substitute(PropertyToken, rule, "${" + k + "}") == Replacement(rule, k)
  {
    var s := "${" + k + "}";
    PropertyTokenMatch(k, "");
    assert s + "" == s;
    assert s[|k| + 3..] == "";
  }

  /** A text that is one environment token, `${env` + c + name + `}`, as either environment pattern sees it. */
  lemma EnvironmentTokenMatch(c: char, k: string)
    requires IsName(k)
    ensures !IsLineTerminator(c) ==>
      MatchAt(EnvironmentToken, "${env" + [c] + k + "}") == Some(Match(|k| + 7, k))
    ensures MatchAt(StrictEnvironmentToken, "${env" + [c] + k + "}") == if c == '.' then Some(Match(|k| + 7, k)) else None
  {
    var s := "${env" + [c] + k + "}";
    assert s[..5] == "${env" && s[5] == c;
    assert s[6..] == k + "}";
    RunOfClass(k, "}", true);
    assert s[6 + |k|] == '}';
    if c != '.' {
      assert s[..6] != "${env.";
    }
  }

  // ---------------------------------------------------------------------------
  // MavenExecutor.Maven.template

  /**
   * The map the lookup consults: a copy of the given properties, then every environment
   * variable not yet present, then every system property not yet present.
   */
  function MergedProperties(properties: map<string, string>, env: map<string, string>, sys: map<string, string>): (m: map<string, string>)
    ensures forall k :: k in m <==> k in properties || k in env || k in sys
    ensures forall k :: k in properties ==> m[k] == properties[k]
    ensures forall k :: k !in properties && k in env ==> m[k] == env[k]
    ensures forall k :: k !in properties && k !in env && k in sys ==> m[k] == sys[k]
  {
    sys + env + properties
  }

  /** One pass of the template loop over the merged map. */
  function Pass(m: map<string, string>, s: string): string {
    Substitute(PropertyToken, MergedLookup(m), s)
  }

  /** The do-while: pass after pass until a pass changes nothing, at most fuel passes. */
  function Converge(m: map<string, string>, s: string, fuel: nat): (r: Result<string, Exception>)
    ensures r.Success? ==> Pass(m, r.value) == r.value
    ensures r.Failure? ==> r.error == OutOfFuel
    decreases fuel
  {
    if fuel == 0 then Failure(OutOfFuel)
    else
      var output := Pass(m, s);
      if output == s then Success(s) else Converge(m, output, fuel - 1)
  }

  /** template(text, properties) with the environment and the system properties as maps. */
  function Templated(text: Option<string>, properties: map<string, string>, env: map<string, string>,
                     sys: map<string, string>, fuel: nat): (r: Result<Option<string>, Exception>)
    ensures text.None? ==> r == Success(None)
    ensures r.Success? && text.Some? ==> r.value.Some? && Pass(MergedProperties(properties, env, sys), r.value.value) == r.value.value
  {
    if text.None? then Success(None)
    else
      var out :- Converge(MergedProperties(properties, env, sys), text.value, fuel);
      Success(Some(out))
  }

  /** One turn of the do-while: stop when the pass changed nothing, otherwise go on with its output. */
  lemma ConvergeStep(m: map<string, string>, input: string, output: string, fuel: nat)
    requires fuel > 0 && output == Pass(m, input)
    ensures Converge(m, input, fuel) == if output == input then Success(input) else Converge(m, output, fuel - 1)
  {
  }

  method Template(text: Option<string>, properties: map<string, string>, env: map<string, string>,
                  sys: map<string, string>, fuel: nat) returns (r: Result<Option<string>, Exception>)
    ensures r == Templated(text, properties, env, sys, fuel)
  {
    if text.None? {
      return Success(None);
    }
    var m := MergedProperties(properties, env, sys);
    var output := text.value;
    var remaining := fuel;
    while true
      invariant Converge(m, output, remaining) == Converge(m, text.value, fuel)
      decreases remaining
    {
      if remaining == 0 {
        return Failure(OutOfFuel);
      }
      var input := output;
      output := ReplaceTokens(PropertyToken, MergedLookup(m), input);
      ConvergeStep(m, input, output, remaining);
      remaining := remaining - 1;
      if output == input {
        return Success(Some(output));
      }
    }
  }

  /** Token-free text comes back as it is, after one pass. */
  lemma TemplateTokenFree(s: string, properties: map<string, string>, env: map<string, string>,
                          sys: map<string, string>, fuel: nat)
    requires NoToken(PropertyToken, s) && fuel >= 1
    ensures Templated(Some(s), properties, env, sys, fuel) == Success(Some(s))
  {
    TokenFreeUnchanged(PropertyToken, MergedLookup(MergedProperties(properties, env, sys)), s);
  }

  /** A converged text converges at once: template(template(x)) == template(x). */
  lemma TemplateIdempotent(x: string, y: string, properties: map<string, string>, env: map<string, string>,
                           sys: map<string, string>, fuel: nat, fuel': nat)
    requires Templated(Some(x), properties, env, sys, fuel) == Success(Some(y))
    requires fuel' >= 1
    ensures Templated(Some(y), properties, env, sys, fuel') == Success(Some(y))
  {
  }

  /**
   * A lone token: the given properties shadow the environment, the environment shadows the
   * system properties, `env.X` is looked up as X, and a key found nowhere is kept literally,
   * `env.` prefix included.
   */
  lemma TemplateOneToken(k: string, properties: map<string, string>, env: map<string, string>, sys: map<string, string>)
    requires IsKey(k)
    ensures var x := LookupKey(k);
      Pass(MergedProperties(properties, env, sys), "${" + k + "}") ==
        if x in properties then properties[x]
        else if x in env then env[x]
        else if x in sys then sys[x]
        else "${" + k + "}"
  {
    PropertyTokenAlone(MergedLookup(MergedProperties(properties, env, sys)), k);
  }

  /**
   * A token whose key is found nowhere comes back as it was written, `env.` prefix included:
   * the first pass changes nothing, so the loop stops after it.
   */
  lemma TemplateUnknownKeyKept(k: string, properties: map<string, string>, env: map<string, string>,
                               sys: map<string, string>, fuel: nat)
    requires IsKey(k) && fuel >= 1
    requires LookupKey(k) !in properties && LookupKey(k) !in env && LookupKey(k) !in sys
    ensures Templated(Some("${" + k + "}"), properties, env, sys, fuel) == Success(Some("${" + k + "}"))
  {
    var m := MergedProperties(properties, env, sys);
    TemplateOneToken(k, properties, env, sys);
    ConvergeStep(m, "${" + k + "}", "${" + k + "}", fuel);
  }

  /** `${env.X}` for an environment variable X that no property overrides gives its value. */
  lemma TemplateEnvironmentVariable(x: string, properties: map<string, string>, env: map<string, string>,
                                    sys: map<string, string>, fuel: nat)
    requires IsKey(x) && x !in properties && x in env
    requires NoToken(PropertyToken, env[x]) && fuel >= 2
    ensures Templated(Some("${env." + x + "}"), properties, env, sys, fuel) == Success(Some(env[x]))
  {
    var k := "env." + x;
    assert "${" + k + "}" == "${env." + x + "}";
    assert IsKey(k) by {
      forall i | 0 <= i < |k| ensures IsKeyChar(k[i]) {
        if i >= 4 { assert k[i] == x[i - 4]; }
      }
    }
    assert k[..4] == "env.";
    assert LookupKey(k) == x;
    var m := MergedProperties(properties, env, sys);
    var t := "${env." + x + "}";
    TemplateOneToken(k, properties, env, sys);
    assert Pass(m, t) == env[x];
    TokenFreeUnchanged(PropertyToken, MergedLookup(m), env[x]);
    ConvergeStep(m, t, env[x], fuel);
    if env[x] != t {
      ConvergeStep(m, env[x], env[x], fuel - 1);
    }
  }

  /** a^n followed by a string. */
  function Repeat(c: char, n: nat): (r: string)
    ensures |r| == n && forall i :: 0 <= i < n ==> r[i] == c
  {
    seq(n, i => c)
  }

  /** The pass over `a…a${k}` when k expands to `a${k}`: one more `a`. */
  lemma SelfReferenceStep(k: string, m: map<string, string>, n: nat)
    requires IsKey(k) && !StartsWith(k, "env.") && k in m && m[k] == "a" + Placeholder(k)
    ensures Pass(m, Repeat('a', n) + Placeholder(k)) == Repeat('a', n + 1) + Placeholder(k)
  {
    var t := Placeholder(k);
    var s := Repeat('a', n) + t;
    forall j | 0 <= j < n ensures MatchFrom(PropertyToken, s, j).None? {
      assert s[j..][0] == 'a';
    }
    CopyBetween(PropertyToken, MergedLookup(m), s, 0, n);
    assert s[0..] == s && s[0..n] == Repeat('a', n) && s[n..] == t;
    PropertyTokenAlone(MergedLookup(m), k);
    assert LookupKey(k) == k;
    assert Pass(m, s) == Repeat('a', n) + ("a" + t);
    assert Repeat('a', n) + ("a" + t) == (Repeat('a', n) + "a") + t;
    assert Repeat('a', n) + "a" == Repeat('a', n + 1);
  }

  lemma {:induction false} SelfReferenceNeverConverges(k: string, m: map<string, string>, n: nat, fuel: nat)
    requires IsKey(k) && !StartsWith(k, "env.") && k in m && m[k] == "a" + Placeholder(k)
    ensures Converge(m, Repeat('a', n) + Placeholder(k), fuel) == Failure(OutOfFuel)
    decreases fuel
  {
    if fuel > 0 {
      SelfReferenceStep(k, m, n);
      var s := Repeat('a', n) + Placeholder(k);
      assert |Pass(m, s)| == |s| + 1;
      ConvergeStep(m, s, Pass(m, s), fuel);
      SelfReferenceNeverConverges(k, m, n + 1, fuel - 1);
    }
  }

  /** A property k whose value is `a${k}` grows by one `a` on every pass: the loop never ends. */
  lemma TemplateDiverges(k: string, properties: map<string, string>, env: map<string, string>,
                         sys: map<string, string>, fuel: nat)
    requires IsKey(k) && !StartsWith(k, "env.") && k in properties && properties[k] == "a" + Placeholder(k)
    ensures Templated(Some(Placeholder(k)), properties, env, sys, fuel) == Failure(OutOfFuel)
  {
    assert Repeat('a', 0) + Placeholder(k) == Placeholder(k);
    SelfReferenceNeverConverges(k, MergedProperties(properties, env, sys), 0, fuel);
  }

  // ---------------------------------------------------------------------------
  // ClassLoaderExperiment's single-pass variants

  /** template(text, Properties): one pass, a found value inserted as it is. */
  method TemplateProperties(text: string, properties: map<string, string>) returns (r: string)
    ensures r == Substitute(PropertyToken, PropertiesLookup(properties), text)
  {
    r := ReplaceTokens(PropertyToken, PropertiesLookup(properties), text);
  }

  /** templateEnvironmentVariables as written, with the unescaped `.` of its pattern. */
  method TemplateEnvironmentVariables(text: string, env: map<string, string>) returns (r: string)
    ensures r == Substitute(EnvironmentToken, EnvironmentLookup(env), text)
  {
    r := ReplaceTokens(EnvironmentToken, EnvironmentLookup(env), text);
  }

  /** templateEnvironmentVariables with the `.` of its pattern escaped. */
  method TemplateEnvironmentVariablesStrict(text: string, env: map<string, string>) returns (r: string)
    ensures r == Substitute(StrictEnvironmentToken, EnvironmentLookup(env), text)
  {
    r := ReplaceTokens(StrictEnvironmentToken, EnvironmentLookup(env), text);
  }

  /**
   * template(text): the environment pass, with the pattern as written, then the
   * system-property pass over its output.
   */
  function TemplateText(text: string, env: map<string, string>, sys: map<string, string>): string {
    Substitute(PropertyToken, PropertiesLookup(sys),
               Substitute(EnvironmentToken, EnvironmentLookup(env), text))
  }

  /** template(text) with the `.` of the environment pattern escaped (see Findings). */
  function TemplateTextStrict(text: string, env: map<string, string>, sys: map<string, string>): string {
    Substitute(PropertyToken, PropertiesLookup(sys),
               Substitute(StrictEnvironmentToken, EnvironmentLookup(env), text))
  }

  method TemplateTextPasses(text: string, env: map<string, string>, sys: map<string, string>) returns (r: string)
    ensures r == TemplateText(text, env, sys)
  {
    var withEnvironment := TemplateEnvironmentVariables(text, env);
    r := TemplateProperties(withEnvironment, sys);
  }

  /**
   * The single pass does not re-expand what it inserts: `${k}` becomes exactly the value of k,
   * tokens in that value included; a key that is not a property stays `${k}`.
   */
  lemma PropertiesInsertedVerbatim(k: string, properties: map<string, string>)
    requires IsKey(k)
    ensures Substitute(PropertyToken, PropertiesLookup(properties), "${" + k + "}") ==
      if k in properties then properties[k] else "${" + k + "}"
  {
    PropertyTokenAlone(PropertiesLookup(properties), k);
  }

  /**
   * Only a present, non-blank environment value replaces `${env.NAME}`; otherwise the token
   * stays. Both patterns agree on it, since the unescaped `.` also matches a dot.
   */
  lemma EnvironmentVariableReplaced(k: string, env: map<string, string>)
    requires IsName(k)
    ensures var t := "${env." + k + "}";
      Substitute(EnvironmentToken, EnvironmentLookup(env), t) ==
        (if k in env && !IsBlank(env[k]) then env[k] else t)
    ensures var t := "${env." + k + "}";
      Substitute(StrictEnvironmentToken, EnvironmentLookup(env), t) ==
        (if k in env && !IsBlank(env[k]) then env[k] else t)
  {
    var t := "${env." + k + "}";
    assert t == "${env" + ['.'] + k + "}";
    EnvironmentTokenAlone(EnvironmentLookup(env), '.', k);
    EnvironmentTokenMatch('.', k);
    assert t[|k| + 7..] == "";
  }

  /**
   * template(text) hands what the environment pass inserted to the system-property pass: an
   * environment value that itself holds `${p}` gets p's system property.
   */
  lemma EnvironmentThenSystemProperties(k: string, p: string, env: map<string, string>, sys: map<string, string>)
    requires IsName(k) && IsKey(p)
    requires k in env && env[k] == "${" + p + "}" && p in sys
    ensures TemplateText("${env." + k + "}", env, sys) == sys[p]
    ensures TemplateTextStrict("${env." + k + "}", env, sys) == sys[p]
  {
    EnvironmentVariableReplaced(k, env);
    assert !IsBlank(env[k]) by {
      assert !IsWhitespace(env[k][0]);
    }
    PropertiesInsertedVerbatim(p, sys);
  }

  /**
   * template(text) as written takes `${envXNAME}` for an environment token: with NAME set to a
   * non-blank value holding no property token, the result is that value.
   */
  lemma TemplateTextAnySeparator(c: char, k: string, env: map<string, string>, sys: map<string, string>)
    requires IsName(k) && !IsLineTerminator(c)
    requires k in env && !IsBlank(env[k]) && NoToken(PropertyToken, env[k])
    ensures TemplateText("${env" + [c] + k + "}", env, sys) == env[k]
  {
    UnescapedDotAcceptsAnySeparator(env, c, k);
    TokenFreeUnchanged(PropertyToken, PropertiesLookup(sys), env[k]);
  }

  /**
   * With the dot escaped, `${envXNAME}` (X a word character) reaches the system-property pass
   * as it is, which sees the key `envXNAME`.
   */
  lemma TemplateTextStrictNeedsDot(c: char, k: string, env: map<string, string>, sys: map<string, string>)
    requires IsName(k) && IsWordChar(c) && c != '.'
    ensures var key := "env" + [c] + k;
      TemplateTextStrict("${env" + [c] + k + "}", env, sys) == if key in sys then sys[key] else "${" + key + "}"
  {
    EscapedDotRequiresDot(env, c, k);
    var key := "env" + [c] + k;
    assert "${env" + [c] + k + "}" == "${" + key + "}";
    assert IsKey(key) by {
      forall i | 0 <= i < |key| ensures IsKeyChar(key[i]) {
        if i >= 4 { assert key[i] == k[i - 4]; }
      }
    }
    PropertiesInsertedVerbatim(key, sys);
  }

  // ---------------------------------------------------------------------------
  // The unescaped dot

  /**
   * As written, any character other than a line terminator may stand where the dot belongs:
   * `${envXHOME}` counts as an environment token for HOME. With HOME unset or blank it is
   * rewritten to `${env.HOME}`, and with HOME set it is replaced by its value.
   */
  lemma UnescapedDotAcceptsAnySeparator(env: map<string, string>, c: char, k: string)
    requires IsName(k) && !IsLineTerminator(c)
    ensures k !in env ==>
      Substitute(EnvironmentToken, EnvironmentLookup(env), "${env" + [c] + k + "}") == "${env." + k + "}"
    ensures k in env && !IsBlank(env[k]) ==>
      Substitute(EnvironmentToken, EnvironmentLookup(env), "${env" + [c] + k + "}") == env[k]
  {
    EnvironmentTokenAlone(EnvironmentLookup(env), c, k);
  }

  /** A text that is one environment token, with any separator after `env`, becomes its replacement. */
  lemma EnvironmentTokenAlone(rule: Rule, c: char, k: string)
    requires IsName(k) && !IsLineTerminator(c)
    ensures Substitute(EnvironmentToken, rule, "${env" + [c] + k + "}") == Replacement(rule, k)
  {
    var s := "${env" + [c] + k + "}";
    EnvironmentTokenMatch(c, k);
    SubstituteMatched(EnvironmentToken, rule, s);
    assert s[|k| + 7..] == "";
  }

  /** With the dot escaped, only `${env.` starts an environment token: `${envXHOME}` is left alone. */
  lemma EscapedDotRequiresDot(env: map<string, string>, c: char, k: string)
    requires IsName(k) && c != '.'
    ensures Substitute(StrictEnvironmentToken, EnvironmentLookup(env), "${env" + [c] + k + "}") == "${env" + [c] + k + "}"
  {
    var s := "${env" + [c] + k + "}";
    forall j | 0 <= j < |s| ensures MatchFrom(StrictEnvironmentToken, s, j).None? {
      if j == 0 {
        EnvironmentTokenMatch(c, k);
      } else if j == 5 {
        assert s[j..][1] == k[0];
      } else if 5 < j < |s| - 1 {
        assert s[j..][0] == k[j - 6];
      } else {
        assert s[j..][0] != '$';
      }
    }
    TokenFreeUnchanged(StrictEnvironmentToken, EnvironmentLookup(env), s);
  }
}

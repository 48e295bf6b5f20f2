/** Which group and which rule of a robots.txt decide (section 2.2 of RFC 9309). */
module RobotsRules {
  import opened Common
  import Utf16
  import Whitespace

  datatype Rule = Rule(path: string, allow: bool)

  datatype Group = Group(userAgents: seq<string>, rules: seq<Rule>)

  // ----- strings -----

  /** The first index of `c`, or the length of the string. */
  function IndexOf(s: string, c: char): (i: nat)
    ensures i <= |s| && c !in s[..i] && (i < |s| ==> s[i] == c)
  {
    if s == [] || s[0] == c then 0 else
    assert s[..1 + IndexOf(s[1..], c)] == [s[0]] + s[1..][..IndexOf(s[1..], c)];
    1 + IndexOf(s[1..], c)
  }

  predicate IsSpace(c: char) { Utf16.IsSpace(c as int) }

  function Trim(s: string): string { Whitespace.TrimBoth(IsSpace, s) }

  /** `text.includes(part)`. */
  predicate Includes(text: string, part: string) {
    part <= text || (text != [] && Includes(text[1..], part))
  }

  lemma {:induction false} IncludesIff(text: string, part: string)
    ensures Includes(text, part) <==> exists i | 0 <= i <= |text| :: part <= text[i..]
  {
    assert text[0..] == text;
    if text != [] {
      IncludesIff(text[1..], part);
      if i :| 0 <= i <= |text[1..]| && part <= text[1..][i..] {
        assert text[i + 1..] == text[1..][i..];
      }
      forall i | 1 <= i <= |text| && part <= text[i..] ensures Includes(text[1..], part) {
        assert text[1..][i - 1..] == text[i..];
      }
    }
  }

  // ----- the deciding rule -----

  predicate Matches(rule: Rule, path: string) { rule.path <= path }

  /** Rule `k` is the first of the longest rules that match the path. */
  predicate FirstLongest(rules: seq<Rule>, path: string, k: nat) {
    && k < |rules| && Matches(rules[k], path)
    && (forall l | 0 <= l < k && Matches(rules[l], path) :: |rules[l].path| < |rules[k].path|)
    && (forall l | k < l < |rules| && Matches(rules[l], path) :: |rules[l].path| <= |rules[k].path|)
  }

  ghost predicate Allowed(rules: seq<Rule>, path: string) {
    forall k | 0 <= k < |rules| && FirstLongest(rules, path, k) :: rules[k].allow
  }

  /** The loop of `isPathAllowed`: the rule it ends with decides, and without a match everything is allowed. */
  method IsAllowed(rules: seq<Rule>, path: string) returns (allowed: bool)
    ensures allowed <==> Allowed(rules, path)
  {
    var best: Option<nat> := None;
    for k := 0 to |rules|
      invariant best == None ==> forall l | 0 <= l < k :: !Matches(rules[l], path)
      invariant best.Some? ==> FirstLongest(rules[..k], path, best.value)
    {
      if Matches(rules[k], path) && (best == None || |rules[k].path| > |rules[best.value].path|) {
        best := Some(k);
      }
    }
    assert rules[..|rules|] == rules;
    if best.Some? {
      DecidingRuleIsUnique(rules, path, best.value);
    }
    allowed := if best.Some? then rules[best.value].allow else true;
  }

  lemma DecidingRuleIsUnique(rules: seq<Rule>, path: string, k: nat)
    requires FirstLongest(rules, path, k)
    ensures forall l | 0 <= l < |rules| && FirstLongest(rules, path, l) :: l == k
    ensures Allowed(rules, path) <==> rules[k].allow
  {
  }

  /** There is a deciding rule exactly when some rule matches. */
  lemma {:induction false} DecidingRuleExists(rules: seq<Rule>, path: string)
    ensures (exists k | 0 <= k < |rules| :: FirstLongest(rules, path, k))
       <==> (exists k | 0 <= k < |rules| :: Matches(rules[k], path))
  {
    if rules != [] {
      var n := |rules| - 1;
      var front := rules[..n];
      DecidingRuleExists(front, path);
      if k :| 0 <= k < n && FirstLongest(front, path, k) {
        if Matches(rules[n], path) && |rules[n].path| > |rules[k].path| {
          assert FirstLongest(rules, path, n);
        } else {
          assert FirstLongest(rules, path, k);
        }
      } else if Matches(rules[n], path) {
        assert forall l | 0 <= l < n :: !Matches(front[l], path);
        assert FirstLongest(rules, path, n);
      } else {
        assert forall l | 0 <= l < n :: !Matches(front[l], path);
      }
    }
  }

  /** Section 2.2.2: the longest match decides, and when an allow and a disallow are equally long, the allow does. */
  ghost predicate AllowedByStandard(rules: seq<Rule>, path: string) {
    || (forall k | 0 <= k < |rules| :: !Matches(rules[k], path))
    || (exists k | 0 <= k < |rules| && LongestMatch(rules, path, k) :: rules[k].allow)
  }

  predicate LongestMatch(rules: seq<Rule>, path: string, k: nat) {
    && k < |rules| && Matches(rules[k], path)
    && (forall l | 0 <= l < |rules| && Matches(rules[l], path) :: |rules[l].path| <= |rules[k].path|)
  }

  /** The deciding rule forbids the path although a later rule allows the very same path. */
  ghost predicate ShadowedAllow(rules: seq<Rule>, path: string) {
    exists k, l | 0 <= k < l < |rules| && FirstLongest(rules, path, k) ::
      !rules[k].allow && rules[l].path == rules[k].path && rules[l].allow
  }

  lemma EquallyLongAreEqual(rules: seq<Rule>, path: string, k: nat, l: nat)
    requires k < |rules| && l < |rules| && Matches(rules[k], path) && Matches(rules[l], path)
    requires |rules[k].path| == |rules[l].path|
    ensures rules[k].path == rules[l].path
  {
    assert rules[k].path == path[..|rules[k].path|] == rules[l].path;
  }

  /** Ties go to file order, so the verdict is the standard's exactly when no allow is shadowed by an equal disallow. */
  lemma StandardUnlessShadowed(rules: seq<Rule>, path: string)
    ensures (Allowed(rules, path) <==> AllowedByStandard(rules, path)) <==> !ShadowedAllow(rules, path)
  {
    DecidingRuleExists(rules, path);
    if k :| 0 <= k < |rules| && FirstLongest(rules, path, k) {
      StandardWithDecider(rules, path, k);
    }
  }

  lemma StandardWithDecider(rules: seq<Rule>, path: string, k: nat)
    requires FirstLongest(rules, path, k)
    ensures (rules[k].allow <==> AllowedByStandard(rules, path)) <==> !ShadowedAllow(rules, path)
    ensures Allowed(rules, path) <==> rules[k].allow
  {
    DecidingRuleIsUnique(rules, path, k);
    assert LongestMatch(rules, path, k);
    if !rules[k].allow && AllowedByStandard(rules, path) {
      var l :| 0 <= l < |rules| && LongestMatch(rules, path, l) && rules[l].allow;
      EquallyLongAreEqual(rules, path, k, l);
      assert k < l && rules[l].path == rules[k].path;
    }
    if ShadowedAllow(rules, path) {
      var i, l :| 0 <= i < l < |rules| && FirstLongest(rules, path, i)
        && !rules[i].allow && rules[l].path == rules[i].path && rules[l].allow;
      assert i == k && LongestMatch(rules, path, l);
    }
  }

  /** A disallow before an allow of the same path: the disallow decides, where the standard lets the allow win. */
  lemma EqualDisallowFirst(path: string)
    ensures var rules := [Rule(path, false), Rule(path, true)];
      ShadowedAllow(rules, path) && !Allowed(rules, path) && AllowedByStandard(rules, path)
  {
    var rules := [Rule(path, false), Rule(path, true)];
    assert FirstLongest(rules, path, 0) && LongestMatch(rules, path, 1);
    DecidingRuleIsUnique(rules, path, 0);
    assert rules[1].allow;
  }

  // ----- the deciding group -----

  /** Some agent of the group other than `*` occurs in the token. */
  predicate Names(group: Group, token: string) {
    exists k | 0 <= k < |group.userAgents| :: group.userAgents[k] != "*" && Includes(token, group.userAgents[k])
  }

  predicate IsWildcard(group: Group) { "*" in group.userAgents }

  function FirstNamed(groups: seq<Group>, token: string): (k: nat)
    ensures k <= |groups| && forall l | 0 <= l < k :: !Names(groups[l], token)
    ensures k < |groups| ==> Names(groups[k], token)
  {
    if groups == [] || Names(groups[0], token) then 0 else 1 + FirstNamed(groups[1..], token)
  }

  function FirstWildcard(groups: seq<Group>): (k: nat)
    ensures k <= |groups| && forall l | 0 <= l < k :: !IsWildcard(groups[l])
    ensures k < |groups| ==> IsWildcard(groups[k])
  {
    if groups == [] || IsWildcard(groups[0]) then 0 else 1 + FirstWildcard(groups[1..])
  }

  /** The product token of a user agent: what stands before the slash. `lower` is the platform's `toLowerCase`. */
  function Token(userAgent: string, lower: string -> string): string {
    lower(Trim(userAgent[..IndexOf(userAgent, '/')]))
  }

  /** Group `k` is the first one that names the token or, when none does, the first wildcard group. */
  predicate Selected(groups: seq<Group>, token: string, k: nat) {
    && k < |groups|
    && (if Names(groups[k], token) then
          forall l | 0 <= l < k :: !Names(groups[l], token)
        else
          && IsWildcard(groups[k])
          && (forall l | 0 <= l < |groups| :: !Names(groups[l], token))
          && (forall l | 0 <= l < k :: !IsWildcard(groups[l])))
  }

  /** A named group wins over every wildcard group, wherever it stands; among equals the first one in the file wins. */
  function SelectGroup(groups: seq<Group>, userAgent: string, lower: string -> string): (g: Option<Group>)
    ensures g == None <==>
      forall k | 0 <= k < |groups| :: !Names(groups[k], Token(userAgent, lower)) && !IsWildcard(groups[k])
    ensures g.Some? ==>
      exists k | 0 <= k < |groups| :: Selected(groups, Token(userAgent, lower), k) && g.value == groups[k]
  {
    var token := Token(userAgent, lower);
    var named, wildcard := FirstNamed(groups, token), FirstWildcard(groups);
    if named < |groups| then
      assert Selected(groups, token, named);
      Some(groups[named])
    else if wildcard < |groups| then
      assert Selected(groups, token, wildcard);
      Some(groups[wildcard])
    else None
  }

  method IsPathAllowed(groups: seq<Group>, userAgent: string, path: string, lower: string -> string)
    returns (allowed: bool)
    ensures allowed <==> var g := SelectGroup(groups, userAgent, lower); g == None || Allowed(g.value.rules, path)
  {
    var group := SelectGroup(groups, userAgent, lower);
    if group == None {
      return true;
    }
    allowed := IsAllowed(group.value.rules, path);
  }
}

/** What the groups of any parsed robots.txt are: the lines from one first agent line to the next. */
module RobotsGroups {
  import opened Common
  import opened RobotsRules
  import opened RobotsParser

  /** A line with a field, without comment and surrounding space. */
  datatype FieldLine = FieldLine(field: string, value: string)

  /** The field of a line, if it has one. */
  function FieldIn(rawLine: string, lower: string -> string): seq<FieldLine> {
    var line := Bare(rawLine);
    if ':' in line then
      var colon := IndexOf(line, ':');
      assert line[..|line|] == line;
      [FieldLine(lower(Trim(line[..colon])), Trim(line[colon + 1..]))]
    else []
  }

  function Fields(lines: seq<string>, lower: string -> string): seq<FieldLine> {
    if lines == [] then [] else FieldIn(lines[0], lower) + Fields(lines[1..], lower)
  }

  predicate IsAgent(f: FieldLine) { f.field == "user-agent" }

  predicate IsRule(f: FieldLine) { (f.field == "allow" || f.field == "disallow") && f.value != "" }

  /** An agent line that does not follow an agent line. */
  predicate IsStart(fields: seq<FieldLine>, k: nat) {
    k < |fields| && IsAgent(fields[k]) && (k == 0 || !IsAgent(fields[k - 1]))
  }

  function Agents(fields: seq<FieldLine>, lower: string -> string): seq<string> {
    if fields == [] then []
    else
      var n := |fields| - 1;
      Agents(fields[..n], lower) + if IsAgent(fields[n]) then [lower(fields[n].value)] else []
  }

  function RulesOf(fields: seq<FieldLine>): seq<Rule> {
    if fields == [] then []
    else
      var n := |fields| - 1;
      RulesOf(fields[..n]) + if IsRule(fields[n]) then [Rule(fields[n].value, fields[n].field == "allow")] else []
  }

  function GroupOf(fields: seq<FieldLine>, lower: string -> string): Group {
    Group(Agents(fields, lower), RulesOf(fields))
  }

  /** The positions of all the starts, in order. */
  ghost predicate AreStarts(fields: seq<FieldLine>, starts: seq<nat>) {
    && (forall g | 0 <= g < |starts| :: IsStart(fields, starts[g]))
    && (forall g, h | 0 <= g < h < |starts| :: starts[g] < starts[h])
    && (forall k: nat | IsStart(fields, k) :: k in starts)
  }

  function EndOf(starts: seq<nat>, g: nat, n: nat): nat { if g + 1 < |starts| then starts[g + 1] else n }

  /** The group holds the agents and the rules of the lines from start `g` to the next. */
  predicate IsGroup(group: Group, fields: seq<FieldLine>, starts: seq<nat>, g: nat, lower: string -> string)
    requires g < |starts|
  {
    && starts[g] <= EndOf(starts, g, |fields|) <= |fields|
    && group == GroupOf(fields[starts[g]..EndOf(starts, g, |fields|)], lower)
  }

  ghost predicate AreGroups(groups: seq<Group>, fields: seq<FieldLine>, starts: seq<nat>, lower: string -> string) {
    && AreStarts(fields, starts) && |groups| == |starts|
    && forall g | 0 <= g < |groups| :: IsGroup(groups[g], fields, starts, g, lower)
  }

  // ----- reading the fields one by one -----

  function TakeFields(fields: seq<FieldLine>, lower: string -> string): State {
    if fields == [] then START
    else
      var n := |fields| - 1;
      Take(TakeFields(fields[..n], lower), fields[n].field, fields[n].value, lower)
  }

  lemma TakeFieldsSnoc(fields: seq<FieldLine>, f: FieldLine, lower: string -> string)
    ensures TakeFields(fields + [f], lower) == Take(TakeFields(fields, lower), f.field, f.value, lower)
  {
    assert (fields + [f])[..|fields|] == fields;
  }

  lemma NoneAfter(a: seq<FieldLine>)
    ensures a + [] == a
  {
  }

  lemma TakeLineIs(before: seq<FieldLine>, rawLine: string, lower: string -> string)
    ensures TakeLine(TakeFields(before, lower), rawLine, lower) == TakeFields(before + FieldIn(rawLine, lower), lower)
  {
    var line := Bare(rawLine);
    assert line[..|line|] == line;
    if ':' in line {
      TakeFieldsSnoc(before, FieldIn(rawLine, lower)[0], lower);
    } else {
      NoneAfter(before);
    }
  }

  lemma Regroup(a: seq<FieldLine>, b: seq<FieldLine>, c: seq<FieldLine>)
    ensures a + (b + c) == (a + b) + c
  {
  }

  lemma {:induction false} LinesTakeFields(before: seq<FieldLine>, lines: seq<string>, lower: string -> string)
    ensures TakeLines(TakeFields(before, lower), lines, lower) == TakeFields(before + Fields(lines, lower), lower)
    decreases |lines|
  {
    if lines == [] {
      NoneAfter(before);
    } else {
      var one := before + FieldIn(lines[0], lower);
      TakeLineIs(before, lines[0], lower);
      Regroup(before, FieldIn(lines[0], lower), Fields(lines[1..], lower));
      LinesTakeFields(one, lines[1..], lower);
    }
  }

  // ----- one more field -----

  predicate LastIs(s: State, fields: seq<FieldLine>) {
    && (fields == [] ==> s == START)
    && (fields != [] ==> s.lastField == Some(fields[|fields| - 1].field))
    && (fields != [] && IsAgent(fields[|fields| - 1]) ==> s.groups != [])
  }

  lemma StartKept(fields: seq<FieldLine>, f: FieldLine, k: nat)
    requires k < |fields|
    ensures IsStart(fields + [f], k) == IsStart(fields, k)
  {
  }

  lemma StartsSnoc(fields: seq<FieldLine>, f: FieldLine, starts: seq<nat>)
    requires AreStarts(fields, starts)
    ensures AreStarts(fields + [f], if IsStart(fields + [f], |fields|) then starts + [|fields|] else starts)
  {
    var more, n := fields + [f], |fields|;
    var grown := if IsStart(more, n) then starts + [n] else starts;
    forall g | 0 <= g < |starts| ensures IsStart(more, starts[g]) && starts[g] < n {
      StartKept(fields, f, starts[g]);
    }
    forall k: nat | IsStart(more, k) ensures k in grown {
      if k < n {
        StartKept(fields, f, k);
        assert k in starts;
      } else {
        assert grown[|starts|] == k;
      }
    }
  }

  lemma GroupSnoc(fields: seq<FieldLine>, f: FieldLine, lower: string -> string)
    ensures GroupOf(fields + [f], lower) == Group(
      Agents(fields, lower) + (if IsAgent(f) then [lower(f.value)] else []),
      RulesOf(fields) + (if IsRule(f) then [Rule(f.value, f.field == "allow")] else []))
  {
    assert (fields + [f])[..|fields|] == fields;
  }

  /** A group that a later line does not touch. */
  lemma GroupStays(group: Group, fields: seq<FieldLine>, f: FieldLine, starts: seq<nat>, grown: seq<nat>, g: nat,
                   lower: string -> string)
    requires g < |starts| && starts <= grown && IsGroup(group, fields, starts, g, lower)
    requires EndOf(grown, g, |fields| + 1) == EndOf(starts, g, |fields|)
    ensures IsGroup(group, fields + [f], grown, g, lower)
  {
    var end := EndOf(starts, g, |fields|);
    assert (fields + [f])[starts[g]..end] == fields[starts[g]..end];
  }

  /** A start opens a group of its own. */
  lemma StartOpens(groups: seq<Group>, fields: seq<FieldLine>, f: FieldLine, starts: seq<nat>, lower: string -> string)
    requires AreGroups(groups, fields, starts, lower) && IsStart(fields + [f], |fields|)
    ensures AreGroups(groups + [Group([lower(f.value)], [])], fields + [f], starts + [|fields|], lower)
  {
    var more, grown, n := fields + [f], starts + [|fields|], |fields|;
    var all := groups + [Group([lower(f.value)], [])];
    StartsSnoc(fields, f, starts);
    forall g | 0 <= g < |all| ensures IsGroup(all[g], more, grown, g, lower) {
      if g < |groups| {
        GroupStays(groups[g], fields, f, starts, grown, g, lower);
      } else {
        assert more[n..n + 1] == [] + [f];
        GroupSnoc([], f, lower);
      }
    }
  }

  /** The line goes to the last group, if there is one. */
  predicate Joins(groups: seq<Group>, f: FieldLine, joined: seq<Group>, lower: string -> string) {
    && |joined| == |groups| && (forall g | 0 <= g < |groups| - 1 :: joined[g] == groups[g])
    && (groups != [] ==> joined[|groups| - 1] == Group(
          groups[|groups| - 1].userAgents + (if IsAgent(f) then [lower(f.value)] else []),
          groups[|groups| - 1].rules + (if IsRule(f) then [Rule(f.value, f.field == "allow")] else [])))
  }

  /** Any line but a start belongs to the last group. */
  lemma LineJoins(groups: seq<Group>, fields: seq<FieldLine>, f: FieldLine, starts: seq<nat>, lower: string -> string,
                  joined: seq<Group>)
    requires AreGroups(groups, fields, starts, lower) && !IsStart(fields + [f], |fields|)
    requires Joins(groups, f, joined, lower)
    ensures AreGroups(joined, fields + [f], starts, lower)
  {
    StartsSnoc(fields, f, starts);
    forall g | 0 <= g < |joined| ensures IsGroup(joined[g], fields + [f], starts, g, lower) {
      assert IsGroup(groups[g], fields, starts, g, lower);
      if g + 1 < |starts| {
        GroupStays(groups[g], fields, f, starts, starts, g, lower);
      } else {
        assert (fields + [f])[starts[g]..|fields| + 1] == fields[starts[g]..] + [f];
        assert fields[starts[g]..|fields|] == fields[starts[g]..];
        GroupSnoc(fields[starts[g]..], f, lower);
      }
    }
  }

  lemma TakeOpens(s: State, fields: seq<FieldLine>, f: FieldLine, lower: string -> string)
    requires LastIs(s, fields) && IsStart(fields + [f], |fields|)
    ensures Take(s, f.field, f.value, lower).groups == s.groups + [Group([lower(f.value)], [])]
  {
    if fields != [] {
      assert (fields + [f])[|fields| - 1] == fields[|fields| - 1];
    }
  }

  lemma TakeJoins(s: State, fields: seq<FieldLine>, f: FieldLine, lower: string -> string)
    requires LastIs(s, fields) && !IsStart(fields + [f], |fields|)
    ensures Joins(s.groups, f, Take(s, f.field, f.value, lower).groups, lower)
  {
    if IsAgent(f) {
      assert (fields + [f])[|fields| - 1] == fields[|fields| - 1];
    }
  }

  lemma TakeIsLast(s: State, fields: seq<FieldLine>, f: FieldLine, lower: string -> string)
    requires LastIs(s, fields)
    ensures LastIs(Take(s, f.field, f.value, lower), fields + [f])
  {
  }

  lemma {:induction false} FieldsAreGroups(fields: seq<FieldLine>, lower: string -> string) returns (starts: seq<nat>)
    ensures AreGroups(TakeFields(fields, lower).groups, fields, starts, lower)
    ensures LastIs(TakeFields(fields, lower), fields)
  {
    if fields == [] {
      starts := [];
    } else {
      var n := |fields| - 1;
      var front, f := fields[..n], fields[n];
      assert fields == front + [f];
      starts := FieldsAreGroups(front, lower);
      starts := OneMoreField(TakeFields(front, lower), front, f, starts, lower);
    }
  }

  lemma OneMoreField(s: State, front: seq<FieldLine>, f: FieldLine, before: seq<nat>, lower: string -> string)
    returns (starts: seq<nat>)
    requires AreGroups(s.groups, front, before, lower) && LastIs(s, front)
    ensures AreGroups(Take(s, f.field, f.value, lower).groups, front + [f], starts, lower)
    ensures LastIs(Take(s, f.field, f.value, lower), front + [f])
  {
    TakeIsLast(s, front, f, lower);
    if IsStart(front + [f], |front|) {
      starts := before + [|front|];
      TakeOpens(s, front, f, lower);
      StartOpens(s.groups, front, f, before, lower);
    } else {
      starts := before;
      TakeJoins(s, front, f, lower);
      LineJoins(s.groups, front, f, before, lower, Take(s, f.field, f.value, lower).groups);
    }
  }

  /**
   * Whatever the text, the groups are the stretches of lines from one start to the next: an agent line starts a group
   * unless the field line before it is an agent line too, and lines before the first start belong to no group.
   */
  lemma ParsedGroups(content: string, lower: string -> string, fields: seq<FieldLine>) returns (starts: seq<nat>)
    requires fields == Fields(Lines(content), lower)
    ensures AreGroups(Parse(content, lower), fields, starts, lower)
  {
    starts := FieldsAreGroups(fields, lower);
    LinesTakeFields([], Lines(content), lower);
    assert [] + fields == fields;
  }

  /** The token that groups are matched against is the product name, with or without a version. */
  lemma TokenIsName(name: string, version: string, lower: string -> string)
    requires CleanValue(name) && '/' !in name
    ensures Token(name, lower) == lower(name) && Token(name + "/" + version, lower) == lower(name)
  {
    IndexOfNone(name, '/');
    assert name[..|name|] == name;
    IndexOfFirst(name, '/', version);
    assert (name + ['/'] + version)[..|name|] == name;
  }
}

/** Parsing a robots.txt line by line, and that it undoes printing. */
module RobotsParser {
  import opened Common
  import opened RobotsRules
  import opened Whitespace

  const NEW_LINE := '\n'
  const RETURN := '\r'

  // ----- lines -----

  function DropReturn(s: string): string {
    if s != [] && s[|s| - 1] == RETURN then s[..|s| - 1] else s
  }

  /** `content.split(/\r?\n/)`. */
  function Lines(content: string): seq<string>
    decreases |content|
  {
    var i := IndexOf(content, NEW_LINE);
    if i == |content| then [content] else [DropReturn(content[..i])] + Lines(content[i + 1..])
  }

  /** `rawLine.split('#')[0].trim()`. */
  function Bare(rawLine: string): string { Trim(rawLine[..IndexOf(rawLine, '#')]) }

  // ----- the parser -----

  /** The groups so far, the last of which is the current one, and the field of the last line with a field. */
  datatype State = State(groups: seq<Group>, lastField: Option<string>)

  const START := State([], None)

  function AddAgent(s: State, value: string): seq<Group> {
    if s.groups == [] || s.lastField != Some("user-agent") then s.groups + [Group([value], [])]
    else
      var n := |s.groups| - 1;
      s.groups[n := s.groups[n].(userAgents := s.groups[n].userAgents + [value])]
  }

  function AddRule(groups: seq<Group>, rule: Rule): seq<Group> {
    if groups == [] || rule.path == "" then groups
    else
      var n := |groups| - 1;
      groups[n := groups[n].(rules := groups[n].rules + [rule])]
  }

  /** One line with a field; `lower` is the platform's `toLowerCase`. */
  function Take(s: State, field: string, value: string, lower: string -> string): State {
    State(
      if field == "user-agent" then AddAgent(s, lower(value))
      else if field == "disallow" then AddRule(s.groups, Rule(value, false))
      else if field == "allow" then AddRule(s.groups, Rule(value, true))
      else s.groups,
      Some(field))
  }

  function TakeLine(s: State, rawLine: string, lower: string -> string): State {
    var line := Bare(rawLine);
    var colon := IndexOf(line, ':');
    if line == [] || colon == |line| then s
    else Take(s, lower(Trim(line[..colon])), Trim(line[colon + 1..]), lower)
  }

  function TakeLines(s: State, lines: seq<string>, lower: string -> string): State
    decreases |lines|
  {
    if lines == [] then s else TakeLines(TakeLine(s, lines[0], lower), lines[1..], lower)
  }

  function Parse(content: string, lower: string -> string): seq<Group> {
    TakeLines(START, Lines(content), lower).groups
  }

  /** The three branches of the line loop. */
  method TakeField(groups: seq<Group>, lastField: Option<string>, field: string, value: string, lower: string -> string)
    returns (grown: seq<Group>)
    ensures State(grown, Some(field)) == Take(State(groups, lastField), field, value, lower)
  {
    grown := groups;
    if field == "user-agent" {
      if groups == [] || lastField != Some("user-agent") {
        grown := groups + [Group([lower(value)], [])];
      } else {
        var current := groups[|groups| - 1];
        grown := groups[|groups| - 1 := current.(userAgents := current.userAgents + [lower(value)])];
      }
    } else if field == "disallow" && groups != [] && value != "" {
      var current := groups[|groups| - 1];
      grown := groups[|groups| - 1 := current.(rules := current.rules + [Rule(value, false)])];
    } else if field == "allow" && groups != [] && value != "" {
      var current := groups[|groups| - 1];
      grown := groups[|groups| - 1 := current.(rules := current.rules + [Rule(value, true)])];
    }
  }

  lemma TakeLinesFrom(s: State, lines: seq<string>, k: nat, lower: string -> string)
    requires k < |lines|
    ensures TakeLines(s, lines[k..], lower) == TakeLines(TakeLine(s, lines[k], lower), lines[k + 1..], lower)
  {
    assert lines[k..][1..] == lines[k + 1..];
  }

  method ParseRobotsTxt(content: string, lower: string -> string) returns (groups: seq<Group>)
    ensures groups == Parse(content, lower)
  {
    groups := [];
    var lastField: Option<string> := None;
    var lines := Lines(content);
    ghost var answer := TakeLines(START, lines, lower);
    assert lines[0..] == lines;
    for k := 0 to |lines|
      invariant answer == TakeLines(State(groups, lastField), lines[k..], lower)
    {
      TakeLinesFrom(State(groups, lastField), lines, k, lower);
      var line := Bare(lines[k]);
      if line == [] {
        continue;
      }
      var colon := IndexOf(line, ':');
      if colon == |line| {
        continue;
      }
      var field, value := lower(Trim(line[..colon])), Trim(line[colon + 1..]);
      groups := TakeField(groups, lastField, field, value, lower);
      lastField := Some(field);
    }
  }

  // ----- printing -----

  /** A line of a group, before it is written down. */
  datatype Entry = Agent(name: string) | Line(rule: Rule)

  function Label(entry: Entry): string {
    match entry
    case Agent(_) => "User-agent"
    case Line(rule) => if rule.allow then "Allow" else "Disallow"
  }

  function EntryValue(entry: Entry): string {
    match entry
    case Agent(name) => name
    case Line(rule) => rule.path
  }

  function AgentEntries(names: seq<string>): seq<Entry> {
    if names == [] then [] else [Agent(names[0])] + AgentEntries(names[1..])
  }

  function RuleEntries(rules: seq<Rule>): seq<Entry> {
    if rules == [] then [] else [Line(rules[0])] + RuleEntries(rules[1..])
  }

  function Entries(groups: seq<Group>): seq<Entry> {
    if groups == [] then []
    else AgentEntries(groups[0].userAgents) + RuleEntries(groups[0].rules) + Entries(groups[1..])
  }

  /** Each entry on a line of its own, followed by `note`, which is empty or a comment, and an end of line. */
  function PrintEntries(entries: seq<Entry>, note: string, eol: string): string {
    if entries == [] then [] else PrintEntry(entries[0], note) + eol + PrintEntries(entries[1..], note, eol)
  }

  function PrintEntry(entry: Entry, note: string): string {
    Label(entry) + ": " + EntryValue(entry) + note
  }

  function Print(groups: seq<Group>, note: string, eol: string): string {
    PrintEntries(Entries(groups), note, eol)
  }

  predicate IsNote(note: string) {
    NEW_LINE !in note && RETURN !in note && (note == [] || note[0] == '#')
  }

  predicate IsEol(eol: string) { eol == [NEW_LINE] || eol == [RETURN, NEW_LINE] }

  /** A value that can stand on a line: trimmed, and without comment and line marks. */
  predicate CleanValue(v: string) { Trim(v) == v && '#' !in v && NEW_LINE !in v && RETURN !in v }

  predicate CleanEntry(entry: Entry, lower: string -> string) {
    && CleanValue(EntryValue(entry))
    && match entry
       case Agent(name) => lower(name) == name
       case Line(rule) => rule.path != ""
  }

  predicate CleanEntries(entries: seq<Entry>, lower: string -> string) {
    forall k | 0 <= k < |entries| :: CleanEntry(entries[k], lower)
  }

  predicate LowersLabels(lower: string -> string) {
    lower("User-agent") == "user-agent" && lower("Allow") == "allow" && lower("Disallow") == "disallow"
  }

  // ----- reading an entry back -----

  function TakeEntry(s: State, entry: Entry): State {
    match entry
    case Agent(name) => State(AddAgent(s, name), Some("user-agent"))
    case Line(rule) => State(AddRule(s.groups, rule), Some(if rule.allow then "allow" else "disallow"))
  }

  function TakeEntries(s: State, entries: seq<Entry>): State
    decreases |entries|
  {
    if entries == [] then s else TakeEntries(TakeEntry(s, entries[0]), entries[1..])
  }

  lemma {:induction false} IndexOfFirst(a: string, c: char, rest: string)
    requires c !in a
    ensures IndexOf(a + [c] + rest, c) == |a|
  {
    var s := a + [c] + rest;
    if a != [] {
      assert a[0] in a && (forall d | d in a[1..] :: d in a);
      assert s[1..] == a[1..] + [c] + rest;
      IndexOfFirst(a[1..], c, rest);
    }
  }

  lemma {:induction false} IndexOfNone(s: string, c: char)
    requires c !in s
    ensures IndexOf(s, c) == |s|
  {
    if s != [] {
      assert s[0] in s && (forall d | d in s[1..] :: d in s);
      IndexOfNone(s[1..], c);
    }
  }

  lemma {:induction false} TrimLeftStays(s: string)
    ensures TrimLeft(IsSpace, s) == s <==> s == [] || !IsSpace(s[0])
    ensures TrimLeft(IsSpace, s) == s || |TrimLeft(IsSpace, s)| < |s|
  {
    if s != [] && IsSpace(s[0]) {
      TrimLeftStays(s[1..]);
    }
  }

  lemma {:induction false} TrimRightStays(s: string)
    ensures TrimRight(IsSpace, s) == s <==> s == [] || !IsSpace(s[|s| - 1])
    ensures TrimRight(IsSpace, s) == s || |TrimRight(IsSpace, s)| < |s|
  {
    if s != [] && IsSpace(s[|s| - 1]) {
      TrimRightStays(s[..|s| - 1]);
    }
  }

  /** A text is trimmed exactly when neither end is a space. */
  lemma TrimStaysIff(s: string)
    ensures Trim(s) == s <==> s == [] || (!IsSpace(s[0]) && !IsSpace(s[|s| - 1]))
  {
    TrimLeftStays(s);
    TrimRightStays(s);
    TrimRightStays(TrimLeft(IsSpace, s));
  }

  lemma BlankBefore(v: string)
    requires Trim(v) == v
    ensures Trim([' '] + v) == v
  {
    assert IsSpace(' ');
    assert ([' '] + v)[1..] == v;
    TrimStaysIff(v);
    TrimLeftStays(v);
  }

  lemma BeforeNote(kept: string, note: string)
    requires '#' !in kept && IsNote(note)
    ensures (kept + note)[..IndexOf(kept + note, '#')] == kept
  {
    if note == [] {
      assert kept + note == kept;
      IndexOfNone(kept, '#');
    } else {
      assert kept + note == kept + ['#'] + note[1..];
      IndexOfFirst(kept, '#', note[1..]);
    }
  }

  /** Trimming takes the blank after the colon when there is no value. */
  lemma TrimLine(word: string, v: string)
    requires Trim(v) == v && word != [] && !IsSpace(word[0])
    ensures Trim(word + ": " + v) == word + ":" + (if v == [] then [] else [' '] + v)
  {
    var kept := word + ": " + v;
    TrimStaysIff(v);
    TrimLeftStays(kept);
    if v == [] {
      assert kept[..|kept| - 1] == word + ":" && IsSpace(kept[|kept| - 1]);
      TrimRightStays(word + ":");
    } else {
      assert kept[|kept| - 1] == v[|v| - 1];
      TrimRightStays(kept);
      assert kept == word + ":" + ([' '] + v);
    }
  }

  lemma BareLine(word: string, v: string, note: string, raw: string) returns (line: string)
    requires CleanValue(v) && IsNote(note) && '#' !in word && word != [] && !IsSpace(word[0])
    requires raw == word + ": " + v + note
    ensures line == Bare(raw) && line == word + ":" + (if v == [] then [] else [' '] + v)
  {
    var kept := word + ": " + v;
    assert raw == kept + note;
    BeforeNote(kept, note);
    TrimLine(word, v);
    line := Trim(kept);
  }

  lemma LabelFacts(entry: Entry)
    ensures var word := Label(entry);
      word != [] && '#' !in word && ':' !in word && NEW_LINE !in word && RETURN !in word && Trim(word) == word
      && !IsSpace(word[0])
  {
    TrimStaysIff(Label(entry));
  }

  lemma TakePrintedEntry(s: State, entry: Entry, note: string, raw: string, lower: string -> string)
    requires CleanEntry(entry, lower) && IsNote(note) && LowersLabels(lower) && raw == PrintEntry(entry, note)
    ensures TakeLine(s, raw, lower) == TakeEntry(s, entry)
  {
    var word, v := Label(entry), EntryValue(entry);
    LabelFacts(entry);
    var line := BareLine(word, v, note, raw);
    var after := if v == [] then [] else [' '] + v;
    assert line == word + [':'] + after;
    IndexOfFirst(word, ':', after);
    assert line[..|word|] == word && line[|word| + 1..] == after;
    BlankBefore(v);
  }

  /** The first line of a printed text, whichever end of line is used. */
  lemma FirstLine(raw: string, eol: string, rest: string)
    requires IsEol(eol) && NEW_LINE !in raw && RETURN !in raw
    ensures Lines(raw + eol + rest) == [raw] + Lines(rest)
  {
    var content := raw + eol + rest;
    var before := raw + eol[..|eol| - 1];
    assert content == before + [NEW_LINE] + rest;
    IndexOfFirst(before, NEW_LINE, rest);
    assert content[..|before|] == before && content[|before| + 1..] == rest;
    if |eol| == 2 {
      assert before[..|before| - 1] == raw;
    } else {
      assert before == raw;
      if raw != [] {
        assert raw[|raw| - 1] in raw;
      }
    }
    assert DropReturn(before) == raw;
  }

  lemma TakeFirstEntry(s: State, entry: Entry, note: string, eol: string, rest: string, lower: string -> string)
    requires CleanEntry(entry, lower) && IsNote(note) && IsEol(eol) && LowersLabels(lower)
    ensures TakeLines(s, Lines(PrintEntry(entry, note) + eol + rest), lower)
         == TakeLines(TakeEntry(s, entry), Lines(rest), lower)
  {
    var raw := PrintEntry(entry, note);
    LabelFacts(entry);
    FirstLine(raw, eol, rest);
    TakePrintedEntry(s, entry, note, raw, lower);
    assert Lines(raw + eol + rest)[1..] == Lines(rest);
  }

  lemma {:induction false} TakePrintedEntries(s: State, entries: seq<Entry>, note: string, eol: string,
                                              lower: string -> string)
    requires CleanEntries(entries, lower) && IsNote(note) && IsEol(eol) && LowersLabels(lower)
    ensures TakeLines(s, Lines(PrintEntries(entries, note, eol)), lower) == TakeEntries(s, entries)
    decreases |entries|
  {
    if entries == [] {
      assert Lines([]) == [[]];
      assert TakeLine(s, [], lower) == s;
    } else {
      var rest := PrintEntries(entries[1..], note, eol);
      assert CleanEntry(entries[0], lower);
      TakeFirstEntry(s, entries[0], note, eol, rest, lower);
      TakePrintedEntries(TakeEntry(s, entries[0]), entries[1..], note, eol, lower);
    }
  }

  // ----- the groups -----

  const AGENT_FIELD := Some("user-agent")

  /** Every group has an agent, and every group but the last has a rule that ends its agents. */
  predicate WellShaped(groups: seq<Group>) {
    && (forall k | 0 <= k < |groups| :: groups[k].userAgents != [])
    && (forall k | 0 <= k < |groups| - 1 :: groups[k].rules != [])
  }

  predicate CleanRules(rules: seq<Rule>) { forall k | 0 <= k < |rules| :: rules[k].path != "" }

  lemma {:induction false} TakeEntriesAppend(s: State, a: seq<Entry>, b: seq<Entry>)
    ensures TakeEntries(s, a + b) == TakeEntries(TakeEntries(s, a), b)
    decreases |a|
  {
    if a == [] {
      assert a + b == b;
    } else {
      assert (a + b)[0] == a[0] && (a + b)[1..] == a[1..] + b;
      TakeEntriesAppend(TakeEntry(s, a[0]), a[1..], b);
    }
  }

  /** The current group of `s` is `group`, after the groups `front`. */
  predicate Current(s: State, front: seq<Group>, group: Group) {
    |s.groups| == |front| + 1 && s.groups[..|front|] == front && s.groups[|front|] == group
  }

  lemma AgentJoins(s: State, name: string, front: seq<Group>, group: Group)
    requires Current(s, front, group) && s.lastField == AGENT_FIELD
    ensures var r := TakeEntry(s, Agent(name));
      Current(r, front, group.(userAgents := group.userAgents + [name])) && r.lastField == AGENT_FIELD
  {
  }

  /** The agents after the first join the current group. */
  lemma {:induction false} MoreAgents(s: State, names: seq<string>, front: seq<Group>, group: Group)
    requires Current(s, front, group) && s.lastField == AGENT_FIELD
    ensures var r := TakeEntries(s, AgentEntries(names));
      Current(r, front, group.(userAgents := group.userAgents + names)) && r.lastField == AGENT_FIELD
    decreases |names|
  {
    if names == [] {
      assert group.userAgents + [] == group.userAgents;
    } else {
      AgentJoins(s, names[0], front, group);
      MoreAgents(TakeEntry(s, Agent(names[0])), names[1..], front, group.(userAgents := group.userAgents + [names[0]]));
      assert group.userAgents + [names[0]] + names[1..] == group.userAgents + names;
      assert AgentEntries(names)[1..] == AgentEntries(names[1..]);
    }
  }

  lemma RuleJoins(s: State, rule: Rule, front: seq<Group>, group: Group)
    requires Current(s, front, group) && rule.path != ""
    ensures var r := TakeEntry(s, Line(rule));
      Current(r, front, group.(rules := group.rules + [rule])) && r.lastField != AGENT_FIELD
  {
  }

  lemma {:induction false} MoreRules(s: State, rules: seq<Rule>, front: seq<Group>, group: Group)
    requires Current(s, front, group) && CleanRules(rules)
    ensures var r := TakeEntries(s, RuleEntries(rules));
      && Current(r, front, group.(rules := group.rules + rules))
      && (rules != [] || s.lastField != AGENT_FIELD ==> r.lastField != AGENT_FIELD)
    decreases |rules|
  {
    if rules == [] {
      assert group.rules + [] == group.rules;
    } else {
      RuleJoins(s, rules[0], front, group);
      MoreRules(TakeEntry(s, Line(rules[0])), rules[1..], front, group.(rules := group.rules + [rules[0]]));
      assert group.rules + [rules[0]] + rules[1..] == group.rules + rules;
      assert RuleEntries(rules)[1..] == RuleEntries(rules[1..]);
    }
  }

  /** The agents of a group open a new one. */
  lemma TakeAgents(s: State, names: seq<string>)
    requires s.groups == [] || s.lastField != AGENT_FIELD
    requires names != []
    ensures Current(TakeEntries(s, AgentEntries(names)), s.groups, Group(names, []))
  {
    var first := TakeEntry(s, Agent(names[0]));
    assert Current(first, s.groups, Group([names[0]], []));
    MoreAgents(first, names[1..], s.groups, Group([names[0]], []));
    assert [names[0]] + names[1..] == names && AgentEntries(names)[1..] == AgentEntries(names[1..]);
  }

  lemma CurrentIsLast(s: State, front: seq<Group>, group: Group)
    requires Current(s, front, group)
    ensures s.groups == front + [group]
  {
  }

  /** The lines of one group add exactly that group. */
  lemma TakeGroup(s: State, group: Group)
    requires s.groups == [] || s.lastField != AGENT_FIELD
    requires group.userAgents != [] && CleanRules(group.rules)
    ensures var r := TakeEntries(s, AgentEntries(group.userAgents) + RuleEntries(group.rules));
      && r.groups == s.groups + [group]
      && (group.rules != [] ==> r.lastField != AGENT_FIELD)
  {
    TakeAgents(s, group.userAgents);
    var collected := TakeEntries(s, AgentEntries(group.userAgents));
    MoreRules(collected, group.rules, s.groups, Group(group.userAgents, []));
    assert [] + group.rules == group.rules;
    TakeEntriesAppend(s, AgentEntries(group.userAgents), RuleEntries(group.rules));
    CurrentIsLast(TakeEntries(collected, RuleEntries(group.rules)), s.groups, group);
  }

  predicate RulesClean(groups: seq<Group>) { forall k | 0 <= k < |groups| :: CleanRules(groups[k].rules) }

  lemma WellShapedRest(groups: seq<Group>)
    requires WellShaped(groups) && RulesClean(groups) && |groups| > 1
    ensures WellShaped(groups[1..]) && RulesClean(groups[1..])
  {
    assert forall k | 0 <= k < |groups[1..]| :: groups[1..][k] == groups[k + 1];
  }

  lemma {:induction false} TakeGroups(s: State, groups: seq<Group>)
    requires WellShaped(groups) && RulesClean(groups) && (s.groups == [] || s.lastField != AGENT_FIELD)
    ensures TakeEntries(s, Entries(groups)).groups == s.groups + groups
    decreases |groups|
  {
    if groups != [] {
      var head := AgentEntries(groups[0].userAgents) + RuleEntries(groups[0].rules);
      TakeGroup(s, groups[0]);
      TakeEntriesAppend(s, head, Entries(groups[1..]));
      assert s.groups + groups == (s.groups + [groups[0]]) + groups[1..];
      if |groups| > 1 {
        WellShapedRest(groups);
        TakeGroups(TakeEntries(s, head), groups[1..]);
      } else {
        assert groups[1..] == [] && head + [] == head;
      }
    } else {
      assert Entries(groups) == [] && s.groups + groups == s.groups;
    }
  }

  /** What holds after any run of entries: the current group is still collecting agents exactly while it has no rule. */
  predicate Collecting(s: State) {
    && WellShaped(s.groups)
    && (s.groups != [] ==> (s.lastField == AGENT_FIELD <==> s.groups[|s.groups| - 1].rules == []))
  }

  predicate HasPath(entry: Entry) { entry.Line? ==> entry.rule.path != "" }

  lemma TakeEntryKeepsCollecting(s: State, entry: Entry)
    requires Collecting(s) && HasPath(entry)
    ensures Collecting(TakeEntry(s, entry))
  {
  }

  lemma {:induction false} EntriesKeepCollecting(s: State, entries: seq<Entry>)
    requires Collecting(s) && forall k | 0 <= k < |entries| :: HasPath(entries[k])
    ensures Collecting(TakeEntries(s, entries))
    decreases |entries|
  {
    if entries != [] {
      assert HasPath(entries[0]);
      TakeEntryKeepsCollecting(s, entries[0]);
      EntriesKeepCollecting(TakeEntry(s, entries[0]), entries[1..]);
    }
  }

  lemma {:induction false} RuleEntriesAre(rules: seq<Rule>)
    ensures |RuleEntries(rules)| == |rules| && forall k | 0 <= k < |rules| :: RuleEntries(rules)[k] == Line(rules[k])
  {
    if rules != [] {
      RuleEntriesAre(rules[1..]);
    }
  }

  lemma {:induction false} EntriesHaveRules(groups: seq<Group>, g: nat)
    requires g < |groups|
    ensures forall entry | entry in RuleEntries(groups[g].rules) :: entry in Entries(groups)
  {
    if g > 0 {
      EntriesHaveRules(groups[1..], g - 1);
    }
  }

  lemma CleanEntriesHavePaths(groups: seq<Group>, lower: string -> string)
    requires CleanEntries(Entries(groups), lower)
    ensures RulesClean(groups)
  {
    forall g, k | 0 <= g < |groups| && 0 <= k < |groups[g].rules| ensures groups[g].rules[k].path != "" {
      RuleEntriesAre(groups[g].rules);
      EntriesHaveRules(groups, g);
      assert Line(groups[g].rules[k]) in RuleEntries(groups[g].rules);
    }
  }

  /**
   * Parsing a printed list of groups, with or without a comment on every line and with either end of line, gives
   * the groups back exactly when each has an agent and each but the last has a rule: agents of a group without
   * rules run into the next group, and rules without agents into the one before.
   */
  lemma ParseUndoesPrint(groups: seq<Group>, note: string, eol: string, lower: string -> string)
    requires CleanEntries(Entries(groups), lower) && IsNote(note) && IsEol(eol) && LowersLabels(lower)
    ensures Parse(Print(groups, note, eol), lower) == groups <==> WellShaped(groups)
  {
    var entries := Entries(groups);
    TakePrintedEntries(START, entries, note, eol, lower);
    if WellShaped(groups) {
      CleanEntriesHavePaths(groups, lower);
      TakeGroups(START, groups);
    } else {
      forall k | 0 <= k < |entries| ensures HasPath(entries[k]) {
        assert CleanEntry(entries[k], lower);
      }
      EntriesKeepCollecting(START, entries);
    }
  }

  // ----- any text -----

  lemma TakeKeepsPaths(s: State, field: string, value: string, lower: string -> string)
    requires RulesClean(s.groups)
    ensures RulesClean(Take(s, field, value, lower).groups)
  {
  }

  predicate AllNamed(groups: seq<Group>) { forall k | 0 <= k < |groups| :: groups[k].userAgents != [] }

  lemma TakeKeepsNamed(s: State, field: string, value: string, lower: string -> string)
    requires AllNamed(s.groups)
    ensures AllNamed(Take(s, field, value, lower).groups)
  {
  }

  lemma {:induction false} LinesKeepPaths(s: State, lines: seq<string>, lower: string -> string)
    requires RulesClean(s.groups) && AllNamed(s.groups)
    ensures RulesClean(TakeLines(s, lines, lower).groups) && AllNamed(TakeLines(s, lines, lower).groups)
    decreases |lines|
  {
    if lines != [] {
      var line := Bare(lines[0]);
      var colon := IndexOf(line, ':');
      if line != [] && colon != |line| {
        var field, value := lower(Trim(line[..colon])), Trim(line[colon + 1..]);
        TakeKeepsPaths(s, field, value, lower);
        TakeKeepsNamed(s, field, value, lower);
      }
      LinesKeepPaths(TakeLine(s, lines[0], lower), lines[1..], lower);
    }
  }

  /** Whatever the text, no rule has an empty path, which would match every path, and every group has an agent. */
  lemma ParsedRulesHavePaths(content: string, lower: string -> string, groups: seq<Group>)
    requires groups == Parse(content, lower)
    ensures forall g, k | 0 <= g < |groups| && 0 <= k < |groups[g].rules| :: groups[g].rules[k].path != ""
    ensures forall g | 0 <= g < |groups| :: groups[g].userAgents != []
  {
    LinesKeepPaths(START, Lines(content), lower);
    forall g, k | 0 <= g < |groups| && 0 <= k < |groups[g].rules| ensures groups[g].rules[k].path != "" {
      assert CleanRules(groups[g].rules);
    }
  }
}

/** Runs of tagging calls and their refreshes after commit; the read and the upsert of a refresh are two steps. */
module ConsensusRuns {
  import opened Common
  import opened Agreement
  import opened Consensus

  /** What a refresh that has read the tags is about to store. */
  datatype Computed = Computed(key: Key, row: Row)

  /** `awaiting` holds the refreshes that committed calls still owe, `computed` those between read and upsert. */
  datatype State = State(
    tags: seq<Tag>, consensus: map<Key, Row>, awaiting: multiset<Key>, computed: seq<Computed>)

  const REGION := "region"
  const QUALITY := "quality"

  datatype Step =
    | CommitReview(user: User, item: string, textLength: nat, quality: Option<Value>, regions: seq<Value>)
    | CommitRegionTag(user: User, item: string, textLength: nat, regions: seq<Value>)
    | CommitConfirm(user: User, item: string, textLength: nat, regions: seq<Value>)
    | CommitAdjudicate(user: User, key: Key, values: seq<Value>)
    | AddMachineTag(user: User, key: Key, value: Value)
    | ReadTags(key: Key)
    | Upsert(i: nat)

  function HumanTags(user: User, key: Key, values: seq<Value>): (tags: seq<Tag>)
    ensures |tags| == |values| && forall k | 0 <= k < |tags| :: tags[k] == Tag(key, values[k], user, false)
  {
    seq(|values|, k requires 0 <= k < |values| => Tag(key, values[k], user, false))
  }

  /** A transaction adds tags and owes refreshes. */
  function Commit(s: State, more: seq<Tag>, owed: multiset<Key>): State {
    s.(tags := s.tags + more, awaiting := s.awaiting + owed)
  }

  function Removed(computed: seq<Computed>, i: nat): seq<Computed>
    requires i < |computed|
  {
    computed[..i] + computed[i + 1..]
  }

  function Apply(s: State, step: Step): State {
    match step
    case CommitReview(user, item, n, quality, regions) =>
      var qualityKey, regionKey := Key(item, QUALITY, 0, n), Key(item, REGION, 0, n);
      Commit(
        if quality.Some? then Commit(s, HumanTags(user, qualityKey, [quality.value]), multiset{qualityKey}) else s,
        HumanTags(user, regionKey, regions), if regions != [] then multiset{regionKey} else multiset{})
    case CommitRegionTag(user, item, n, regions) =>
      Commit(s, HumanTags(user, Key(item, REGION, 0, n), regions), multiset{Key(item, REGION, 0, n)})
    case CommitConfirm(user, item, n, regions) =>
      if regions == [] then s
      else Commit(s, HumanTags(user, Key(item, REGION, 0, n), regions), multiset{Key(item, REGION, 0, n)})
    case CommitAdjudicate(user, key, values) => Commit(s, HumanTags(user, key, values), multiset{key})
    case AddMachineTag(user, key, value) => Commit(s, [Tag(key, value, user, true)], multiset{})
    case ReadTags(key) =>
      if key !in s.awaiting then s
      else s.(awaiting := s.awaiting - multiset{key}, computed := s.computed + [Computed(key, Fresh(s.tags, key))])
    case Upsert(i) =>
      if i >= |s.computed| then s
      else s.(consensus := s.consensus[s.computed[i].key := s.computed[i].row], computed := Removed(s.computed, i))
  }

  function Run(s: State, steps: seq<Step>): State
    decreases |steps|
  {
    if steps == [] then s else Run(Apply(s, steps[0]), steps[1..])
  }

  const EMPTY := State([], map[], multiset{}, [])

  predicate Tagged(tags: seq<Tag>, key: Key) { exists k :: 0 <= k < |tags| && Counts(tags[k], key) }

  predicate InFlight(s: State, key: Key) { exists i :: 0 <= i < |s.computed| && s.computed[i].key == key }

  /** A key with human tags or a stored row stores exactly the row that recomputation gives. */
  predicate Stored(s: State, key: Key) {
    key in s.consensus || Tagged(s.tags, key) ==> key in s.consensus && s.consensus[key] == Fresh(s.tags, key)
  }

  /** No refresh of the key is owed or between its two steps. */
  predicate Settled(s: State, key: Key) { key !in s.awaiting && !InFlight(s, key) }

  predicate InSync(s: State, key: Key) { Settled(s, key) ==> Stored(s, key) }

  lemma {:induction false} ValuesFrame(tags: seq<Tag>, more: seq<Tag>, key: Key)
    requires forall k | 0 <= k < |more| :: !Counts(more[k], key)
    ensures Annotators(tags + more, key) == Annotators(tags, key)
    ensures forall u :: ValuesBy(tags + more, key, u) == ValuesBy(tags, key, u)
  {
    if more == [] {
      assert tags + more == tags;
    } else {
      var n := |more| - 1;
      ValuesFrame(tags, more[..n], key);
      assert (tags + more)[..|tags| + n] == tags + more[..n];
    }
  }

  /** Tags on other keys and machine tags leave a key alone. */
  lemma Frame(tags: seq<Tag>, more: seq<Tag>, key: Key)
    requires forall k | 0 <= k < |more| :: !Counts(more[k], key)
    ensures Recompute(tags + more, key) == Recompute(tags, key) && (Tagged(tags + more, key) <==> Tagged(tags, key))
  {
    ValuesFrame(tags, more, key);
    assert SetsOf(Annotators(tags, key), tags + more, key) == SetsOf(Annotators(tags, key), tags, key);
    if k :| 0 <= k < |tags + more| && Counts((tags + more)[k], key) {
      if k < |tags| {
        assert Counts(tags[k], key);
      }
    }
    if k :| 0 <= k < |tags| && Counts(tags[k], key) {
      assert Counts((tags + more)[k], key);
    }
  }

  // ----- a committed call owes a refresh of each key it tags -----

  /** Between the two states the call tagged the key and owes a refresh of it, or left the key as it was. */
  predicate OwedOrFramed(s: State, s': State, key: Key) {
    && s'.consensus == s.consensus && s'.computed == s.computed && (key in s.awaiting ==> key in s'.awaiting)
    && (key in s'.awaiting
        || (Recompute(s'.tags, key) == Recompute(s.tags, key) && (Tagged(s'.tags, key) <==> Tagged(s.tags, key))))
  }

  lemma CommitFrames(s: State, more: seq<Tag>, owed: multiset<Key>, key: Key)
    requires key in owed || forall k | 0 <= k < |more| :: !Counts(more[k], key)
    ensures OwedOrFramed(s, Commit(s, more, owed), key)
  {
    if key !in owed {
      Frame(s.tags, more, key);
    }
  }

  lemma ReviewFrames(s: State, user: User, item: string, n: nat, quality: Option<Value>, regions: seq<Value>, key: Key)
    ensures OwedOrFramed(s, Apply(s, CommitReview(user, item, n, quality, regions)), key)
  {
    var qualityKey, regionKey := Key(item, QUALITY, 0, n), Key(item, REGION, 0, n);
    var s1 := s;
    if quality.Some? {
      CommitFrames(s, HumanTags(user, qualityKey, [quality.value]), multiset{qualityKey}, key);
      s1 := Commit(s, HumanTags(user, qualityKey, [quality.value]), multiset{qualityKey});
    }
    CommitFrames(s1, HumanTags(user, regionKey, regions),
                 if regions != [] then multiset{regionKey} else multiset{}, key);
  }

  lemma TaggingFrames(s: State, step: Step, key: Key)
    requires !step.ReadTags? && !step.Upsert?
    ensures OwedOrFramed(s, Apply(s, step), key)
  {
    match step
    case CommitReview(user, item, n, quality, regions) => ReviewFrames(s, user, item, n, quality, regions, key);
    case CommitRegionTag(user, item, n, regions) =>
      CommitFrames(s, HumanTags(user, Key(item, REGION, 0, n), regions), multiset{Key(item, REGION, 0, n)}, key);
    case CommitConfirm(user, item, n, regions) =>
      CommitFrames(s, HumanTags(user, Key(item, REGION, 0, n), regions), multiset{Key(item, REGION, 0, n)}, key);
    case CommitAdjudicate(user, k, values) => CommitFrames(s, HumanTags(user, k, values), multiset{k}, key);
    case AddMachineTag(user, k, value) => CommitFrames(s, [Tag(k, value, user, true)], multiset{}, key);
  }

  /** A human tag of the user on the whole text of an item. */
  predicate IsHumanTag(t: Tag, user: User, item: string, kind: string, n: nat) {
    t == Tag(Key(item, kind, 0, n), t.value, user, false)
  }

  /** The tags that a tagging call is to write. */
  predicate Writes(step: Step, t: Tag) {
    match step
    case CommitReview(user, item, n, quality, regions) =>
      || (IsHumanTag(t, user, item, "quality", n) && quality == Some(t.value))
      || (IsHumanTag(t, user, item, "region", n) && t.value in regions)
    case CommitRegionTag(user, item, n, regions) => IsHumanTag(t, user, item, "region", n) && t.value in regions
    case CommitConfirm(user, item, n, regions) => IsHumanTag(t, user, item, "region", n) && t.value in regions
    case CommitAdjudicate(user, key, values) => t == Tag(key, t.value, user, false) && t.value in values
    case AddMachineTag(user, key, value) => t == Tag(key, value, user, true)
    case _ => false
  }

  /** The keys whose rows it has to refresh: those it tags, and the region and adjudicated keys even without a tag. */
  predicate Owes(step: Step, key: Key) {
    match step
    case CommitReview(_, item, n, quality, regions) =>
      (key == Key(item, "quality", 0, n) && quality.Some?) || (key == Key(item, "region", 0, n) && regions != [])
    case CommitRegionTag(_, item, n, _) => key == Key(item, "region", 0, n)
    case CommitConfirm(_, item, n, regions) => key == Key(item, "region", 0, n) && regions != []
    case CommitAdjudicate(_, k, _) => key == k
    case _ => false
  }

  lemma HumanTagsAre(user: User, key: Key, values: seq<Value>, t: Tag)
    ensures t in HumanTags(user, key, values) <==> t == Tag(key, t.value, user, false) && t.value in values
  {
    var tags := HumanTags(user, key, values);
    if t == Tag(key, t.value, user, false) && t.value in values {
      var k :| 0 <= k < |values| && values[k] == t.value;
      assert tags[k] == t;
    }
  }

  lemma CommitAdds(s: State, more: seq<Tag>, owed: multiset<Key>, t: Tag, key: Key)
    ensures var s' := Commit(s, more, owed);
      && s.tags <= s'.tags && s'.consensus == s.consensus && s'.computed == s.computed
      && (t in s'.tags <==> t in s.tags || t in more)
      && (key in s'.awaiting <==> key in s.awaiting || key in owed)
  {
  }

  lemma ReviewTags(s: State, step: Step, s': State, t: Tag, key: Key)
    requires step.CommitReview? && s' == Apply(s, step)
    ensures s.tags <= s'.tags && s'.consensus == s.consensus && s'.computed == s.computed
    ensures t in s'.tags <==> t in s.tags || Writes(step, t)
    ensures key in s'.awaiting <==> key in s.awaiting || Owes(step, key)
  {
    var user, regionKey := step.user, Key(step.item, REGION, 0, step.textLength);
    var qualityKey := Key(step.item, QUALITY, 0, step.textLength);
    var owed := if step.regions != [] then multiset{regionKey} else multiset{};
    HumanTagsAre(user, regionKey, step.regions, t);
    if step.quality.Some? {
      var first := HumanTags(user, qualityKey, [step.quality.value]);
      HumanTagsAre(user, qualityKey, [step.quality.value], t);
      CommitAdds(s, first, multiset{qualityKey}, t, key);
      CommitAdds(Commit(s, first, multiset{qualityKey}), HumanTags(user, regionKey, step.regions), owed, t, key);
    } else {
      CommitAdds(s, HumanTags(user, regionKey, step.regions), owed, t, key);
    }
  }

  /** A tagging call adds exactly its tags, keeps all others in place, and owes exactly its refreshes. */
  lemma CallsTag(s: State, step: Step, s': State, t: Tag, key: Key)
    requires !step.ReadTags? && !step.Upsert? && s' == Apply(s, step)
    ensures s.tags <= s'.tags && s'.consensus == s.consensus && s'.computed == s.computed
    ensures t in s'.tags <==> t in s.tags || Writes(step, t)
    ensures key in s'.awaiting <==> key in s.awaiting || Owes(step, key)
  {
    match step
    case CommitReview(_, _, _, _, _) => ReviewTags(s, step, s', t, key);
    case CommitRegionTag(user, item, n, regions) =>
      HumanTagsAre(user, Key(item, REGION, 0, n), regions, t);
      CommitAdds(s, HumanTags(user, Key(item, REGION, 0, n), regions), multiset{Key(item, REGION, 0, n)}, t, key);
    case CommitConfirm(user, item, n, regions) =>
      HumanTagsAre(user, Key(item, REGION, 0, n), regions, t);
      CommitAdds(s, HumanTags(user, Key(item, REGION, 0, n), regions), multiset{Key(item, REGION, 0, n)}, t, key);
    case CommitAdjudicate(user, k, values) =>
      HumanTagsAre(user, k, values, t);
      CommitAdds(s, HumanTags(user, k, values), multiset{k}, t, key);
    case AddMachineTag(user, k, value) => CommitAdds(s, [Tag(k, value, user, true)], multiset{}, t, key);
  }

  // ----- when rows match the tags: no older read is written last -----

  /** The refresh at `i` has read before another one of the key that is under way, or after one. */
  predicate OlderThanSome(computed: seq<Computed>, i: nat, key: Key) {
    exists j :: i < j < |computed| && computed[j].key == key
  }

  predicate NewerThanSome(computed: seq<Computed>, i: nat, key: Key) {
    exists j :: 0 <= j < i && j < |computed| && computed[j].key == key
  }

  /** While no refresh of the key is owed, its newest read is not written before an older one. */
  predicate NewestWaits(s: State, step: Step, key: Key) {
    step.Upsert? && step.i < |s.computed| && s.computed[step.i].key == key && key !in s.awaiting
    ==> (NewerThanSome(s.computed, step.i, key) ==> OlderThanSome(s.computed, step.i, key))
  }

  ghost predicate NewestIsLast(s: State, steps: seq<Step>, key: Key)
    decreases |steps|
  {
    steps == [] || (NewestWaits(s, steps[0], key) && NewestIsLast(Apply(s, steps[0]), steps[1..], key))
  }

  /** When no refresh is owed, the newest read under way is up to date, and so is the row when none is under way. */
  predicate Current(s: State, key: Key) {
    key !in s.awaiting ==>
      && (forall i | 0 <= i < |s.computed| && s.computed[i].key == key && !OlderThanSome(s.computed, i, key) ::
            s.computed[i].row == Fresh(s.tags, key))
      && (InFlight(s, key) || Stored(s, key))
  }

  lemma ReadKeepsCurrent(s: State, k: Key, key: Key)
    requires Current(s, key)
    ensures Current(Apply(s, ReadTags(k)), key)
  {
    var s', n := Apply(s, ReadTags(k)), |s.computed|;
    if k in s.awaiting {
      assert s'.computed[n] == Computed(k, Fresh(s.tags, k));
      forall i | 0 <= i < n && s'.computed[i].key == key && !OlderThanSome(s'.computed, i, key)
        ensures s.computed[i] == s'.computed[i] && !OlderThanSome(s.computed, i, key)
      {
        assert forall j | i < j < n :: s'.computed[j] == s.computed[j];
      }
      if InFlight(s, key) {
        var j :| 0 <= j < n && s.computed[j].key == key;
        assert s'.computed[j].key == key;
      }
    }
  }

  /** Positions before and after one computed row is taken out. */
  lemma RemovedShifts(computed: seq<Computed>, i: nat)
    requires i < |computed|
    ensures |Removed(computed, i)| == |computed| - 1
    ensures forall j | 0 <= j < |computed| - 1 :: Removed(computed, i)[j] == computed[if j < i then j else j + 1]
  {
  }

  lemma RemovedKeepsOthers(computed: seq<Computed>, i: nat, j: nat)
    requires i < |computed| && j < |computed| && i != j
    ensures var j' := if j < i then j else j - 1; j' < |computed| - 1 && Removed(computed, i)[j'] == computed[j]
  {
  }

  lemma LaterStays(computed: seq<Computed>, i: nat, j: nat, l: nat, key: Key)
    requires i < |computed| && l < |computed| && l != i && computed[l].key == key
    requires (if j < i then j else j + 1) < l
    ensures OlderThanSome(Removed(computed, i), j, key)
  {
    RemovedKeepsOthers(computed, i, l);
    var at := if l < i then l else l - 1;
    assert Removed(computed, i)[at].key == key;
  }

  /** What is newest after an upsert was newest before, when the upsert did not write the newest. */
  lemma NewestStays(computed: seq<Computed>, i: nat, j: nat, key: Key)
    requires i < |computed| && j < |computed| - 1 && (computed[i].key == key ==> OlderThanSome(computed, i, key))
    requires Removed(computed, i)[j].key == key && !OlderThanSome(Removed(computed, i), j, key)
    ensures var k := if j < i then j else j + 1;
      computed[k] == Removed(computed, i)[j] && !OlderThanSome(computed, k, key)
  {
    var k := if j < i then j else j + 1;
    if l :| k < l < |computed| && computed[l].key == key {
      if l != i {
        LaterStays(computed, i, j, l, key);
      } else {
        var m :| l < m < |computed| && computed[m].key == key;
        LaterStays(computed, i, j, m, key);
      }
    }
  }

  /** The upsert of the only refresh of the key that is under way settles it. */
  lemma OnlyOneSettles(s: State, i: nat, key: Key)
    requires i < |s.computed| && s.computed[i].key == key
    requires !OlderThanSome(s.computed, i, key) && !NewerThanSome(s.computed, i, key)
    ensures !InFlight(Apply(s, Upsert(i)), key)
  {
    RemovedShifts(s.computed, i);
  }

  lemma OthersStayInFlight(s: State, i: nat, key: Key)
    requires i < |s.computed| && InFlight(s, key) && (s.computed[i].key == key ==> OlderThanSome(s.computed, i, key))
    ensures InFlight(Apply(s, Upsert(i)), key)
  {
    var j :| 0 <= j < |s.computed| && s.computed[j].key == key && j != i;
    RemovedKeepsOthers(s.computed, i, j);
  }

  lemma UpsertKeepsCurrent(s: State, i: nat, key: Key)
    requires Current(s, key) && NewestWaits(s, Upsert(i), key)
    ensures Current(Apply(s, Upsert(i)), key)
  {
    if i < |s.computed| && key !in s.awaiting {
      var s' := Apply(s, Upsert(i));
      if s.computed[i].key == key && !OlderThanSome(s.computed, i, key) {
        OnlyOneSettles(s, i, key);
      } else {
        forall j | 0 <= j < |s'.computed| && s'.computed[j].key == key && !OlderThanSome(s'.computed, j, key)
          ensures s'.computed[j].row == Fresh(s.tags, key)
        {
          NewestStays(s.computed, i, j, key);
        }
        if InFlight(s, key) {
          OthersStayInFlight(s, i, key);
        }
      }
    }
  }

  lemma StepKeepsCurrent(s: State, step: Step, key: Key)
    requires Current(s, key) && NewestWaits(s, step, key)
    ensures Current(Apply(s, step), key)
  {
    match step
    case ReadTags(k) => ReadKeepsCurrent(s, k, key);
    case Upsert(i) => UpsertKeepsCurrent(s, i, key);
    case _ => TaggingFrames(s, step, key);
  }

  lemma {:induction false} RunKeepsCurrent(s: State, steps: seq<Step>, key: Key)
    requires Current(s, key) && NewestIsLast(s, steps, key)
    ensures Current(Run(s, steps), key)
    decreases |steps|
  {
    if steps != [] {
      StepKeepsCurrent(s, steps[0], key);
      RunKeepsCurrent(Apply(s, steps[0]), steps[1..], key);
    }
  }

  /**
   * Over all runs in which no newest read of a key is written before an older one, overlapping or not, the key stores
   * what recomputation from the tags gives as soon as no refresh of it is owed or under way.
   */
  lemma RunsStayInSync(steps: seq<Step>, key: Key)
    requires NewestIsLast(EMPTY, steps, key)
    ensures InSync(Run(EMPTY, steps), key)
  {
    RunKeepsCurrent(EMPTY, steps, key);
  }

  /** At most one refresh of the key is between its read and its upsert. */
  predicate OneInFlight(s: State, key: Key) {
    forall i, j | 0 <= i < j < |s.computed| :: !(s.computed[i].key == key && s.computed[j].key == key)
  }

  ghost predicate OneAtATime(s: State, steps: seq<Step>, key: Key)
    decreases |steps|
  {
    OneInFlight(s, key) && (steps == [] || OneAtATime(Apply(s, steps[0]), steps[1..], key))
  }

  /** Refreshes that do not overlap keep that order. */
  lemma {:induction false} OneAtATimeIsInOrder(s: State, steps: seq<Step>, key: Key)
    requires OneAtATime(s, steps, key)
    ensures NewestIsLast(s, steps, key)
    decreases |steps|
  {
    if steps != [] {
      OneAtATimeIsInOrder(Apply(s, steps[0]), steps[1..], key);
    }
  }

  // ----- exactly when a key is in sync in every state of a run -----

  /** What the latest refresh of the key to read its tags has computed. */
  function Latest(s: State, step: Step, key: Key, latest: Option<Row>): Option<Row> {
    if step == ReadTags(key) && key in s.awaiting then Some(Fresh(s.tags, key)) else latest
  }

  /** An upsert that leaves no refresh of the key owed or under way writes the row of the latest read. */
  predicate WritesLatest(s: State, step: Step, key: Key, latest: Option<Row>) {
    step.Upsert? && step.i < |s.computed| && s.computed[step.i].key == key && Settled(Apply(s, step), key)
    ==> latest == Some(s.computed[step.i].row)
  }

  ghost predicate AlwaysWritesLatest(s: State, steps: seq<Step>, key: Key, latest: Option<Row>)
    decreases |steps|
  {
    || steps == []
    || (WritesLatest(s, steps[0], key, latest)
        && AlwaysWritesLatest(Apply(s, steps[0]), steps[1..], key, Latest(s, steps[0], key, latest)))
  }

  ghost predicate AlwaysInSync(s: State, steps: seq<Step>, key: Key)
    decreases |steps|
  {
    InSync(s, key) && (steps == [] || AlwaysInSync(Apply(s, steps[0]), steps[1..], key))
  }

  /** A key under way has a latest read, which the tags still give when no refresh is owed. */
  predicate LatestFits(s: State, key: Key, latest: Option<Row>) {
    && (InFlight(s, key) ==> latest.Some?)
    && (key !in s.awaiting && latest.Some? ==> latest.value == Fresh(s.tags, key))
  }

  lemma ReadKeepsLatest(s: State, k: Key, key: Key, latest: Option<Row>)
    requires LatestFits(s, key, latest)
    ensures LatestFits(Apply(s, ReadTags(k)), key, Latest(s, ReadTags(k), key, latest))
  {
    var s', n := Apply(s, ReadTags(k)), |s.computed|;
    if k in s.awaiting && k != key && InFlight(s', key) {
      var j :| 0 <= j < n + 1 && s'.computed[j].key == key;
      assert j < n && s.computed[j].key == key;
    }
  }

  lemma UpsertKeepsLatest(s: State, i: nat, key: Key, latest: Option<Row>)
    requires LatestFits(s, key, latest)
    ensures LatestFits(Apply(s, Upsert(i)), key, latest)
  {
    if i < |s.computed| && InFlight(Apply(s, Upsert(i)), key) {
      RemovedShifts(s.computed, i);
    }
  }

  lemma StepKeepsLatest(s: State, step: Step, key: Key, latest: Option<Row>)
    requires LatestFits(s, key, latest)
    ensures LatestFits(Apply(s, step), key, Latest(s, step, key, latest))
  {
    match step
    case ReadTags(k) => ReadKeepsLatest(s, k, key, latest);
    case Upsert(i) => UpsertKeepsLatest(s, i, key, latest);
    case _ => TaggingFrames(s, step, key);
  }

  lemma ReadKeepsSync(s: State, k: Key, key: Key)
    requires InSync(s, key)
    ensures InSync(Apply(s, ReadTags(k)), key)
  {
    var s', n := Apply(s, ReadTags(k)), |s.computed|;
    if k in s.awaiting {
      assert s'.computed[n].key == k;
      if InFlight(s, key) {
        var i :| 0 <= i < n && s.computed[i].key == key;
        assert s'.computed[i].key == key;
      }
    }
  }

  lemma UpsertKeepsSyncIff(s: State, i: nat, key: Key, latest: Option<Row>)
    requires InSync(s, key) && LatestFits(s, key, latest)
    ensures InSync(Apply(s, Upsert(i)), key) <==> WritesLatest(s, Upsert(i), key, latest)
  {
    if i < |s.computed| {
      if s.computed[i].key == key {
        assert InFlight(s, key);
      } else if InFlight(s, key) {
        OthersStayInFlight(s, i, key);
      }
    }
  }

  lemma StepKeepsSyncIff(s: State, step: Step, key: Key, latest: Option<Row>)
    requires InSync(s, key) && LatestFits(s, key, latest)
    ensures InSync(Apply(s, step), key) <==> WritesLatest(s, step, key, latest)
  {
    match step
    case ReadTags(k) => ReadKeepsSync(s, k, key);
    case Upsert(i) => UpsertKeepsSyncIff(s, i, key, latest);
    case _ => TaggingFrames(s, step, key);
  }

  lemma {:induction false} InSyncIffFrom(s: State, steps: seq<Step>, key: Key, latest: Option<Row>)
    requires InSync(s, key) && LatestFits(s, key, latest)
    ensures AlwaysInSync(s, steps, key) <==> AlwaysWritesLatest(s, steps, key, latest)
    decreases |steps|
  {
    if steps != [] {
      var s1 := Apply(s, steps[0]);
      StepKeepsSyncIff(s, steps[0], key, latest);
      StepKeepsLatest(s, steps[0], key, latest);
      if InSync(s1, key) {
        InSyncIffFrom(s1, steps[1..], key, Latest(s, steps[0], key, latest));
      }
    }
  }

  /**
   * Over every run, however refreshes overlap, a key is in sync in every state exactly when each upsert that leaves
   * no refresh of it owed or under way writes the row of the latest read.
   */
  lemma AlwaysInSyncIff(steps: seq<Step>, key: Key)
    ensures AlwaysInSync(EMPTY, steps, key) <==> AlwaysWritesLatest(EMPTY, steps, key, None)
  {
    InSyncIffFrom(EMPTY, steps, key, None);
  }

  // ----- refreshes that overlap -----

  lemma RunPair(s: State, first: Step, second: Step)
    ensures Run(s, [first, second]) == Apply(Apply(s, first), second)
  {
    var s1 := Apply(s, first);
    assert [first, second][1..] == [second] && [second][1..] == [];
    assert Run(s1, [second]) == Run(Apply(s1, second), []);
  }

  lemma {:induction false} RunAppend(s: State, front: seq<Step>, rest: seq<Step>)
    ensures Run(s, front + rest) == Run(Run(s, front), rest)
    decreases |front|
  {
    if front == [] {
      assert front + rest == rest;
    } else {
      assert (front + rest)[0] == front[0] && (front + rest)[1..] == front[1..] + rest;
      RunAppend(Apply(s, front[0]), front[1..], rest);
    }
  }

  /** An annotator tags the whole text with one region, and the refresh reads the tags. */
  function TagAndRead(user: User, item: string, n: nat, region: Value): seq<Step> {
    [CommitRegionTag(user, item, n, [region]), ReadTags(Key(item, REGION, 0, n))]
  }

  lemma TagAndReadEnds(s: State, user: User, item: string, n: nat, region: Value)
    ensures var key := Key(item, REGION, 0, n);
      var tags := s.tags + [Tag(key, region, user, false)];
      Run(s, TagAndRead(user, item, n, region)) ==
        s.(tags := tags, computed := s.computed + [Computed(key, Fresh(tags, key))])
  {
    var key := Key(item, REGION, 0, n);
    RunPair(s, CommitRegionTag(user, item, n, [region]), ReadTags(key));
    var s1 := Apply(s, CommitRegionTag(user, item, n, [region]));
    assert HumanTags(user, key, [region]) == [Tag(key, region, user, false)];
    assert s1.tags == s.tags + [Tag(key, region, user, false)];
    assert key in s1.awaiting && s1.awaiting - multiset{key} == s.awaiting;
  }

  lemma AnnotatorsSnoc(tags: seq<Tag>, last: Tag, key: Key)
    ensures var before := Annotators(tags, key);
      Annotators(tags + [last], key) ==
      if Counts(last, key) && last.annotator !in before then before + [last.annotator] else before
  {
    assert (tags + [last])[..|tags|] == tags;
  }

  /** Two annotators tag, and the refresh that has read the tags of both writes before the one that has not. */
  function OverlapSteps(u: User, v: User, item: string, n: nat, x: Value, y: Value): seq<Step> {
    TagAndRead(u, item, n, x) + TagAndRead(v, item, n, y) + [Upsert(1), Upsert(0)]
  }

  lemma UpsertBackwards(s: State, key: Key, first: Row, second: Row)
    requires s.computed == [Computed(key, first), Computed(key, second)]
    ensures Run(s, [Upsert(1), Upsert(0)]) == s.(consensus := s.consensus[key := first], computed := [])
  {
    RunPair(s, Upsert(1), Upsert(0));
    assert Removed(s.computed, 1) == [Computed(key, first)];
    assert Removed([Computed(key, first)], 0) == [];
    assert s.consensus[key := second][key := first] == s.consensus[key := first];
  }

  lemma OverlapEnd(u: User, v: User, item: string, n: nat, x: Value, y: Value)
    ensures var key := Key(item, REGION, 0, n);
      var first, second := Tag(key, x, u, false), Tag(key, y, v, false);
      Run(EMPTY, OverlapSteps(u, v, item, n, x, y)) ==
        State([first, second], map[key := Fresh([first], key)], multiset{}, [])
  {
    var key, one, two := Key(item, REGION, 0, n), TagAndRead(u, item, n, x), TagAndRead(v, item, n, y);
    var first, second := Tag(key, x, u, false), Tag(key, y, v, false);
    assert [] + [first] == [first] && [first] + [second] == [first, second];
    var s1 := EMPTY.(tags := [first], computed := [Computed(key, Fresh([first], key))]);
    TagAndReadEnds(EMPTY, u, item, n, x);
    assert Run(EMPTY, one) == s1;
    TagAndReadEnds(s1, v, item, n, y);
    RunAppend(EMPTY, one, two);
    RunAppend(EMPTY, one + two, [Upsert(1), Upsert(0)]);
    UpsertBackwards(Run(EMPTY, one + two), key, Fresh([first], key), Fresh([first, second], key));
  }

  /** Refreshes of one key that overlap can leave its row stale: nothing is owed, and an annotator is missing. */
  lemma OverlappingRefreshesGoStale(u: User, v: User, item: string, n: nat, x: Value, y: Value)
    requires u != v
    ensures var s, key := Run(EMPTY, OverlapSteps(u, v, item, n, x, y)), Key(item, REGION, 0, n);
      && Settled(s, key) && key in s.consensus
      && s.consensus[key].annotatorN == 1 && Fresh(s.tags, key).annotatorN == 2
      && !NewestIsLast(EMPTY, OverlapSteps(u, v, item, n, x, y), key)
  {
    var key := Key(item, REGION, 0, n);
    var first, second := Tag(key, x, u, false), Tag(key, y, v, false);
    OverlapEnd(u, v, item, n, x, y);
    assert [first] == [] + [first] && [first, second] == [first] + [second];
    AnnotatorsSnoc([], first, key);
    AnnotatorsSnoc([first], second, key);
    if NewestIsLast(EMPTY, OverlapSteps(u, v, item, n, x, y), key) {
      RunsStayInSync(OverlapSteps(u, v, item, n, x, y), key);
    }
  }
}

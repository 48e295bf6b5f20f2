/** What the calls of the workflow do to the task rows: which rows change, which are added, and which must be there. */
module WorkflowRows {
  import opened Common
  import opened Utf16
  import opened IdemKey
  import opened TaskTable
  import opened Workflow
  import opened WorkflowKeys
  import T = Tokenize

  /** A follow-up that a call asks for. */
  datatype Wanted = Wanted(kind: TaskType, slot: string, role: Role)

  /** A task for it as it is created. */
  predicate IsNew(t: Task, item: Id, version: nat, w: Wanted) {
    t == Task(item, w.kind, version, w.slot, w.role, 0, Open, None, None, None, None)
  }

  predicate IsFor(t: Task, item: Id, version: nat, w: Wanted) {
    t.item == item && t.version == version && t.kind == w.kind && t.slot == w.slot && t.role == w.role
  }

  /** Some unfinished task does the follow-up. */
  predicate HasTask(tasks: seq<Task>, item: Id, version: nat, w: Wanted) {
    exists j :: 0 <= j < |tasks| && Live(tasks[j]) && IsFor(tasks[j], item, version, w)
  }

  /** All that is wanted is there, and nothing else was added. */
  predicate Provides(before: seq<Task>, after: seq<Task>, item: Id, version: nat, wanted: set<Wanted>) {
    && before <= after
    && (forall w | w in wanted :: HasTask(after, item, version, w))
    && (forall j | |before| <= j < |after| :: exists w :: w in wanted && IsNew(after[j], item, version, w))
  }

  predicate Held(s: State, user: User, id: nat, kind: TaskType) {
    && id < |s.tasks| && s.tasks[id].kind == kind
    && s.tasks[id].status == Claimed && s.tasks[id].claimedBy == Some(user)
  }

  /** The table with row `id` done by the user. */
  function WithDone(tasks: seq<Task>, id: nat, user: User, at: nat): seq<Task>
    requires id < |tasks|
  {
    tasks[id := tasks[id].(status := Done, completedBy := Some(user), completedAt := Some(at))]
  }

  // ----- what spawning provides -----

  lemma {:induction false} SpawnAllAppend(tasks: seq<Task>, a: seq<TaskSpec>, b: seq<TaskSpec>)
    ensures SpawnAll(tasks, a + b) == SpawnAll(SpawnAll(tasks, a), b)
    decreases |a|
  {
    if a == [] {
      assert a + b == b;
    } else {
      assert (a + b)[0] == a[0] && (a + b)[1..] == a[1..] + b;
      SpawnAllAppend(Spawn(tasks, a[0]), a[1..], b);
    }
  }

  ghost predicate LiveKey(tasks: seq<Task>, spec: TaskSpec) {
    exists j :: 0 <= j < |tasks| && Live(tasks[j]) && SameKey(tasks[j], NewTask(spec))
  }

  lemma SpawnGives(tasks: seq<Task>, spec: TaskSpec)
    requires LiveKeysUnique(tasks)
    ensures var after := Spawn(tasks, spec);
      && LiveKeysUnique(after) && tasks <= after && LiveKey(after, spec)
      && (after == tasks || after == tasks + [NewTask(spec)])
  {
    SpawnSkipsIff(tasks, spec);
    var after := Spawn(tasks, spec);
    if after != tasks {
      assert Live(after[|tasks|]) && SameKey(after[|tasks|], NewTask(spec));
    }
  }

  lemma LiveKeyStays(tasks: seq<Task>, after: seq<Task>, spec: TaskSpec)
    requires tasks <= after && LiveKey(tasks, spec)
    ensures LiveKey(after, spec)
  {
    var j :| 0 <= j < |tasks| && Live(tasks[j]) && SameKey(tasks[j], NewTask(spec));
    assert after[j] == tasks[j];
  }

  ghost predicate AllLiveKeys(tasks: seq<Task>, specs: seq<TaskSpec>) {
    forall k | 0 <= k < |specs| :: LiveKey(tasks, specs[k])
  }

  predicate IsOneOf(t: Task, specs: seq<TaskSpec>) {
    exists k :: 0 <= k < |specs| && t == NewTask(specs[k])
  }

  predicate AllOneOf(tasks: seq<Task>, from: nat, specs: seq<TaskSpec>) {
    forall j | from <= j < |tasks| :: IsOneOf(tasks[j], specs)
  }

  lemma AddedOneOf(tasks: seq<Task>, one: seq<Task>, after: seq<Task>, specs: seq<TaskSpec>)
    requires specs != [] && (one == tasks || one == tasks + [NewTask(specs[0])]) && one <= after
    requires AllOneOf(after, |one|, specs[1..])
    ensures AllOneOf(after, |tasks|, specs)
  {
    forall j | |tasks| <= j < |after| ensures IsOneOf(after[j], specs) {
      if |one| <= j {
        assert IsOneOf(after[j], specs[1..]);
        var k :| 0 <= k < |specs[1..]| && after[j] == NewTask(specs[1..][k]);
        assert after[j] == NewTask(specs[k + 1]);
      } else {
        assert after[j] == NewTask(specs[0]);
      }
    }
  }

  lemma {:induction false} SpawnAllGives(tasks: seq<Task>, specs: seq<TaskSpec>, after: seq<Task>)
    requires LiveKeysUnique(tasks) && after == SpawnAll(tasks, specs)
    ensures tasks <= after && AllLiveKeys(after, specs) && AllOneOf(after, |tasks|, specs)
    decreases |specs|
  {
    if specs != [] {
      var one := Spawn(tasks, specs[0]);
      SpawnGives(tasks, specs[0]);
      SpawnAllGives(one, specs[1..], after);
      LiveKeyStays(one, after, specs[0]);
      AddedOneOf(tasks, one, after, specs);
      forall k | 0 <= k < |specs| ensures LiveKey(after, specs[k]) {
        if k > 0 {
          assert LiveKey(after, specs[1..][k - 1]);
        }
      }
    }
  }

  function SpecOf(item: Id, version: nat, w: Wanted): TaskSpec { TaskSpec(item, w.kind, version, w.slot, w.role) }

  function SpecsOf(item: Id, version: nat, wanted: seq<Wanted>): (specs: seq<TaskSpec>)
    ensures |specs| == |wanted| && forall k | 0 <= k < |wanted| :: specs[k] == SpecOf(item, version, wanted[k])
  {
    seq(|wanted|, k requires 0 <= k < |wanted| => SpecOf(item, version, wanted[k]))
  }

  lemma LiveKeyIsTask(s: State, item: Id, version: nat, w: Wanted)
    requires Inv(s) && w.role == RoleOf(w.kind) && LiveKey(s.tasks, SpecOf(item, version, w))
    ensures HasTask(s.tasks, item, version, w)
  {
    var j :| 0 <= j < |s.tasks| && Live(s.tasks[j]) && SameKey(s.tasks[j], NewTask(SpecOf(item, version, w)));
    var t := s.tasks[j];
    KeyTextInjective(t.item, t.kind, t.version, t.slot, item, w.kind, version, w.slot);
    assert Known(t, s.items, s.tokens) && IsFor(t, item, version, w);
  }

  /** The list names all that is wanted and nothing else, each under the role of its kind. */
  predicate Lists(list: seq<Wanted>, wanted: set<Wanted>) {
    && (forall k | 0 <= k < |list| :: list[k] in wanted)
    && (forall w | w in wanted :: w in list && w.role == RoleOf(w.kind))
  }

  lemma SpawningProvides(before: seq<Task>, s: State, item: Id, version: nat, list: seq<Wanted>, wanted: set<Wanted>)
    requires LiveKeysUnique(before) && Inv(s) && s.tasks == SpawnAll(before, SpecsOf(item, version, list))
    requires Lists(list, wanted)
    ensures Provides(before, s.tasks, item, version, wanted)
  {
    var specs := SpecsOf(item, version, list);
    SpawnAllGives(before, specs, s.tasks);
    forall w | w in wanted ensures HasTask(s.tasks, item, version, w) {
      var k :| 0 <= k < |list| && list[k] == w;
      assert LiveKey(s.tasks, specs[k]);
      LiveKeyIsTask(s, item, version, w);
    }
    forall j | |before| <= j < |s.tasks| ensures exists w :: w in wanted && IsNew(s.tasks[j], item, version, w) {
      assert IsOneOf(s.tasks[j], specs);
      var k :| 0 <= k < |specs| && s.tasks[j] == NewTask(specs[k]);
      assert list[k] in wanted && IsNew(s.tasks[j], item, version, list[k]);
    }
  }

  // ----- completing calls -----

  lemma FinishIsDone(s: State, user: User, id: nat, at: nat)
    requires Inv(s) && id < |s.tasks|
    ensures Finish(s, user, id, at) == WithDone(s.tasks, id, user, at) && LiveKeysUnique(Finish(s, user, id, at))
  {
    FinishingNeverFails(s.tasks, id, user, at);
  }

  /** The follow-up of a low agreement on the whole text. */
  function Adjudication(low: bool, i: Item): set<Wanted> {
    if low then {Wanted(Adjudicate, SpanSlot(0, |i.text|), Reviewer)} else {}
  }

  function AdjudicationList(low: bool, i: Item): seq<Wanted> {
    if low then [Wanted(Adjudicate, SpanSlot(0, |i.text|), Reviewer)] else []
  }

  lemma AdjudicationSpecs(tasks: seq<Task>, item: Id, i: Item, low: bool)
    ensures MaybeAdjudicate(tasks, item, i, low) == SpawnAll(tasks, SpecsOf(item, i.version, AdjudicationList(low, i)))
  {
    if low {
      var specs := OnConsensusLowAgreement(item, i.version, 0, |i.text|);
      assert SpecsOf(item, i.version, AdjudicationList(low, i)) == specs;
    }
  }

  lemma SpecsOfJoin(item: Id, version: nat, a: seq<Wanted>, b: seq<Wanted>)
    ensures SpecsOf(item, version, a + b) == SpecsOf(item, version, a) + SpecsOf(item, version, b)
  {
  }

  lemma AdjudicationListed(list: seq<Wanted>, wanted: set<Wanted>, low: bool, i: Item)
    requires Lists(list, wanted)
    ensures Lists(list + AdjudicationList(low, i), wanted + Adjudication(low, i))
  {
  }

  /** An adjudication at the end of a list of spawned tasks. */
  lemma ThenAdjudicate(before: seq<Task>, item: Id, i: Item, list: seq<Wanted>, low: bool)
    ensures MaybeAdjudicate(SpawnAll(before, SpecsOf(item, i.version, list)), item, i, low)
         == SpawnAll(before, SpecsOf(item, i.version, list + AdjudicationList(low, i)))
  {
    AdjudicationSpecs(SpawnAll(before, SpecsOf(item, i.version, list)), item, i, low);
    SpawnAllAppend(before, SpecsOf(item, i.version, list), SpecsOf(item, i.version, AdjudicationList(low, i)));
    SpecsOfJoin(item, i.version, list, AdjudicationList(low, i));
  }

  lemma HeldHolds(s: State, user: User, id: nat, kind: TaskType)
    requires Inv(s) && Held(s, user, id, kind)
    ensures Holds(s, user, id) && s.tasks[id].item in s.items
  {
    assert Known(s.tasks[id], s.items, s.tokens);
  }

  /** A refusal rejects the held review task and touches nothing else. */
  lemma RefusedReviewRows(s: State, isWord: int -> bool, user: User, id: nat, lowQuality: bool, lowRegion: bool,
                          at: nat, s': State)
    requires Inv(s) && Held(s, user, id, Review)
    requires s' == Apply(s, isWord, DoReview(user, id, false, lowQuality, lowRegion, at))
    ensures s' == s.(tasks := s.tasks[id := s.tasks[id].(status := Rejected)])
  {
    HeldHolds(s, user, id, Review);
    OnlyTasksChange(s, isWord, DoReview(user, id, false, lowQuality, lowRegion, at));
    LiveEdit(s.tasks, id, ToRejected);
  }

  lemma LiveEdit(tasks: seq<Task>, id: nat, c: Change)
    requires LiveKeysUnique(tasks) && id < |tasks| && Live(tasks[id])
    ensures Update(tasks, id, c) == tasks[id := Changed(tasks[id], c)]
  {
  }

  /**
   * An approval finishes the held review task and provides a region task, a translation and a standardisation, and one
   * adjudication of the whole text if either verdict is low.
   */
  lemma ApprovedReviewRows(s: State, isWord: int -> bool, user: User, id: nat, lowQuality: bool, lowRegion: bool,
                           at: nat, s': State)
    requires Inv(s) && Held(s, user, id, Review)
    requires s' == Apply(s, isWord, DoReview(user, id, true, lowQuality, lowRegion, at))
    ensures s'.items == s.items && s'.tokens == s.tokens && s.tasks[id].item in s.items
    ensures var item, i := s.tasks[id].item, s.items[s.tasks[id].item];
      Provides(WithDone(s.tasks, id, user, at), s'.tasks, item, i.version,
               {Wanted(RegionTag, "", Contributor), Wanted(TranslateMsa, "", Contributor),
                Wanted(Standardise, "", Reviewer)} + Adjudication(lowQuality || lowRegion, i))
  {
    HeldHolds(s, user, id, Review);
    var item, i := s.tasks[id].item, ItemOf(s, id);
    var list := [Wanted(RegionTag, "", Contributor), Wanted(TranslateMsa, "", Contributor),
                 Wanted(Standardise, "", Reviewer)];
    var wanted := {Wanted(RegionTag, "", Contributor), Wanted(TranslateMsa, "", Contributor),
                   Wanted(Standardise, "", Reviewer)};
    assert OnReviewApproved(item, i.version) == SpecsOf(item, i.version, list);
    assert Lists(list, wanted);
    ReviewedSpawns(s, user, id, lowQuality, lowRegion, at, list);
    AdjudicationsListed(list, wanted, lowQuality, lowRegion, i);
    SpawningRows(s, isWord, DoReview(user, id, true, lowQuality, lowRegion, at),
                 list + AdjudicationList(lowQuality, i) + AdjudicationList(lowRegion, i),
                 wanted + Adjudication(lowQuality || lowRegion, i), s');
  }

  lemma ReviewedSpawns(s: State, user: User, id: nat, lowQuality: bool, lowRegion: bool, at: nat, list: seq<Wanted>)
    requires Inv(s) && Holds(s, user, id)
    requires OnReviewApproved(s.tasks[id].item, ItemOf(s, id).version)
          == SpecsOf(s.tasks[id].item, ItemOf(s, id).version, list)
    ensures var item, i := s.tasks[id].item, ItemOf(s, id);
      Reviewed(s, user, id, lowQuality, lowRegion, at) ==
      SpawnAll(WithDone(s.tasks, id, user, at),
               SpecsOf(item, i.version, list + AdjudicationList(lowQuality, i) + AdjudicationList(lowRegion, i)))
  {
    var item, i, before := s.tasks[id].item, ItemOf(s, id), WithDone(s.tasks, id, user, at);
    FinishIsDone(s, user, id, at);
    ThenAdjudicate(before, item, i, list, lowQuality);
    ThenAdjudicate(before, item, i, list + AdjudicationList(lowQuality, i), lowRegion);
  }

  /** A call that finishes a held task and spawns a list of tasks. */
  lemma SpawningRows(s: State, isWord: int -> bool, call: Call, list: seq<Wanted>, wanted: set<Wanted>, s': State)
    requires Inv(s) && (call.DoReview? || call.DoRegionTag? || call.DoConfirm? || call.DoTranslate?)
    requires Holds(s, call.user, call.id) && s' == Apply(s, isWord, call) && Lists(list, wanted)
    requires s'.tasks == SpawnAll(WithDone(s.tasks, call.id, call.user, call.at),
                                  SpecsOf(s.tasks[call.id].item, ItemOf(s, call.id).version, list))
    ensures s'.items == s.items && s'.tokens == s.tokens
    ensures Provides(WithDone(s.tasks, call.id, call.user, call.at), s'.tasks, s.tasks[call.id].item,
                     ItemOf(s, call.id).version, wanted)
  {
    OnlyTasksChange(s, isWord, call);
    CallKeepsInv(s, isWord, call);
    FinishIsDone(s, call.user, call.id, call.at);
    SpawningProvides(WithDone(s.tasks, call.id, call.user, call.at), s', s.tasks[call.id].item,
                     ItemOf(s, call.id).version, list, wanted);
  }

  lemma AdjudicationsListed(list: seq<Wanted>, wanted: set<Wanted>, lowQuality: bool, lowRegion: bool, i: Item)
    requires Lists(list, wanted)
    ensures Lists(list + AdjudicationList(lowQuality, i) + AdjudicationList(lowRegion, i),
                  wanted + Adjudication(lowQuality || lowRegion, i))
  {
    AdjudicationListed(list, wanted, lowQuality, i);
    AdjudicationListed(list + AdjudicationList(lowQuality, i), wanted + Adjudication(lowQuality, i), lowRegion, i);
    assert wanted + Adjudication(lowQuality, i) + Adjudication(lowRegion, i)
        == wanted + Adjudication(lowQuality || lowRegion, i);
  }

  /** A call that finishes a held task, spawns follow-ups and asks for an adjudication if the verdict is low. */
  lemma FollowedRows(s: State, isWord: int -> bool, call: Call, list: seq<Wanted>, wanted: set<Wanted>, low: bool,
                     s': State)
    requires Inv(s) && (call.DoRegionTag? || call.DoConfirm? || call.DoTranslate?) && Holds(s, call.user, call.id)
    requires s' == Apply(s, isWord, call) && Lists(list, wanted)
    requires s'.tasks == Followed(s, call.user, call.id, call.at,
                                  SpecsOf(s.tasks[call.id].item, ItemOf(s, call.id).version, list), low)
    ensures s'.items == s.items && s'.tokens == s.tokens
    ensures Provides(WithDone(s.tasks, call.id, call.user, call.at), s'.tasks, s.tasks[call.id].item,
                     ItemOf(s, call.id).version, wanted + Adjudication(low, ItemOf(s, call.id)))
  {
    var item, i := s.tasks[call.id].item, ItemOf(s, call.id);
    FinishIsDone(s, call.user, call.id, call.at);
    ThenAdjudicate(WithDone(s.tasks, call.id, call.user, call.at), item, i, list, low);
    AdjudicationListed(list, wanted, low, i);
    SpawningRows(s, isWord, call, list + AdjudicationList(low, i), wanted + Adjudication(low, i), s');
  }

  /** A finished region task provides two confirmations, and an adjudication if the verdict is low. */
  lemma RegionTagRows(s: State, isWord: int -> bool, user: User, id: nat, low: bool, at: nat, s': State)
    requires Inv(s) && Held(s, user, id, RegionTag) && s' == Apply(s, isWord, DoRegionTag(user, id, low, at))
    ensures s'.items == s.items && s'.tokens == s.tokens && s.tasks[id].item in s.items
    ensures var item, i := s.tasks[id].item, s.items[s.tasks[id].item];
      Provides(WithDone(s.tasks, id, user, at), s'.tasks, item, i.version,
               {Wanted(Confirm, "1", Contributor), Wanted(Confirm, "2", Contributor)} + Adjudication(low, i))
  {
    HeldHolds(s, user, id, RegionTag);
    var item, i := s.tasks[id].item, ItemOf(s, id);
    var list := [Wanted(Confirm, "1", Contributor), Wanted(Confirm, "2", Contributor)];
    assert OrdinalSlot(1) == "1" && OrdinalSlot(2) == "2";
    assert OnRegionTagDone(item, i.version) == SpecsOf(item, i.version, list);
    FollowedRows(s, isWord, DoRegionTag(user, id, low, at), list,
                 {Wanted(Confirm, "1", Contributor), Wanted(Confirm, "2", Contributor)}, low, s');
  }

  /** A finished confirmation provides an adjudication if the verdict is low, and nothing else. */
  lemma ConfirmRows(s: State, isWord: int -> bool, user: User, id: nat, low: bool, at: nat, s': State)
    requires Inv(s) && Held(s, user, id, Confirm) && s' == Apply(s, isWord, DoConfirm(user, id, low, at))
    ensures s'.items == s.items && s'.tokens == s.tokens && s.tasks[id].item in s.items
    ensures var item, i := s.tasks[id].item, s.items[s.tasks[id].item];
      Provides(WithDone(s.tasks, id, user, at), s'.tasks, item, i.version, Adjudication(low, i))
  {
    HeldHolds(s, user, id, Confirm);
    assert SpecsOf(s.tasks[id].item, ItemOf(s, id).version, []) == [];
    FollowedRows(s, isWord, DoConfirm(user, id, low, at), [], {}, low, s');
    assert {} + Adjudication(low, ItemOf(s, id)) == Adjudication(low, ItemOf(s, id));
  }

  /** A finished translation provides the transliteration into the other script, if the text is in one of the two. */
  lemma TranslateRows(s: State, isWord: int -> bool, user: User, id: nat, kind: TaskType, at: nat, s': State)
    requires Inv(s) && (kind == TranslateMsa || kind == TranslateFr || kind == TranslateEn)
    requires Held(s, user, id, kind) && s' == Apply(s, isWord, DoTranslate(user, id, at))
    ensures s'.items == s.items && s'.tokens == s.tokens && s.tasks[id].item in s.items
    ensures var item, i := s.tasks[id].item, s.items[s.tasks[id].item];
      Provides(WithDone(s.tasks, id, user, at), s'.tasks, item, i.version,
               match i.script
               case Arabizi => {Wanted(TransliterateToArabic, "", Contributor)}
               case Arabic => {Wanted(TransliterateToArabizi, "", Contributor)}
               case OtherScript => {})
  {
    HeldHolds(s, user, id, kind);
    var item, i := s.tasks[id].item, ItemOf(s, id);
    match i.script
    case Arabizi => TransliterationRows(s, isWord, user, id, at, TransliterateToArabic, s');
    case Arabic => TransliterationRows(s, isWord, user, id, at, TransliterateToArabizi, s');
    case OtherScript =>
      assert OnTranslationAdded(item, i.version, i.script) == SpecsOf(item, i.version, []);
      FollowedRows(s, isWord, DoTranslate(user, id, at), [], {}, false, s');
      assert {} + Adjudication(false, i) == {};
  }

  lemma TransliterationRows(s: State, isWord: int -> bool, user: User, id: nat, at: nat, kind: TaskType, s': State)
    requires Inv(s) && Holds(s, user, id) && IsTranslation(s.tasks[id].kind) && RoleOf(kind) == Contributor
    requires s' == Apply(s, isWord, DoTranslate(user, id, at))
    requires OnTranslationAdded(s.tasks[id].item, ItemOf(s, id).version, ItemOf(s, id).script)
          == SpecsOf(s.tasks[id].item, ItemOf(s, id).version, [Wanted(kind, "", Contributor)])
    ensures s'.items == s.items && s'.tokens == s.tokens
    ensures Provides(WithDone(s.tasks, id, user, at), s'.tasks, s.tasks[id].item, ItemOf(s, id).version,
                     {Wanted(kind, "", Contributor)})
  {
    FollowedRows(s, isWord, DoTranslate(user, id, at), [Wanted(kind, "", Contributor)],
                 {Wanted(kind, "", Contributor)}, false, s');
    assert {Wanted(kind, "", Contributor)} + Adjudication(false, ItemOf(s, id)) == {Wanted(kind, "", Contributor)};
  }

  // ----- calls about one row -----

  /** A new text becomes an item at version 1 with one review task; a known one changes nothing. */
  lemma IngestRows(s: State, isWord: int -> bool, item: Id, text: Text, script: Script, s': State)
    requires Inv(s) && s' == Apply(s, isWord, Ingest(item, text, script))
    ensures item in s.items ==> s' == s
    ensures item !in s.items ==>
      && s'.items == s.items[item := Item(text, script, 1)] && s'.tokens == s.tokens
      && s'.tasks == s.tasks + [Task(item, Review, 1, "", Reviewer, 0, Open, None, None, None, None)]
  {
    if item !in s.items {
      var spec := TaskSpec(item, Review, 1, "", Reviewer);
      forall j | 0 <= j < |s.tasks| ensures !SameKey(s.tasks[j], NewTask(spec)) {
        var t := s.tasks[j];
        assert Known(t, s.items, s.tokens);
        if SameKey(t, NewTask(spec)) {
          KeyTextInjective(t.item, t.kind, t.version, t.slot, item, Review, 1, "");
        }
      }
      SpawnSkipsIff(s.tasks, spec);
      SpawnOne(s.tasks, spec);
      assert OnCorpusItemIngested(item, INITIAL_ITEM_VERSION) == [spec];
    }
  }

  lemma SpawnOne(tasks: seq<Task>, spec: TaskSpec)
    ensures SpawnAll(tasks, [spec]) == Spawn(tasks, spec)
  {
    assert SpawnAll(Spawn(tasks, spec), [spec][1..]) == Spawn(tasks, spec);
  }

  /** The task types that a call finishes and that lead to nothing else. */
  predicate Finishes(call: Call, kind: TaskType) {
    match call
    case CompleteOnly(_, _, _) => true
    case DoTransliterate(_, _, _) => kind == TransliterateToArabic || kind == TransliterateToArabizi
    case DoLinkLemma(_, _, _) => kind == LinkLemma
    case DoAdjudicate(_, _, _) => kind == Adjudicate
    case _ => false
  }

  /** The other completing calls: the held row is done in the user's name, and nothing else happens. */
  lemma FinishedRow(s: State, isWord: int -> bool, call: Call, s': State)
    requires Inv(s) && (call.CompleteOnly? || call.DoTransliterate? || call.DoLinkLemma? || call.DoAdjudicate?)
    requires call.id < |s.tasks| && Held(s, call.user, call.id, s.tasks[call.id].kind)
    requires Finishes(call, s.tasks[call.id].kind) && s' == Apply(s, isWord, call)
    ensures s' == s.(tasks := WithDone(s.tasks, call.id, call.user, call.at))
  {
    HeldHolds(s, call.user, call.id, s.tasks[call.id].kind);
    assert Known(s.tasks[call.id], s.items, s.tokens);
    FinishIsDone(s, call.user, call.id, call.at);
    OnlyTasksChange(s, isWord, call);
  }

  predicate IsCompleting(call: Call) {
    || call.CompleteOnly? || call.DoReview? || call.DoRegionTag? || call.DoConfirm? || call.DoTranslate?
    || call.DoTransliterate? || call.DoStandardise? || call.DoLinkLemma? || call.DoAdjudicate?
  }

  /** The task type that a completing call is for. */
  predicate IsAbout(call: Call, kind: TaskType) {
    match call
    case DoReview(_, _, _, _, _, _) => kind == Review
    case DoRegionTag(_, _, _, _) => kind == RegionTag
    case DoConfirm(_, _, _, _) => kind == Confirm
    case DoTranslate(_, _, _) => kind == TranslateMsa || kind == TranslateFr || kind == TranslateEn
    case DoStandardise(_, _, _) => kind == Standardise
    case _ => Finishes(call, kind)
  }

  /** A completing call for a task that the user does not hold, or of another type, changes nothing. */
  lemma OthersAreRefused(s: State, isWord: int -> bool, call: Call)
    requires Inv(s) && IsCompleting(call)
    requires call.id < |s.tasks| ==>
      || s.tasks[call.id].status != Claimed || s.tasks[call.id].claimedBy != Some(call.user)
      || !IsAbout(call, s.tasks[call.id].kind)
    ensures Apply(s, isWord, call) == s
  {
  }

  /** Another live row has the key of row `id`. */
  ghost predicate KeyTaken(tasks: seq<Task>, id: nat)
    requires id < |tasks|
  {
    exists j :: 0 <= j < |tasks| && j != id && Live(tasks[j]) && SameKey(tasks[j], tasks[id])
  }

  lemma RevivesUnlessTaken(tasks: seq<Task>, id: nat, t: Task)
    requires LiveKeysUnique(tasks) && id < |tasks| && Live(t) && SameCoordinates(t, tasks[id])
    ensures Commit(tasks, tasks[id := t]) == if KeyTaken(tasks, id) then tasks else tasks[id := t]
  {
    var changed := tasks[id := t];
    assert SameKey(t, tasks[id]) && forall j | 0 <= j < |tasks| :: SameKey(tasks[j], t) == SameKey(tasks[j], tasks[id]);
    if KeyTaken(tasks, id) {
      var j :| 0 <= j < |tasks| && j != id && Live(tasks[j]) && SameKey(tasks[j], tasks[id]);
      assert changed[j] == tasks[j] && SameKey(changed[j], changed[id]) && SameKey(changed[id], changed[j]);
    } else {
      forall i, j | 0 <= i < j < |changed| && Live(changed[i]) && Live(changed[j])
        ensures !SameKey(changed[i], changed[j])
      {
        assert SameKey(changed[i], changed[j]) == SameKey(changed[j], changed[i]);
      }
    }
  }

  /** The calls of reviewers and admins on one row: it changes as named, unless another live row has its key. */
  lemma ManagedRow(s: State, isWord: int -> bool, call: Call, s': State)
    requires Inv(s) && (call.RequestRework? || call.ForceRelease? || call.ReassignTask?) && call.id < |s.tasks|
    requires s' == Apply(s, isWord, call)
    ensures var t := s.tasks[call.id];
      s' == if KeyTaken(s.tasks, call.id) then s else s.(tasks := s.tasks[call.id :=
        match call
        case RequestRework(_) => t.(status := NeedsRework, claimedBy := None, claimedAt := None)
        case ForceRelease(_) => t.(status := Open, claimedBy := None, claimedAt := None)
        case ReassignTask(_, user, at) => t.(status := Claimed, claimedBy := Some(user), claimedAt := Some(at))
        case _ => t])
  {
    var c := match call
      case RequestRework(_) => ToNeedsRework
      case ReassignTask(_, user, at) => ToClaimed(user, at)
      case _ => ToOpen;
    OnlyTasksChange(s, isWord, call);
    RevivesUnlessTaken(s.tasks, call.id, Changed(s.tasks[call.id], c));
  }

  /** Rejecting a task always succeeds; a missing row changes nothing. */
  lemma RejectedRow(s: State, isWord: int -> bool, id: nat, s': State)
    requires Inv(s) && s' == Apply(s, isWord, RejectTask(id))
    ensures s' == if id < |s.tasks| then s.(tasks := s.tasks[id := s.tasks[id].(status := Rejected)]) else s
  {
    OnlyTasksChange(s, isWord, RejectTask(id));
  }

  /** A claim puts the user's name and the time on an eligible row of a user who has fewer than five. */
  lemma ClaimedRow(s: State, isWord: int -> bool, p: ClaimParams, id: nat, at: nat, s': State)
    requires Inv(s) && id < |s.tasks| && CountClaims(s.tasks, p.user) < 5
    requires s.tasks[id].status == Open || s.tasks[id].status == NeedsRework
    requires s.tasks[id].role == p.role && s.tasks[id].kind !in p.excluded
    requires p.types == {} || s.tasks[id].kind in p.types
    requires s' == Apply(s, isWord, ClaimTask(p, id, at))
    ensures s' == s.(tasks := s.tasks[id := s.tasks[id].(status := Claimed, claimedBy := Some(p.user),
                                                         claimedAt := Some(at))])
  {
    OnlyTasksChange(s, isWord, ClaimTask(p, id, at));
    LiveEdit(s.tasks, id, ToClaimed(p.user, at));
  }

  /** A claim of a user who has five, or of a row that is not offered to them, changes nothing. */
  lemma ClaimIsRefused(s: State, isWord: int -> bool, p: ClaimParams, id: nat, at: nat)
    requires CountClaims(s.tasks, p.user) < 5 && id < |s.tasks| ==>
      || (s.tasks[id].status != Open && s.tasks[id].status != NeedsRework)
      || s.tasks[id].role != p.role || s.tasks[id].kind in p.excluded
      || (p.types != {} && s.tasks[id].kind !in p.types)
    ensures Apply(s, isWord, ClaimTask(p, id, at)) == s
  {
  }

  // ----- calls about many rows -----

  /** Expiry reopens exactly the claims older than two hours, and never fails. */
  lemma ExpiredRows(s: State, isWord: int -> bool, now: nat, s': State)
    requires Inv(s) && s' == Apply(s, isWord, ExpireClaims(now))
    ensures s'.items == s.items && s'.tokens == s.tokens && |s'.tasks| == |s.tasks|
    ensures forall j | 0 <= j < |s.tasks| ::
      s'.tasks[j] == if s.tasks[j].status == Claimed && s.tasks[j].claimedAt.Some?
                        && now - s.tasks[j].claimedAt.value > 7_200_000
                     then s.tasks[j].(status := Open, claimedBy := None, claimedAt := None) else s.tasks[j]
  {
    OnlyTasksChange(s, isWord, ExpireClaims(now));
    var after := ReleaseExpired(s.tasks, now);
    assert forall j | 0 <= j < |after| :: Live(after[j]) == Live(s.tasks[j]) && SameCoordinates(after[j], s.tasks[j]);
    LivenessCommits(s.tasks, after);
  }

  lemma LivenessCommits(tasks: seq<Task>, after: seq<Task>)
    requires LiveKeysUnique(tasks) && AllSameCoordinates(after, tasks)
    requires forall j | 0 <= j < |after| :: Live(after[j]) ==> Live(tasks[j])
    ensures Commit(tasks, after) == after
  {
    forall i, j | 0 <= i < j < |after| && Live(after[i]) && Live(after[j]) ensures !SameKey(after[i], after[j]) {
      assert SameCoordinates(after[i], tasks[i]) && SameCoordinates(after[j], tasks[j]);
      assert !SameKey(tasks[i], tasks[j]);
    }
  }

  /** Rejecting a batch rejects exactly the unfinished tasks of its items, and never fails. */
  lemma BatchRows(s: State, isWord: int -> bool, items: set<Id>, s': State)
    requires Inv(s) && s' == Apply(s, isWord, RejectBatch(items))
    ensures s'.items == s.items && s'.tokens == s.tokens && |s'.tasks| == |s.tasks|
    ensures forall j | 0 <= j < |s.tasks| ::
      s'.tasks[j] == if s.tasks[j].item in items && s.tasks[j].status in {Open, Claimed, NeedsRework}
                     then s.tasks[j].(status := Rejected) else s.tasks[j]
  {
    OnlyTasksChange(s, isWord, RejectBatch(items));
    var after := RefuseItems(s.tasks, items);
    assert forall j | 0 <= j < |after| :: Live(after[j]) ==> Live(s.tasks[j]);
    RefuseKeepsCoordinates(s.tasks, items);
    LivenessCommits(s.tasks, after);
  }

  lemma BanCommits(s: State, isWord: int -> bool, user: User, s': State)
    requires s' == Apply(s, isWord, BanWithRevert(user))
    ensures s' == s.(tasks := Commit(s.tasks, Revert(s.tasks, CompletedBy(s.tasks, user))))
  {
    OnlyTasksChange(s, isWord, BanWithRevert(user));
  }

  lemma RevertCommits(tasks: seq<Task>, user: User, after: seq<Task>)
    requires after == Commit(tasks, Revert(tasks, CompletedBy(tasks, user)))
    ensures if ClashOnceReverted(tasks, user) then after == tasks else SentBack(tasks, after, user)
  {
    RevertClashes(tasks, user);
    RevertSendsBack(tasks, user);
  }

  /** Banning with a revert sends every completion of the user back, or does nothing if two rows would share a key. */
  lemma BannedRows(s: State, isWord: int -> bool, user: User, s': State)
    requires Inv(s) && s' == Apply(s, isWord, BanWithRevert(user))
    ensures s'.items == s.items && s'.tokens == s.tokens
    ensures if ClashOnceReverted(s.tasks, user) then s'.tasks == s.tasks else SentBack(s.tasks, s'.tasks, user)
  {
    BanCommits(s, isWord, user, s');
    RevertCommits(s.tasks, user, s'.tasks);
  }

  // ----- standardising and moving -----

  /** Standardising finishes the row, bumps the item, and adds per word a token and a link task at the new version. */
  lemma StandardiseRows(s: State, isWord: int -> bool, user: User, id: nat, at: nat, words: seq<T.TokenSpan>, s': State)
    requires Inv(s) && Held(s, user, id, Standardise) && s.tasks[id].item in s.items
    requires s' == Apply(s, isWord, DoStandardise(user, id, at))
    requires words == T.Tokens(isWord, s.items[s.tasks[id].item].text, 0)
    ensures var item := s.tasks[id].item;
      && s'.items == s.items[item := s.items[item].(version := s.items[item].version + 1)]
      && |s'.tasks| == |s.tasks| + |words| && s'.tasks[..|s.tasks|] == WithDone(s.tasks, id, user, at)
      && |s'.tokens| == |s.tokens| + |words| && s'.tokens[..|s.tokens|] == s.tokens
      && forall k | 0 <= k < |words| ::
           && s'.tokens[|s.tokens| + k] == Token(item, words[k].charStart, words[k].charEnd, words[k].surfaceText)
           && IsNew(s'.tasks[|s.tasks| + k], item, s.items[item].version + 1,
                    Wanted(LinkLemma, SpanSlot(words[k].charStart, words[k].charEnd), Reviewer))
  {
    StandardiseSpawnsOnePerToken(s, isWord, user, id, at, s');
  }

  /** Moving an item to another region bumps its version and changes nothing else here. */
  lemma ReassignedItem(s: State, isWord: int -> bool, item: Id, s': State)
    requires s' == Apply(s, isWord, ReassignRegion(item))
    ensures s' == if item in s.items
                  then s.(items := s.items[item := s.items[item].(version := s.items[item].version + 1)]) else s
  {
  }
}

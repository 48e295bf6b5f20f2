/** The work an item can cause is bounded: a weight over unfinished tasks pays for everything they spawn. */
module WorkflowBudget {
  import opened Common
  import opened Utf16
  import opened IdemKey
  import opened TaskTable
  import opened Workflow
  import opened WorkflowKeys
  import T = Tokenize

  /** What an unfinished task of an item with `tokens` tokens can still lead to, itself included. */
  function Weight(kind: TaskType, tokens: nat): nat {
    match kind
    case Review => 11 + tokens
    case RegionTag => 6
    case Confirm => 2
    case TranslateMsa => 2
    case TranslateFr => 2
    case TranslateEn => 2
    case TransliterateToArabic => 1
    case TransliterateToArabizi => 1
    case Standardise => 1 + tokens
    case Adjudicate => 1
    case LinkLemma => 1
  }

  /** A row of another item costs nothing, a live row its weight, a finished row `finished`. */
  function Cost(t: Task, item: Id, tokens: nat, finished: nat): nat {
    if t.item != item then 0 else if Live(t) then Weight(t.kind, tokens) else finished
  }

  function Total(tasks: seq<Task>, item: Id, tokens: nat, finished: nat): nat {
    if tasks == [] then 0
    else Total(tasks[..|tasks| - 1], item, tokens, finished) + Cost(tasks[|tasks| - 1], item, tokens, finished)
  }

  function SpecsCost(specs: seq<TaskSpec>, item: Id, tokens: nat): nat {
    if specs == [] then 0
    else (if specs[0].item == item then Weight(specs[0].kind, tokens) else 0) + SpecsCost(specs[1..], item, tokens)
  }

  function CountTasks(tasks: seq<Task>, item: Id): nat {
    if tasks == [] then 0 else CountTasks(tasks[..|tasks| - 1], item) + if tasks[|tasks| - 1].item == item then 1 else 0
  }

  lemma {:induction false} CountWithinTotal(tasks: seq<Task>, item: Id, tokens: nat)
    ensures CountTasks(tasks, item) <= Total(tasks, item, tokens, 1)
  {
    if tasks != [] {
      CountWithinTotal(tasks[..|tasks| - 1], item, tokens);
    }
  }

  lemma TotalSnoc(tasks: seq<Task>, t: Task, item: Id, tokens: nat, finished: nat)
    ensures Total(tasks + [t], item, tokens, finished) ==
      Total(tasks, item, tokens, finished) + Cost(t, item, tokens, finished)
  {
    assert (tasks + [t])[..|tasks|] == tasks;
  }

  lemma {:induction false} TotalUpdate(tasks: seq<Task>, id: nat, t: Task, item: Id, tokens: nat, finished: nat)
    requires id < |tasks|
    ensures Total(tasks[id := t], item, tokens, finished) + Cost(tasks[id], item, tokens, finished)
      == Total(tasks, item, tokens, finished) + Cost(t, item, tokens, finished)
  {
    var n := |tasks| - 1;
    if id < n {
      TotalUpdate(tasks[..n], id, t, item, tokens, finished);
      assert tasks[id := t][..n] == tasks[..n][id := t];
    } else {
      assert tasks[id := t][..n] == tasks[..n];
    }
  }

  lemma {:induction false} TotalPointwise(before: seq<Task>, after: seq<Task>, item: Id, tokens: nat, finished: nat)
    requires |before| == |after|
    requires forall i | 0 <= i < |after| ::
      Cost(after[i], item, tokens, finished) <= Cost(before[i], item, tokens, finished)
    ensures Total(after, item, tokens, finished) <= Total(before, item, tokens, finished)
    ensures
      forall i | 0 <= i < |after| && Cost(after[i], item, tokens, finished) < Cost(before[i], item, tokens, finished) ::
      Total(after, item, tokens, finished) < Total(before, item, tokens, finished)
  {
    if before != [] {
      TotalPointwise(before[..|before| - 1], after[..|after| - 1], item, tokens, finished);
    }
  }

  lemma SpawnCost(tasks: seq<Task>, spec: TaskSpec, item: Id, tokens: nat, finished: nat)
    ensures Total(Spawn(tasks, spec), item, tokens, finished)
      <= Total(tasks, item, tokens, finished) + if spec.item == item then Weight(spec.kind, tokens) else 0
  {
    TotalSnoc(tasks, NewTask(spec), item, tokens, finished);
  }

  lemma {:induction false} SpawnAllCost(tasks: seq<Task>, specs: seq<TaskSpec>, item: Id, tokens: nat, finished: nat)
    ensures Total(SpawnAll(tasks, specs), item, tokens, finished)
      <= Total(tasks, item, tokens, finished) + SpecsCost(specs, item, tokens)
    decreases |specs|
  {
    if specs != [] {
      SpawnCost(tasks, specs[0], item, tokens, finished);
      SpawnAllCost(Spawn(tasks, specs[0]), specs[1..], item, tokens, finished);
    }
  }

  lemma {:induction false} UniformSpecsCost(specs: seq<TaskSpec>, item: Id, tokens: nat)
    requires forall k | 0 <= k < |specs| :: specs[k].kind == LinkLemma
    ensures SpecsCost(specs, item, tokens) <= |specs|
  {
    if specs != [] {
      UniformSpecsCost(specs[1..], item, tokens);
    }
  }

  // ----- finishing a task pays for its follow-ups -----

  function TokenCount(s: State, isWord: int -> bool, item: Id): nat
    requires item in s.items
  {
    |T.Tokens(isWord, s.items[item].text, 0)|
  }

  /** One row turns done or rejected and gives up its weight. */
  lemma FinishCost(tasks: seq<Task>, id: nat, c: Change, item: Id, tokens: nat, finished: nat)
    requires LiveKeysUnique(tasks) && id < |tasks| && Live(tasks[id]) && (c.ToDone? || c.ToRejected?)
    ensures Total(Update(tasks, id, c), item, tokens, finished) + Cost(tasks[id], item, tokens, finished)
      == Total(tasks, item, tokens, finished) + if tasks[id].item == item then finished else 0
    ensures LiveKeysUnique(Update(tasks, id, c))
  {
    TotalUpdate(tasks, id, Changed(tasks[id], c), item, tokens, finished);
  }

  lemma AdjudicateCost(tasks: seq<Task>, owner: Id, i: Workflow.Item, low: bool, item: Id, tokens: nat, finished: nat)
    requires LiveKeysUnique(tasks)
    ensures Total(MaybeAdjudicate(tasks, owner, i, low), item, tokens, finished)
      <= Total(tasks, item, tokens, finished) + if owner == item then 1 else 0
    ensures LiveKeysUnique(MaybeAdjudicate(tasks, owner, i, low))
  {
    var specs := OnConsensusLowAgreement(owner, i.version, 0, |i.text|);
    assert specs[1..] == [];
    assert SpecsCost(specs, item, tokens) == if owner == item then 1 else 0;
    SpawnAllCost(tasks, specs, item, tokens, finished);
    SpawnAllKeepsIndex(tasks, specs);
  }

  lemma SpawnOne(tasks: seq<Task>, spec: TaskSpec)
    ensures SpawnAll(tasks, [spec]) == Spawn(tasks, spec)
  {
    assert [spec][1..] == [];
  }

  /** After a follow-up its key is live, so the same follow-up asked for again spawns nothing. */
  lemma AdjudicateOnce(tasks: seq<Task>, owner: Id, i: Workflow.Item)
    requires LiveKeysUnique(tasks)
    ensures MaybeAdjudicate(MaybeAdjudicate(tasks, owner, i, true), owner, i, true) ==
      MaybeAdjudicate(tasks, owner, i, true)
  {
    var spec := OnConsensusLowAgreement(owner, i.version, 0, |i.text|)[0];
    var once := Spawn(tasks, spec);
    SpawnOne(tasks, spec);
    SpawnOne(once, spec);
    SpawnSkipsIff(tasks, spec);
    if once != tasks {
      assert Live(once[|tasks|]) && SameKey(once[|tasks|], NewTask(spec));
      SpawnSkipsIff(once, spec);
    }
  }

  lemma AdjudicateTwiceCost(tasks: seq<Task>, owner: Id, i: Workflow.Item, first: bool, second: bool, item: Id,
                            tokens: nat, finished: nat)
    requires LiveKeysUnique(tasks)
    ensures Total(MaybeAdjudicate(MaybeAdjudicate(tasks, owner, i, first), owner, i, second), item, tokens, finished)
      <= Total(tasks, item, tokens, finished) + if owner == item then 1 else 0
  {
    AdjudicateCost(tasks, owner, i, first, item, tokens, finished);
    AdjudicateCost(tasks, owner, i, second, item, tokens, finished);
    if first && second {
      AdjudicateOnce(tasks, owner, i);
    }
  }

  lemma ThreeSpecs(a: TaskSpec, b: TaskSpec, c: TaskSpec, item: Id, tokens: nat)
    ensures SpecsCost([a, b, c], item, tokens) ==
      SpecsCost([a], item, tokens) + SpecsCost([b], item, tokens) + SpecsCost([c], item, tokens)
    ensures SpecsCost([a, b], item, tokens) == SpecsCost([a], item, tokens) + SpecsCost([b], item, tokens)
  {
    assert [a, b, c][1..] == [b, c] && [b, c][1..] == [c] && [a, b][1..] == [b];
    assert [a][1..] == [] && [b][1..] == [] && [c][1..] == [];
  }

  /** The task lists before and after one call, seen from one item: no dearer, and cheaper once something finished. */
  ghost predicate Paid(before: seq<Task>, after: seq<Task>, item: Id, tokens: nat, strict: bool) {
    && Total(after, item, tokens, 1) <= Total(before, item, tokens, 1)
    && Total(after, item, tokens, 0) + (if strict then 1 else 0) <= Total(before, item, tokens, 0)
  }

  lemma ReviewPaid(s: State, isWord: int -> bool, user: User, id: nat, lowQuality: bool, lowRegion: bool, at: nat,
                   item: Id)
    requires LiveKeysUnique(s.tasks) && Holds(s, user, id) && s.tasks[id].kind == Review && item in s.items
    ensures Paid(s.tasks, Reviewed(s, user, id, lowQuality, lowRegion, at), item, TokenCount(s, isWord, item),
                 s.tasks[id].item == item)
  {
    var owner, i, tokens := s.tasks[id].item, ItemOf(s, id), TokenCount(s, isWord, item);
    var specs, done := OnReviewApproved(owner, i.version), Finish(s, user, id, at);
    ThreeSpecs(specs[0], specs[1], specs[2], item, tokens);
    assert SpecsCost(specs, item, tokens) == if owner == item then 9 + tokens else 0;
    var spawned := SpawnAll(done, specs);
    FinishCost(s.tasks, id, ToDone(user, at), item, tokens, 0);
    FinishCost(s.tasks, id, ToDone(user, at), item, tokens, 1);
    SpawnAllCost(done, specs, item, tokens, 0);
    SpawnAllCost(done, specs, item, tokens, 1);
    SpawnAllKeepsIndex(done, specs);
    AdjudicateTwiceCost(spawned, owner, i, lowQuality, lowRegion, item, tokens, 0);
    AdjudicateTwiceCost(spawned, owner, i, lowQuality, lowRegion, item, tokens, 1);
  }

  /** Finishing a task and spawning follow-ups that weigh less than it is paid for. */
  lemma FollowUpsPaid(s: State, user: User, id: nat, at: nat, specs: seq<TaskSpec>, i: Workflow.Item, low: bool,
                      item: Id, tokens: nat)
    requires LiveKeysUnique(s.tasks) && Holds(s, user, id)
    requires SpecsCost(specs, item, tokens) + (if low && s.tasks[id].item == item then 1 else 0)
      < if s.tasks[id].item == item then Weight(s.tasks[id].kind, tokens) else 1
    ensures Paid(s.tasks, MaybeAdjudicate(SpawnAll(Finish(s, user, id, at), specs), s.tasks[id].item, i, low),
                 item, tokens, s.tasks[id].item == item)
  {
    var done := Finish(s, user, id, at);
    FinishCost(s.tasks, id, ToDone(user, at), item, tokens, 0);
    FinishCost(s.tasks, id, ToDone(user, at), item, tokens, 1);
    SpawnAllCost(done, specs, item, tokens, 0);
    SpawnAllCost(done, specs, item, tokens, 1);
    SpawnAllKeepsIndex(done, specs);
    AdjudicateCost(SpawnAll(done, specs), s.tasks[id].item, i, low, item, tokens, 0);
    AdjudicateCost(SpawnAll(done, specs), s.tasks[id].item, i, low, item, tokens, 1);
  }

  // ----- every forward call -----

  /** Calls that never bring a finished task back: no rework, forced release, reassignment or ban. */
  predicate Forward(call: Call) {
    !call.RequestRework? && !call.ForceRelease? && !call.ReassignTask? && !call.BanWithRevert?
  }

  /** Some unfinished task of the item is done or rejected afterwards. */
  predicate FinishesOne(before: seq<Task>, after: seq<Task>, item: Id) {
    exists k :: 0 <= k < |before| && k < |after| && before[k].item == item && Live(before[k]) && !Live(after[k])
  }

  /** No dearer, and cheaper when a task of the item was finished. */
  ghost predicate PaidFor(before: seq<Task>, after: seq<Task>, item: Id, tokens: nat) {
    Paid(before, after, item, tokens, FinishesOne(before, after, item))
  }

  /** Rows that keep owner and kind and do not come back to life are paid for. */
  lemma RowsPaid(before: seq<Task>, after: seq<Task>, item: Id, tokens: nat)
    requires |before| == |after|
    requires forall k | 0 <= k < |before| ::
      after[k].item == before[k].item && after[k].kind == before[k].kind && (Live(after[k]) ==> Live(before[k]))
    ensures PaidFor(before, after, item, tokens)
  {
    TotalPointwise(before, after, item, tokens, 0);
    TotalPointwise(before, after, item, tokens, 1);
    if FinishesOne(before, after, item) {
      var k :| 0 <= k < |before| && before[k].item == item && Live(before[k]) && !Live(after[k]);
      assert Cost(after[k], item, tokens, 0) < Cost(before[k], item, tokens, 0);
    }
  }

  lemma UpdatePaid(tasks: seq<Task>, id: nat, c: Change, item: Id, tokens: nat)
    requires c.ToDone? || c.ToRejected? || (c.ToClaimed? && (id < |tasks| ==> Live(tasks[id])))
    ensures PaidFor(tasks, Update(tasks, id, c), item, tokens)
  {
    RowsPaid(tasks, Update(tasks, id, c), item, tokens);
  }

  lemma {:induction false} SpawnAllKeepsRows(tasks: seq<Task>, specs: seq<TaskSpec>)
    ensures tasks <= SpawnAll(tasks, specs)
    decreases |specs|
  {
    if specs != [] {
      SpawnAllKeepsRows(Spawn(tasks, specs[0]), specs[1..]);
    }
  }

  lemma FinishThenSpawnKeepsRows(s: State, user: User, id: nat, at: nat, after: seq<Task>, item: Id)
    requires id < |s.tasks| && Finish(s, user, id, at) <= after
    ensures FinishesOne(s.tasks, after, item) ==> s.tasks[id].item == item
  {
    if FinishesOne(s.tasks, after, item) {
      var k :| 0 <= k < |s.tasks| && k < |after| && s.tasks[k].item == item && Live(s.tasks[k]) && !Live(after[k]);
      assert after[k] == Finish(s, user, id, at)[k];
    }
  }

  lemma AdjudicateKeepsRows(tasks: seq<Task>, owner: Id, i: Workflow.Item, low: bool)
    ensures tasks <= MaybeAdjudicate(tasks, owner, i, low)
  {
    SpawnAllKeepsRows(tasks, OnConsensusLowAgreement(owner, i.version, 0, |i.text|));
  }

  lemma {:induction false} OtherSpecsCost(specs: seq<TaskSpec>, item: Id, tokens: nat)
    requires forall k | 0 <= k < |specs| :: specs[k].item != item
    ensures SpecsCost(specs, item, tokens) == 0
  {
    if specs != [] {
      OtherSpecsCost(specs[1..], item, tokens);
    }
  }

  /** A completing call whose follow-ups weigh less than its task, in the form that the service calls have. */
  lemma CompletionPaid(s: State, user: User, id: nat, at: nat, specs: seq<TaskSpec>, low: bool, item: Id, tokens: nat)
    requires LiveKeysUnique(s.tasks) && Holds(s, user, id)
    requires forall k | 0 <= k < |specs| :: specs[k].item == s.tasks[id].item
    requires s.tasks[id].item == item ==>
      SpecsCost(specs, item, tokens) + (if low then 1 else 0) < Weight(s.tasks[id].kind, tokens)
    ensures var after := Followed(s, user, id, at, specs, low);
      PaidFor(s.tasks, after, item, tokens)
  {
    var done := Finish(s, user, id, at);
    if s.tasks[id].item != item {
      OtherSpecsCost(specs, item, tokens);
    }
    FollowUpsPaid(s, user, id, at, specs, ItemOf(s, id), low, item, tokens);
    SpawnAllKeepsRows(done, specs);
    AdjudicateKeepsRows(SpawnAll(done, specs), s.tasks[id].item, ItemOf(s, id), low);
    FinishThenSpawnKeepsRows(s, user, id, at,
      MaybeAdjudicate(SpawnAll(done, specs), s.tasks[id].item, ItemOf(s, id), low), item);
  }

  lemma ReviewCallPaid(s: State, isWord: int -> bool, user: User, id: nat, lowQuality: bool, lowRegion: bool, at: nat,
                       item: Id, after: seq<Task>)
    requires LiveKeysUnique(s.tasks) && item in s.items && Holds(s, user, id) && s.tasks[id].kind == Review
    requires after == Reviewed(s, user, id, lowQuality, lowRegion, at)
    ensures PaidFor(s.tasks, after, item, TokenCount(s, isWord, item))
  {
    var done, owner, i := Finish(s, user, id, at), s.tasks[id].item, ItemOf(s, id);
    var spawned := SpawnAll(done, OnReviewApproved(owner, i.version));
    ReviewPaid(s, isWord, user, id, lowQuality, lowRegion, at, item);
    SpawnAllKeepsRows(done, OnReviewApproved(owner, i.version));
    AdjudicateKeepsRows(spawned, owner, i, lowQuality);
    AdjudicateKeepsRows(MaybeAdjudicate(spawned, owner, i, lowQuality), owner, i, lowRegion);
    FinishThenSpawnKeepsRows(s, user, id, at, after, item);
  }

  lemma StandardiseCallPaid(s: State, isWord: int -> bool, user: User, id: nat, at: nat, item: Id, after: seq<Task>)
    requires LiveKeysUnique(s.tasks) && item in s.items && Holds(s, user, id) && s.tasks[id].kind == Standardise
    requires after == SpawnAll(Finish(s, user, id, at), LinkTasks(s, isWord, id))
    ensures PaidFor(s.tasks, after, item, TokenCount(s, isWord, item))
  {
    var specs := LinkSpecs(s, isWord, id, item);
    LinkTasksPaid(s, user, id, at, specs, item, TokenCount(s, isWord, item), after);
  }

  lemma LinkTasksPaid(s: State, user: User, id: nat, at: nat, specs: seq<TaskSpec>, item: Id, tokens: nat,
                      after: seq<Task>)
    requires LiveKeysUnique(s.tasks) && Holds(s, user, id) && s.tasks[id].kind == Standardise
    requires forall k | 0 <= k < |specs| :: specs[k].item == s.tasks[id].item
    requires s.tasks[id].item == item ==> SpecsCost(specs, item, tokens) <= tokens
    requires after == SpawnAll(Finish(s, user, id, at), specs)
    ensures PaidFor(s.tasks, after, item, tokens)
  {
    CompletionPaid(s, user, id, at, specs, false, item, tokens);
  }

  /** The link tasks of an item weigh one each. */
  lemma LinkSpecs(s: State, isWord: int -> bool, id: nat, item: Id) returns (specs: seq<TaskSpec>)
    requires id < |s.tasks| && s.tasks[id].item in s.items && item in s.items
    ensures specs == LinkTasks(s, isWord, id)
    ensures forall k | 0 <= k < |specs| :: specs[k].item == s.tasks[id].item
    ensures s.tasks[id].item == item ==>
      SpecsCost(specs, item, TokenCount(s, isWord, item)) <= TokenCount(s, isWord, item)
  {
    specs := LinkTasks(s, isWord, id);
    UniformSpecsCost(specs, item, TokenCount(s, isWord, item));
  }

  lemma RegionTagPaid(s: State, user: User, id: nat, low: bool, at: nat, item: Id, tokens: nat)
    requires LiveKeysUnique(s.tasks) && Holds(s, user, id) && s.tasks[id].kind == RegionTag
    ensures var after := Followed(s, user, id, at, OnRegionTagDone(s.tasks[id].item, ItemOf(s, id).version), low);
      PaidFor(s.tasks, after, item, tokens)
  {
    var specs := OnRegionTagDone(s.tasks[id].item, ItemOf(s, id).version);
    ThreeSpecs(specs[0], specs[1], specs[1], item, tokens);
    CompletionPaid(s, user, id, at, specs, low, item, tokens);
  }

  lemma TranslationPaid(s: State, user: User, id: nat, at: nat, item: Id, tokens: nat)
    requires LiveKeysUnique(s.tasks) && Holds(s, user, id) && IsTranslation(s.tasks[id].kind)
    ensures var specs := OnTranslationAdded(s.tasks[id].item, ItemOf(s, id).version, ItemOf(s, id).script);
      var after := Followed(s, user, id, at, specs, false);
      PaidFor(s.tasks, after, item, tokens)
  {
    var specs := OnTranslationAdded(s.tasks[id].item, ItemOf(s, id).version, ItemOf(s, id).script);
    assert specs == [] || specs[1..] == [];
    CompletionPaid(s, user, id, at, specs, false, item, tokens);
  }

  lemma FollowUpCallPaid(s: State, isWord: int -> bool, call: Call, item: Id, tokens: nat, after: seq<Task>)
    requires LiveKeysUnique(s.tasks) && (call.DoRegionTag? || call.DoConfirm? || call.DoTranslate?)
    requires after == TasksSpawned(s, isWord, call) && after != s.tasks
    ensures PaidFor(s.tasks, after, item, tokens)
  {
    match call
    case DoRegionTag(user, id, low, at) => RegionTagPaid(s, user, id, low, at, item, tokens);
    case DoConfirm(user, id, low, at) => CompletionPaid(s, user, id, at, [], low, item, tokens);
    case DoTranslate(user, id, at) => TranslationPaid(s, user, id, at, item, tokens);
  }

  /** An edit that brings no finished row back. */
  predicate GentleEdit(tasks: seq<Task>, edit: Option<Edit>) {
    edit.Some? && edit.value.id < |tasks| ==>
      edit.value.change.ToDone? || edit.value.change.ToRejected? || Live(tasks[edit.value.id])
  }

  lemma EditPaid(tasks: seq<Task>, edit: Option<Edit>, item: Id, tokens: nat)
    requires GentleEdit(tasks, edit)
    ensures PaidFor(tasks, Edited(tasks, edit), item, tokens)
  {
    RowsPaid(tasks, Edited(tasks, edit), item, tokens);
  }

  lemma BulkPaid(s: State, call: Call, item: Id, tokens: nat)
    requires call.ExpireClaims? || call.RejectBatch?
    ensures var after := Commit(s.tasks, RowsAfter(s, call));
      PaidFor(s.tasks, after, item, tokens)
  {
    RowsPaid(s.tasks, Commit(s.tasks, RowsAfter(s, call)), item, tokens);
  }

  lemma IngestCallPaid(s: State, owner: Id, item: Id, tokens: nat, after: seq<Task>)
    requires item in s.items && owner !in s.items
    requires after == SpawnAll(s.tasks, OnCorpusItemIngested(owner, INITIAL_ITEM_VERSION))
    ensures PaidFor(s.tasks, after, item, tokens)
  {
    var specs := OnCorpusItemIngested(owner, INITIAL_ITEM_VERSION);
    OtherSpecsCost(specs, item, tokens);
    SpawnAllCost(s.tasks, specs, item, tokens, 0);
    SpawnAllCost(s.tasks, specs, item, tokens, 1);
    SpawnAllKeepsRows(s.tasks, specs);
  }

  lemma SpawningCallPaid(s: State, isWord: int -> bool, call: Call, item: Id, tokens: nat, after: seq<Task>)
    requires LiveKeysUnique(s.tasks) && item in s.items && tokens == TokenCount(s, isWord, item)
    requires IsSpawning(call) && after == TasksSpawned(s, isWord, call) && after != s.tasks
    ensures PaidFor(s.tasks, after, item, tokens)
  {
    match call
    case Ingest(owner, _, _) => IngestCallPaid(s, owner, item, tokens, after);
    case DoReview(user, id, approved, lowQuality, lowRegion, at) =>
      if approved {
        ReviewCallPaid(s, isWord, user, id, lowQuality, lowRegion, at, item, after);
      } else {
        UpdatePaid(s.tasks, id, ToRejected, item, tokens);
      }
    case DoStandardise(user, id, at) => StandardiseCallPaid(s, isWord, user, id, at, item, after);
    case _ => FollowUpCallPaid(s, isWord, call, item, tokens, after);
  }

  /** No forward call costs an item anything, and every finished task of the item brings its weight down. */
  lemma CallPaid(s: State, isWord: int -> bool, call: Call, item: Id, tokens: nat, after: seq<Task>)
    requires LiveKeysUnique(s.tasks) && item in s.items && tokens == TokenCount(s, isWord, item)
    requires Forward(call) && after == TasksAfter(s, isWord, call)
    ensures PaidFor(s.tasks, after, item, tokens)
  {
    if after == s.tasks {
      RowsPaid(s.tasks, after, item, tokens);
    } else if IsSpawning(call) {
      SpawningCallPaid(s, isWord, call, item, tokens, after);
    } else if IsBulk(call) {
      BulkPaid(s, call, item, tokens);
    } else {
      EditPaid(s.tasks, EditOf(s, call), item, tokens);
    }
  }

  // ----- calls that bring finished tasks back -----

  /** The weight of the item's rows below `n` that were finished before and are live again afterwards. */
  function RevivedBelow(before: seq<Task>, after: seq<Task>, item: Id, tokens: nat, n: nat): nat {
    if n == 0 then 0 else
    var k := n - 1;
    RevivedBelow(before, after, item, tokens, k)
    + if k < |before| && k < |after| && before[k].item == item && !Live(before[k]) && Live(after[k])
      then Weight(before[k].kind, tokens) else 0
  }

  function Revived(before: seq<Task>, after: seq<Task>, item: Id, tokens: nat): nat {
    RevivedBelow(before, after, item, tokens, |before|)
  }

  /** As `Paid`, but rows that come back to life may bring their weight back. */
  ghost predicate PaidUp(before: seq<Task>, after: seq<Task>, item: Id, tokens: nat, strict: bool) {
    var back := Revived(before, after, item, tokens);
    && Total(after, item, tokens, 1) <= Total(before, item, tokens, 1) + back
    && Total(after, item, tokens, 0) + (if strict then 1 else 0) <= Total(before, item, tokens, 0) + back
  }

  /** Owner and kind of every row stay. */
  predicate KeepsKinds(before: seq<Task>, after: seq<Task>) {
    && |after| == |before|
    && forall k | 0 <= k < |before| :: after[k].item == before[k].item && after[k].kind == before[k].kind
  }

  /** The rows afterwards, but finished rows stay finished. */
  function WithoutRevivals(before: seq<Task>, after: seq<Task>): (mid: seq<Task>)
    requires |after| == |before|
    ensures |mid| == |before|
    ensures forall k | 0 <= k < |mid| :: mid[k] == if !Live(before[k]) && Live(after[k]) then before[k] else after[k]
  {
    seq(|before|, k requires 0 <= k < |before| => if !Live(before[k]) && Live(after[k]) then before[k] else after[k])
  }

  lemma RowRevivalCost(t: Task, u: Task, item: Id, tokens: nat, finished: nat)
    requires u.item == t.item && u.kind == t.kind
    ensures var back := if t.item == item then Weight(t.kind, tokens) else 0;
      !Live(t) && Live(u) ==> Cost(u, item, tokens, finished) <= Cost(t, item, tokens, finished) + back
  {
  }

  lemma {:induction false} RevivalCost(
      before: seq<Task>, after: seq<Task>, mid: seq<Task>, item: Id, tokens: nat, finished: nat, n: nat)
    requires KeepsKinds(before, after) && mid == WithoutRevivals(before, after) && n <= |before|
    ensures Total(after[..n], item, tokens, finished)
      <= Total(mid[..n], item, tokens, finished) + RevivedBelow(before, after, item, tokens, n)
    decreases n
  {
    if n > 0 {
      RevivalCost(before, after, mid, item, tokens, finished, n - 1);
      RowRevivalCost(before[n - 1], after[n - 1], item, tokens, finished);
      assert after[..n][..n - 1] == after[..n - 1] && mid[..n][..n - 1] == mid[..n - 1];
    }
  }

  lemma RowsPaidUp(before: seq<Task>, after: seq<Task>, item: Id, tokens: nat)
    requires KeepsKinds(before, after)
    ensures PaidUp(before, after, item, tokens, FinishesOne(before, after, item))
  {
    var mid := WithoutRevivals(before, after);
    RowsPaid(before, mid, item, tokens);
    if FinishesOne(before, after, item) {
      var k :| 0 <= k < |before| && before[k].item == item && Live(before[k]) && !Live(after[k]);
      assert !Live(mid[k]);
    }
    RevivalCost(before, after, mid, item, tokens, 0, |before|);
    RevivalCost(before, after, mid, item, tokens, 1, |before|);
    assert after[..|before|] == after && mid[..|before|] == mid;
  }

  lemma EditKeepsKinds(tasks: seq<Task>, edit: Option<Edit>)
    ensures KeepsKinds(tasks, Edited(tasks, edit))
  {
  }

  lemma BackwardKeepsKinds(s: State, isWord: int -> bool, call: Call)
    requires !Forward(call)
    ensures KeepsKinds(s.tasks, TasksAfter(s, isWord, call))
  {
    EditKeepsKinds(s.tasks, EditOf(s, call));
    BulkKeepsCoordinates(s, call);
    CommitKeepsKinds(s.tasks, RowsAfter(s, call));
  }

  lemma CommitKeepsKinds(tasks: seq<Task>, changed: seq<Task>)
    requires AllSameCoordinates(changed, tasks)
    ensures KeepsKinds(tasks, Commit(tasks, changed))
  {
  }

  lemma PaidIsPaidUp(before: seq<Task>, after: seq<Task>, item: Id, tokens: nat, strict: bool)
    requires Paid(before, after, item, tokens, strict)
    ensures PaidUp(before, after, item, tokens, strict)
  {
  }

  /** Whatever the call, an item's weight rises at most by that of the rows brought back, and falls by each finished. */
  lemma AnyCallPaid(s: State, isWord: int -> bool, call: Call, item: Id)
    requires LiveKeysUnique(s.tasks) && item in s.items
    ensures PaidUp(s.tasks, TasksAfter(s, isWord, call), item, TokenCount(s, isWord, item),
                   FinishesOne(s.tasks, TasksAfter(s, isWord, call), item))
  {
    var after, tokens := TasksAfter(s, isWord, call), TokenCount(s, isWord, item);
    if Forward(call) {
      CallPaid(s, isWord, call, item, tokens, after);
      PaidIsPaidUp(s.tasks, after, item, tokens, FinishesOne(s.tasks, after, item));
    } else {
      BackwardKeepsKinds(s, isWord, call);
      RowsPaidUp(s.tasks, after, item, tokens);
    }
  }

  // ----- calls that bring nothing back -----

  predicate NoneRevived(before: seq<Task>, after: seq<Task>) {
    forall k | 0 <= k < |before| && k < |after| :: Live(after[k]) ==> Live(before[k])
  }

  /** What a caller can check: rework, release and reassignment of unfinished rows, a ban without completions. */
  predicate Gentle(s: State, call: Call) {
    match call
    case RequestRework(id) => id < |s.tasks| ==> Live(s.tasks[id])
    case ForceRelease(id) => id < |s.tasks| ==> Live(s.tasks[id])
    case ReassignTask(id, _, _) => id < |s.tasks| ==> Live(s.tasks[id])
    case BanWithRevert(user) => CompletedBy(s.tasks, user) == {}
    case _ => true
  }

  lemma {:induction false} NoneRevivedMeansZero(before: seq<Task>, after: seq<Task>, item: Id, tokens: nat, n: nat)
    requires NoneRevived(before, after)
    ensures RevivedBelow(before, after, item, tokens, n) == 0
  {
    if n > 0 {
      NoneRevivedMeansZero(before, after, item, tokens, n - 1);
    }
  }

  lemma MoreRowsReviveNothing(before: seq<Task>, mid: seq<Task>, after: seq<Task>)
    requires NoneRevived(before, mid) && |before| <= |mid| && mid <= after
    ensures NoneRevived(before, after)
  {
  }

  lemma UpdateRevivesNothing(tasks: seq<Task>, id: nat, c: Change)
    requires c.ToDone? || c.ToRejected? || (id < |tasks| ==> Live(tasks[id]))
    ensures NoneRevived(tasks, Update(tasks, id, c)) && |Update(tasks, id, c)| == |tasks|
  {
  }

  /** A completing call keeps the rows that the completion leaves, and may add some. */
  lemma CompletionRevivesNothing(s: State, user: User, id: nat, at: nat, specs: seq<TaskSpec>, after: seq<Task>)
    requires SpawnAll(Finish(s, user, id, at), specs) <= after
    ensures NoneRevived(s.tasks, after)
  {
    UpdateRevivesNothing(s.tasks, id, ToDone(user, at));
    SpawnAllKeepsRows(Finish(s, user, id, at), specs);
    MoreRowsReviveNothing(s.tasks, Finish(s, user, id, at), after);
  }

  lemma ReviewRevivesNothing(s: State, user: User, id: nat, lowQuality: bool, lowRegion: bool, at: nat)
    requires Holds(s, user, id)
    ensures NoneRevived(s.tasks, Reviewed(s, user, id, lowQuality, lowRegion, at))
  {
    var owner, i := s.tasks[id].item, ItemOf(s, id);
    var specs := OnReviewApproved(owner, i.version);
    var spawned := SpawnAll(Finish(s, user, id, at), specs);
    AdjudicateKeepsRows(spawned, owner, i, lowQuality);
    AdjudicateKeepsRows(MaybeAdjudicate(spawned, owner, i, lowQuality), owner, i, lowRegion);
    CompletionRevivesNothing(s, user, id, at, specs, Reviewed(s, user, id, lowQuality, lowRegion, at));
  }

  predicate Completes(call: Call) { call.DoRegionTag? || call.DoConfirm? || call.DoTranslate? }

  /** Completion, follow-ups, and perhaps an adjudication. */
  lemma FollowUpsReviveNothing(s: State, user: User, id: nat, at: nat, specs: seq<TaskSpec>, low: bool)
    requires Holds(s, user, id)
    ensures NoneRevived(s.tasks, SpawnAll(Finish(s, user, id, at), specs))
    ensures NoneRevived(s.tasks, Followed(s, user, id, at, specs, low))
  {
    var spawned := SpawnAll(Finish(s, user, id, at), specs);
    AdjudicateKeepsRows(spawned, s.tasks[id].item, ItemOf(s, id), low);
    CompletionRevivesNothing(s, user, id, at, specs, spawned);
    CompletionRevivesNothing(s, user, id, at, specs, Followed(s, user, id, at, specs, low));
  }

  lemma CompletingCallRevivesNothing(s: State, isWord: int -> bool, call: Call)
    requires Completes(call)
    ensures NoneRevived(s.tasks, TasksAfter(s, isWord, call))
  {
    if Holds(s, call.user, call.id) {
      var owner, i := s.tasks[call.id].item, ItemOf(s, call.id);
      match call
      case DoRegionTag(user, id, low, at) =>
        FollowUpsReviveNothing(s, user, id, at, OnRegionTagDone(owner, i.version), low);
      case DoConfirm(user, id, low, at) => FollowUpsReviveNothing(s, user, id, at, [], low);
      case DoTranslate(user, id, at) =>
        FollowUpsReviveNothing(s, user, id, at, OnTranslationAdded(owner, i.version, i.script), false);
    }
  }

  lemma StandardiseRevivesNothing(s: State, isWord: int -> bool, user: User, id: nat, at: nat)
    requires Holds(s, user, id)
    ensures NoneRevived(s.tasks, SpawnAll(Finish(s, user, id, at), LinkTasks(s, isWord, id)))
  {
    var specs := LinkTasks(s, isWord, id);
    CompletionRevivesNothing(s, user, id, at, specs, SpawnAll(Finish(s, user, id, at), specs));
  }

  lemma GentleEditRevivesNothing(tasks: seq<Task>, edit: Option<Edit>)
    requires GentleEdit(tasks, edit)
    ensures NoneRevived(tasks, Edited(tasks, edit))
  {
    if edit.Some? {
      UpdateRevivesNothing(tasks, edit.value.id, edit.value.change);
    }
  }

  lemma GentleBulkRevivesNothing(s: State, call: Call)
    requires Gentle(s, call) && IsBulk(call)
    ensures NoneRevived(s.tasks, Commit(s.tasks, RowsAfter(s, call)))
  {
  }

  lemma StandardiseCallRevivesNothing(s: State, isWord: int -> bool, call: Call)
    requires call.DoStandardise?
    ensures NoneRevived(s.tasks, TasksAfter(s, isWord, call))
  {
    if Holds(s, call.user, call.id) {
      StandardiseRevivesNothing(s, isWord, call.user, call.id, call.at);
    }
  }

  lemma ReviewCallRevivesNothing(s: State, isWord: int -> bool, call: Call)
    requires call.DoReview?
    ensures NoneRevived(s.tasks, TasksAfter(s, isWord, call))
  {
    if Holds(s, call.user, call.id) {
      ReviewRevivesNothing(s, call.user, call.id, call.lowQuality, call.lowRegion, call.at);
      UpdateRevivesNothing(s.tasks, call.id, ToRejected);
    }
  }

  lemma RowsCallRevivesNothing(s: State, isWord: int -> bool, call: Call)
    requires Gentle(s, call) && !call.Ingest? && !call.DoReview? && !call.DoStandardise? && !Completes(call)
    ensures NoneRevived(s.tasks, TasksAfter(s, isWord, call))
  {
    GentleEditRevivesNothing(s.tasks, EditOf(s, call));
    if IsBulk(call) {
      GentleBulkRevivesNothing(s, call);
    }
  }

  lemma GentleRevivesNothing(s: State, isWord: int -> bool, call: Call, after: seq<Task>)
    requires Gentle(s, call) && after == TasksAfter(s, isWord, call)
    ensures NoneRevived(s.tasks, after)
  {
    if call.Ingest? {
      SpawnAllKeepsRows(s.tasks, OnCorpusItemIngested(call.item, INITIAL_ITEM_VERSION));
      MoreRowsReviveNothing(s.tasks, s.tasks, after);
    } else if call.DoReview? {
      ReviewCallRevivesNothing(s, isWord, call);
    } else if call.DoStandardise? {
      StandardiseCallRevivesNothing(s, isWord, call);
    } else if Completes(call) {
      CompletingCallRevivesNothing(s, isWord, call);
    } else {
      RowsCallRevivesNothing(s, isWord, call);
    }
  }

  // ----- whole runs -----

  /** How many calls of the run finish a task of the item. */
  function Finishings(s: State, isWord: int -> bool, calls: seq<Call>, item: Id): nat
    decreases |calls|
  {
    if calls == [] then 0 else
    var s' := Apply(s, isWord, calls[0]);
    (if FinishesOne(s.tasks, s'.tasks, item) then 1 else 0) + Finishings(s', isWord, calls[1..], item)
  }

  /** The weight of all rows of the item that calls of the run bring back to life, once for each time. */
  function Revivals(s: State, isWord: int -> bool, calls: seq<Call>, item: Id, tokens: nat): nat
    decreases |calls|
  {
    if calls == [] then 0 else
    var s' := Apply(s, isWord, calls[0]);
    Revived(s.tasks, s'.tasks, item, tokens) + Revivals(s', isWord, calls[1..], item, tokens)
  }

  ghost predicate AlwaysGentle(s: State, isWord: int -> bool, calls: seq<Call>)
    decreases |calls|
  {
    calls == [] || (Gentle(s, calls[0]) && AlwaysGentle(Apply(s, isWord, calls[0]), isWord, calls[1..]))
  }

  /** Runs whose calls leave finished tasks alone have no revivals. */
  lemma {:induction false} GentleRunsReviveNothing(
      s: State, isWord: int -> bool, calls: seq<Call>, item: Id, tokens: nat)
    requires AlwaysGentle(s, isWord, calls)
    ensures Revivals(s, isWord, calls, item, tokens) == 0
    decreases |calls|
  {
    if calls != [] {
      var s' := Apply(s, isWord, calls[0]);
      GentleRevivesNothing(s, isWord, calls[0], s'.tasks);
      NoneRevivedMeansZero(s.tasks, s'.tasks, item, tokens, |s.tasks|);
      GentleRunsReviveNothing(s', isWord, calls[1..], item, tokens);
    }
  }

  /** An item stays, and its text never changes. */
  lemma TextStays(s: State, isWord: int -> bool, call: Call, item: Id)
    requires item in s.items
    ensures item in Apply(s, isWord, call).items && Apply(s, isWord, call).items[item].text == s.items[item].text
  {
  }

  lemma {:induction false} RunPaid(s: State, isWord: int -> bool, calls: seq<Call>, item: Id, tokens: nat)
    requires Inv(s) && item in s.items && tokens == TokenCount(s, isWord, item)
    ensures var end, back := Run(s, isWord, calls).tasks, Revivals(s, isWord, calls, item, tokens);
      && Total(end, item, tokens, 1) <= Total(s.tasks, item, tokens, 1) + back
      && Finishings(s, isWord, calls, item) + Total(end, item, tokens, 0) <= Total(s.tasks, item, tokens, 0) + back
    decreases |calls|
  {
    if calls != [] {
      AnyCallPaid(s, isWord, calls[0], item);
      CallKeepsInv(s, isWord, calls[0]);
      TextStays(s, isWord, calls[0], item);
      RunPaid(Apply(s, isWord, calls[0]), isWord, calls[1..], item, tokens);
    }
  }

  lemma {:induction false} UnknownItemCostsNothing(tasks: seq<Task>, items: map<Id, Workflow.Item>,
                                                   tokens': seq<Token>, item: Id, tokens: nat, finished: nat)
    requires AllKnown(tasks, items, tokens') && item !in items
    ensures Total(tasks, item, tokens, finished) == 0
  {
    if tasks != [] {
      assert forall k | 0 <= k < |tasks| - 1 :: tasks[..|tasks| - 1][k] == tasks[k];
      assert Known(tasks[|tasks| - 1], items, tokens');
      UnknownItemCostsNothing(tasks[..|tasks| - 1], items, tokens', item, tokens, finished);
    }
  }

  /**
   * The workflow of an item ends: over any run after its ingestion, an item whose text has T tokens has at most
   * 11 + T tasks, and at most 11 + T calls finish one of them, plus the weight of the tasks that calls bring back.
   */
  lemma ItemWorkIsBounded(s: State, isWord: int -> bool, item: Id, text: Text, script: Script, calls: seq<Call>)
    requires Inv(s) && item !in s.items
    ensures var s1, tokens := Apply(s, isWord, Ingest(item, text, script)), |T.Tokens(isWord, text, 0)|;
      var bound := 11 + tokens + Revivals(s1, isWord, calls, item, tokens);
      CountTasks(Run(s1, isWord, calls).tasks, item) <= bound && Finishings(s1, isWord, calls, item) <= bound
  {
    var s1 := Apply(s, isWord, Ingest(item, text, script));
    var tokens, specs := |T.Tokens(isWord, text, 0)|, OnCorpusItemIngested(item, INITIAL_ITEM_VERSION);
    CallKeepsInv(s, isWord, Ingest(item, text, script));
    assert specs[1..] == [];
    assert SpecsCost(specs, item, tokens) == 11 + tokens;
    SpawnAllCost(s.tasks, specs, item, tokens, 0);
    SpawnAllCost(s.tasks, specs, item, tokens, 1);
    UnknownItemCostsNothing(s.tasks, s.items, s.tokens, item, tokens, 0);
    UnknownItemCostsNothing(s.tasks, s.items, s.tokens, item, tokens, 1);
    RunPaid(s1, isWord, calls, item, tokens);
    CountWithinTotal(Run(s1, isWord, calls).tasks, item, tokens);
  }
}

/** What every reachable state keeps about versions, keys and tokens, and what standardising an item spawns. */
module WorkflowKeys {
  import opened Common
  import opened Utf16
  import opened IdemKey
  import opened TaskTable
  import opened Workflow
  import T = Tokenize

  /** Who may claim a task. */
  function RoleOf(kind: TaskType): Role {
    match kind
    case Review => Reviewer
    case Standardise => Reviewer
    case LinkLemma => Reviewer
    case Adjudicate => Reviewer
    case _ => Contributor
  }

  /** The item exists, is at least at the task's version, and has the token that a link task is about. */
  predicate Known(t: Task, items: map<Id, Item>, tokens: seq<Token>) {
    && t.item in items && t.version <= items[t.item].version && t.role == RoleOf(t.kind)
    && (t.kind == LinkLemma ==> HasToken(tokens, t))
  }

  predicate AllKnown(tasks: seq<Task>, items: map<Id, Item>, tokens: seq<Token>) {
    forall k | 0 <= k < |tasks| :: Known(tasks[k], items, tokens)
  }

  predicate Inv(s: State) { LiveKeysUnique(s.tasks) && AllKnown(s.tasks, s.items, s.tokens) }

  /** Items only gain versions and tokens only accumulate. */
  predicate Grows(items: map<Id, Item>, tokens: seq<Token>, items': map<Id, Item>, tokens': seq<Token>) {
    && tokens <= tokens'
    && forall i | i in items :: i in items' && items[i].version <= items'[i].version
  }

  lemma KnownGrows(tasks: seq<Task>, items: map<Id, Item>, tokens: seq<Token>, items': map<Id, Item>,
                   tokens': seq<Token>)
    requires AllKnown(tasks, items, tokens) && Grows(items, tokens, items', tokens')
    ensures AllKnown(tasks, items', tokens')
  {
    forall k | 0 <= k < |tasks| ensures Known(tasks[k], items', tokens') {
      var t := tasks[k];
      assert Known(t, items, tokens);
      if t.kind == LinkLemma {
        var m :| 0 <= m < |tokens| && TokenAt(tokens[m], t.item, ParseSpanSlot(t.slot));
        assert tokens'[m] == tokens[m];
      }
    }
  }

  /** A version bump with any number of new tokens grows. */
  lemma BumpGrows(items: map<Id, Item>, tokens: seq<Token>, item: Id, more: seq<Token>)
    requires item in items
    ensures Grows(items, tokens, items[item := items[item].(version := items[item].version + 1)], tokens + more)
  {
  }

  predicate SameCoordinates(s: Task, t: Task) {
    s.item == t.item && s.kind == t.kind && s.version == t.version && s.slot == t.slot && s.role == t.role
  }

  predicate AllSameCoordinates(s: seq<Task>, t: seq<Task>) {
    |s| == |t| && forall k | 0 <= k < |s| :: SameCoordinates(s[k], t[k])
  }

  /** A statement that leaves the coordinates of every row alone keeps the invariant. */
  lemma RowsKeepInv(s: State, changed: seq<Task>)
    requires Inv(s) && AllSameCoordinates(changed, s.tasks)
    ensures Inv(s.(tasks := Commit(s.tasks, changed)))
  {
    forall k | 0 <= k < |changed| ensures Known(changed[k], s.items, s.tokens) {
      assert SameCoordinates(changed[k], s.tasks[k]) && Known(s.tasks[k], s.items, s.tokens);
      assert HasToken(s.tokens, changed[k]) == HasToken(s.tokens, s.tasks[k]);
    }
  }

  lemma SpawnKeepsKnown(tasks: seq<Task>, spec: TaskSpec, items: map<Id, Item>, tokens: seq<Token>)
    requires AllKnown(tasks, items, tokens) && Known(NewTask(spec), items, tokens)
    ensures AllKnown(Spawn(tasks, spec), items, tokens)
  {
  }

  lemma {:induction false} SpawnAllKeepsKnown(tasks: seq<Task>, specs: seq<TaskSpec>, items: map<Id, Item>,
                                              tokens: seq<Token>)
    requires AllKnown(tasks, items, tokens)
    requires forall k | 0 <= k < |specs| :: Known(NewTask(specs[k]), items, tokens)
    ensures AllKnown(SpawnAll(tasks, specs), items, tokens)
    decreases |specs|
  {
    if specs != [] {
      SpawnKeepsKnown(tasks, specs[0], items, tokens);
      SpawnAllKeepsKnown(Spawn(tasks, specs[0]), specs[1..], items, tokens);
    }
  }

  lemma {:induction false} SpawnAllKeepsIndex(tasks: seq<Task>, specs: seq<TaskSpec>)
    requires LiveKeysUnique(tasks)
    ensures LiveKeysUnique(SpawnAll(tasks, specs))
    decreases |specs|
  {
    if specs != [] {
      SpawnAllKeepsIndex(Spawn(tasks, specs[0]), specs[1..]);
    }
  }

  /** Tasks for known items at no later version than theirs, none of them a link task. */
  predicate Timely(s: State, specs: seq<TaskSpec>) {
    forall k | 0 <= k < |specs| ::
      && specs[k].item in s.items && specs[k].version <= s.items[specs[k].item].version
      && specs[k].kind != LinkLemma && specs[k].role == RoleOf(specs[k].kind)
  }

  /** Spawning for the current version of an item keeps the invariant. */
  lemma SpawnForItem(s: State, tasks: seq<Task>, specs: seq<TaskSpec>)
    requires LiveKeysUnique(tasks) && AllKnown(tasks, s.items, s.tokens)
    requires Timely(s, specs)
    ensures Inv(s.(tasks := SpawnAll(tasks, specs)))
  {
    SpawnAllKeepsKnown(tasks, specs, s.items, s.tokens);
    SpawnAllKeepsIndex(tasks, specs);
  }

  lemma UpdateKeepsInv(s: State, id: nat, c: Change)
    requires Inv(s)
    ensures Inv(s.(tasks := Update(s.tasks, id, c)))
  {
  }

  lemma AdjudicateKeepsInv(s: State, tasks: seq<Task>, item: Id, i: Item, low: bool)
    requires Inv(s.(tasks := tasks)) && item in s.items && i == s.items[item]
    ensures Inv(s.(tasks := MaybeAdjudicate(tasks, item, i, low)))
  {
    SpawnForItem(s, tasks, OnConsensusLowAgreement(item, i.version, 0, |i.text|));
  }

  lemma ReviewTasksTimely(s: State, item: Id, i: Item)
    requires item in s.items && i == s.items[item]
    ensures Timely(s, OnReviewApproved(item, i.version))
  {
  }

  lemma ReviewKeepsInv(s: State, user: User, id: nat, lowQuality: bool, lowRegion: bool, at: nat)
    requires Inv(s) && Holds(s, user, id)
    ensures Inv(s.(tasks := Reviewed(s, user, id, lowQuality, lowRegion, at)))
  {
    var item, i, done := s.tasks[id].item, ItemOf(s, id), Finish(s, user, id, at);
    var specs := OnReviewApproved(item, i.version);
    ReviewTasksTimely(s, item, i);
    UpdateKeepsInv(s, id, ToDone(user, at));
    ThreeSpawnsKeepInv(s, done, item, i, specs, lowQuality, lowRegion);
  }

  lemma ThreeSpawnsKeepInv(s: State, tasks: seq<Task>, item: Id, i: Item, specs: seq<TaskSpec>, lowQuality: bool,
                           lowRegion: bool)
    requires Inv(s.(tasks := tasks)) && item in s.items && i == s.items[item] && Timely(s, specs)
    ensures Inv(s.(tasks :=
      MaybeAdjudicate(MaybeAdjudicate(SpawnAll(tasks, specs), item, i, lowQuality), item, i, lowRegion)))
  {
    var spawned := SpawnAll(tasks, specs);
    SpawnForItem(s, tasks, specs);
    AdjudicateKeepsInv(s, spawned, item, i, lowQuality);
    AdjudicateKeepsInv(s, MaybeAdjudicate(spawned, item, i, lowQuality), item, i, lowRegion);
  }

  // ----- standardising -----

  /** No live row has the key of a spec, and no two specs share a key. */
  ghost predicate FreshKeys(tasks: seq<Task>, specs: seq<TaskSpec>) {
    && (forall k, m | 0 <= k < |specs| && 0 <= m < |tasks| && Live(tasks[m]) :: !SameKey(tasks[m], NewTask(specs[k])))
    && (forall k, l | 0 <= k < l < |specs| :: !SameKey(NewTask(specs[k]), NewTask(specs[l])))
  }

  lemma {:induction false} FreshKeysAllSpawn(tasks: seq<Task>, specs: seq<TaskSpec>)
    requires LiveKeysUnique(tasks) && FreshKeys(tasks, specs)
    ensures SpawnAll(tasks, specs) == tasks + NewTasks(specs)
    decreases |specs|
  {
    if specs == [] {
      assert tasks + NewTasks(specs) == tasks;
    } else {
      FreshKeySpawns(tasks, specs);
      FreshKeysAllSpawn(Spawn(tasks, specs[0]), specs[1..]);
      NewTasksSplit(tasks, specs);
    }
  }

  lemma NewTasksSplit(tasks: seq<Task>, specs: seq<TaskSpec>)
    requires specs != []
    ensures tasks + NewTasks(specs) == (tasks + [NewTask(specs[0])]) + NewTasks(specs[1..])
  {
  }

  lemma FreshKeySpawns(tasks: seq<Task>, specs: seq<TaskSpec>)
    requires LiveKeysUnique(tasks) && FreshKeys(tasks, specs) && specs != []
    ensures var grown := Spawn(tasks, specs[0]);
      grown == tasks + [NewTask(specs[0])] && LiveKeysUnique(grown) && FreshKeys(grown, specs[1..])
  {
    SpawnSkipsIff(tasks, specs[0]);
    var grown, rest := tasks + [NewTask(specs[0])], specs[1..];
    forall k, m | 0 <= k < |rest| && 0 <= m < |grown| && Live(grown[m]) ensures !SameKey(grown[m], NewTask(rest[k])) {
      assert rest[k] == specs[k + 1];
      if m < |tasks| {
        assert grown[m] == tasks[m];
      }
    }
    assert forall k | 0 <= k < |rest| :: rest[k] == specs[k + 1];
  }

  lemma FinishingNeverFails(tasks: seq<Task>, id: nat, user: User, at: nat)
    requires LiveKeysUnique(tasks) && id < |tasks|
    ensures Update(tasks, id, ToDone(user, at)) == tasks[id := Changed(tasks[id], ToDone(user, at))]
  {
  }

  lemma LinkKeysFresh(tasks: seq<Task>, items: map<Id, Item>, tokens: seq<Token>, isWord: int -> bool, item: Id)
    requires AllKnown(tasks, items, tokens) && item in items
    ensures FreshKeys(tasks,
      OnCorpusItemStandardised(item, items[item].version + 1, T.Tokens(isWord, items[item].text, 0)))
  {
    var version, spans := items[item].version + 1, T.Tokens(isWord, items[item].text, 0);
    var specs := OnCorpusItemStandardised(item, version, spans);
    T.TokensAreWords(isWord, items[item].text);
    forall k, m | 0 <= k < |specs| && 0 <= m < |tasks| && Live(tasks[m]) ensures !SameKey(tasks[m], NewTask(specs[k])) {
      var t := tasks[m];
      assert Known(t, items, tokens);
      if SameKey(t, NewTask(specs[k])) {
        KeyTextInjective(t.item, t.kind, t.version, t.slot, item, LinkLemma, version, specs[k].slot);
      }
    }
    forall k, l | 0 <= k < l < |specs| ensures !SameKey(NewTask(specs[k]), NewTask(specs[l])) {
      assert spans[k].charStart < spans[k].charEnd < spans[l].charStart;
      ParseUndoesSpanSlot(spans[k].charStart, spans[k].charEnd);
      ParseUndoesSpanSlot(spans[l].charStart, spans[l].charEnd);
      if SameKey(NewTask(specs[k]), NewTask(specs[l])) {
        KeyTextInjective(item, LinkLemma, version, specs[k].slot, item, LinkLemma, version, specs[l].slot);
      }
    }
  }

  lemma StandardiseApplies(s: State, isWord: int -> bool, user: User, id: nat, at: nat)
    requires Holds(s, user, id) && s.tasks[id].kind == Standardise
    ensures Apply(s, isWord, DoStandardise(user, id, at)) == Standardised(s, isWord, user, id, at)
  {
  }

  /** Standardising spawns exactly one link task per token of the text, at the bumped version, and skips none. */
  lemma StandardiseSpawnsOnePerToken(s: State, isWord: int -> bool, user: User, id: nat, at: nat, s': State)
    requires Inv(s) && Holds(s, user, id) && s.tasks[id].kind == Standardise
    requires s' == Apply(s, isWord, DoStandardise(user, id, at))
    ensures var item := s.tasks[id].item;
      var version, spans := s.items[item].version + 1, T.Tokens(isWord, s.items[item].text, 0);
      && s'.tasks == s.tasks[id := Changed(s.tasks[id], ToDone(user, at))]
                     + NewTasks(OnCorpusItemStandardised(item, version, spans))
      && s'.items == s.items[item := s.items[item].(version := version)]
      && s'.tokens == s.tokens + TokenRows(item, spans)
  {
    StandardiseApplies(s, isWord, user, id, at);
    StandardisedIs(s, isWord, user, id, at, s');
  }

  lemma StandardisedIs(s: State, isWord: int -> bool, user: User, id: nat, at: nat, s': State)
    requires Inv(s) && Holds(s, user, id) && s' == Standardised(s, isWord, user, id, at)
    ensures s'.tasks == s.tasks[id := Changed(s.tasks[id], ToDone(user, at))] + NewTasks(LinkTasks(s, isWord, id))
    ensures var item := s.tasks[id].item;
      && s'.items == s.items[item := s.items[item].(version := s.items[item].version + 1)]
      && s'.tokens == s.tokens + TokenRows(item, T.Tokens(isWord, s.items[item].text, 0))
  {
    LinksAllSpawn(s, isWord, user, id, at, LinkTasks(s, isWord, id));
  }

  lemma LinksAllSpawn(s: State, isWord: int -> bool, user: User, id: nat, at: nat, specs: seq<TaskSpec>)
    requires Inv(s) && Holds(s, user, id) && specs == LinkTasks(s, isWord, id)
    ensures SpawnAll(Finish(s, user, id, at), specs)
         == s.tasks[id := Changed(s.tasks[id], ToDone(user, at))] + NewTasks(specs)
  {
    UpdateKeepsInv(s, id, ToDone(user, at));
    LinkKeysFresh(Finish(s, user, id, at), s.items, s.tokens, isWord, s.tasks[id].item);
    FreshKeysAllSpawn(Finish(s, user, id, at), specs);
    FinishingNeverFails(s.tasks, id, user, at);
  }

  lemma LinkTaskKnown(item: Id, version: nat, spans: seq<T.TokenSpan>, items: map<Id, Item>, tokens: seq<Token>, k: nat)
    requires k < |spans| && item in items && version <= items[item].version
    ensures Known(NewTask(OnCorpusItemStandardised(item, version, spans)[k]), items, tokens + TokenRows(item, spans))
  {
    ParseUndoesSpanSlot(spans[k].charStart, spans[k].charEnd);
    var t, all := NewTask(OnCorpusItemStandardised(item, version, spans)[k]), tokens + TokenRows(item, spans);
    assert TokenAt(all[|tokens| + k], t.item, ParseSpanSlot(t.slot));
  }

  lemma LinkTasksKnown(tasks: seq<Task>, item: Id, version: nat, spans: seq<T.TokenSpan>, items: map<Id, Item>,
                       tokens: seq<Token>)
    requires AllKnown(tasks, items, tokens + TokenRows(item, spans)) && item in items && version <= items[item].version
    ensures AllKnown(SpawnAll(tasks, OnCorpusItemStandardised(item, version, spans)), items,
                     tokens + TokenRows(item, spans))
  {
    var specs, tokens' := OnCorpusItemStandardised(item, version, spans), tokens + TokenRows(item, spans);
    forall k | 0 <= k < |specs| ensures Known(NewTask(specs[k]), items, tokens') {
      LinkTaskKnown(item, version, spans, items, tokens, k);
    }
    SpawnAllKeepsKnown(tasks, specs, items, tokens');
  }

  lemma SpawnLinks(s: State, item: Id, spans: seq<T.TokenSpan>, specs: seq<TaskSpec>, s': State)
    requires Inv(s) && item in s.items && specs == OnCorpusItemStandardised(item, s.items[item].version + 1, spans)
    requires s'.items == Bumped(s.items, item) && s'.tokens == s.tokens + TokenRows(item, spans)
    requires s'.tasks == SpawnAll(s.tasks, specs)
    ensures Inv(s')
  {
    BumpGrows(s.items, s.tokens, item, TokenRows(item, spans));
    KnownGrows(s.tasks, s.items, s.tokens, s'.items, s'.tokens);
    LinkTasksKnown(s.tasks, item, s.items[item].version + 1, spans, s'.items, s.tokens);
    SpawnAllKeepsIndex(s.tasks, specs);
  }

  lemma StandardiseKeepsInv(s: State, isWord: int -> bool, user: User, id: nat, at: nat, s': State)
    requires Inv(s) && Holds(s, user, id) && s' == Standardised(s, isWord, user, id, at)
    ensures Inv(s')
  {
    var done := s.(tasks := Finish(s, user, id, at));
    UpdateKeepsInv(s, id, ToDone(user, at));
    SpawnLinks(done, s.tasks[id].item, T.Tokens(isWord, ItemOf(s, id).text, 0), LinkTasks(s, isWord, id), s');
  }

  // ----- every reachable state -----

  lemma IngestKeepsInv(s: State, isWord: int -> bool, call: Call)
    requires Inv(s) && call.Ingest?
    ensures Inv(Apply(s, isWord, call))
  {
    if call.item !in s.items {
      var s1 := s.(items := ItemsAfter(s, call));
      KnownGrows(s.tasks, s.items, s.tokens, s1.items, s1.tokens);
      SpawnForItem(s1, s.tasks, OnCorpusItemIngested(call.item, INITIAL_ITEM_VERSION));
    }
  }

  lemma FollowedKeepsInv(s: State, user: User, id: nat, at: nat, specs: seq<TaskSpec>, low: bool)
    requires Inv(s) && Holds(s, user, id) && Timely(s, specs)
    ensures Inv(s.(tasks := Followed(s, user, id, at, specs, low)))
  {
    var item, done := s.tasks[id].item, s.(tasks := Finish(s, user, id, at));
    UpdateKeepsInv(s, id, ToDone(user, at));
    SpawnForItem(done, done.tasks, specs);
    AdjudicateKeepsInv(s, SpawnAll(done.tasks, specs), item, ItemOf(s, id), low);
  }

  lemma FollowUpsKeepInv(s: State, isWord: int -> bool, call: Call, after: seq<Task>)
    requires Inv(s) && (call.DoRegionTag? || call.DoConfirm? || call.DoTranslate?)
    requires after == TasksSpawned(s, isWord, call)
    ensures Inv(s.(tasks := after))
  {
    if after != s.tasks {
      FollowedKeepsInv(s, call.user, call.id, call.at, FollowUps(s, call), Low(call));
    }
  }

  /** What the call spawns besides an adjudication. */
  function FollowUps(s: State, call: Call): (specs: seq<TaskSpec>)
    requires (call.DoRegionTag? || call.DoConfirm? || call.DoTranslate?) && Holds(s, call.user, call.id)
    ensures Timely(s, specs)
  {
    var item, i := s.tasks[call.id].item, ItemOf(s, call.id);
    match call
    case DoRegionTag(_, _, _, _) => OnRegionTagDone(item, i.version)
    case DoTranslate(_, _, _) => OnTranslationAdded(item, i.version, i.script)
    case _ => []
  }

  predicate Low(call: Call) { (call.DoRegionTag? || call.DoConfirm?) && call.low }

  lemma ReviewCallKeepsInv(s: State, isWord: int -> bool, call: Call, after: seq<Task>)
    requires Inv(s) && call.DoReview? && after == TasksSpawned(s, isWord, call)
    ensures Inv(s.(tasks := after))
  {
    if after != s.tasks {
      if call.approved {
        ReviewKeepsInv(s, call.user, call.id, call.lowQuality, call.lowRegion, call.at);
      } else {
        UpdateKeepsInv(s, call.id, ToRejected);
      }
    }
  }

  lemma StandardiseCallKeepsInv(s: State, isWord: int -> bool, call: Call)
    requires Inv(s) && call.DoStandardise?
    ensures Inv(Apply(s, isWord, call))
  {
    if Standardises(s, call) {
      StandardiseApplies(s, isWord, call.user, call.id, call.at);
      StandardiseKeepsInv(s, isWord, call.user, call.id, call.at, Apply(s, isWord, call));
    } else {
      assert Apply(s, isWord, call) == s;
    }
  }

  /** A call that leaves items and tokens alone. */
  lemma OnlyTasksChange(s: State, isWord: int -> bool, call: Call)
    requires !call.Ingest? && !call.DoStandardise? && !call.ReassignRegion?
    ensures Apply(s, isWord, call) == s.(tasks := TasksAfter(s, isWord, call))
  {
  }

  lemma ReleaseKeepsCoordinates(tasks: seq<Task>, now: nat)
    ensures AllSameCoordinates(ReleaseExpired(tasks, now), tasks)
  {
  }

  lemma RefuseKeepsCoordinates(tasks: seq<Task>, items: set<Id>)
    ensures AllSameCoordinates(RefuseItems(tasks, items), tasks)
  {
  }

  lemma RevertKeepsCoordinates(tasks: seq<Task>, ids: set<nat>)
    ensures AllSameCoordinates(Revert(tasks, ids), tasks)
  {
  }

  lemma BulkKeepsCoordinates(s: State, call: Call)
    ensures AllSameCoordinates(RowsAfter(s, call), s.tasks)
  {
    match call
    case ExpireClaims(now) => ReleaseKeepsCoordinates(s.tasks, now);
    case RejectBatch(items) => RefuseKeepsCoordinates(s.tasks, items);
    case BanWithRevert(user) => RevertKeepsCoordinates(s.tasks, CompletedBy(s.tasks, user));
    case _ =>
  }

  lemma BulkKeepsInv(s: State, call: Call, after: seq<Task>)
    requires Inv(s) && after == RowsAfter(s, call)
    ensures Inv(s.(tasks := Commit(s.tasks, after)))
  {
    BulkKeepsCoordinates(s, call);
    RowsKeepInv(s, after);
  }

  lemma ReassignRegionKeepsInv(s: State, isWord: int -> bool, item: Id)
    requires Inv(s)
    ensures Inv(Apply(s, isWord, ReassignRegion(item)))
  {
    if item in s.items {
      var items' := s.items[item := s.items[item].(version := s.items[item].version + 1)];
      BumpGrows(s.items, s.tokens, item, []);
      assert s.tokens + [] == s.tokens;
      KnownGrows(s.tasks, s.items, s.tokens, items', s.tokens);
    }
  }

  lemma EditKeepsInv(s: State, edit: Option<Edit>)
    requires Inv(s)
    ensures Inv(s.(tasks := Edited(s.tasks, edit)))
  {
    if edit.Some? {
      UpdateKeepsInv(s, edit.value.id, edit.value.change);
    }
  }

  lemma TaskCallKeepsInv(s: State, isWord: int -> bool, call: Call)
    requires Inv(s) && !call.Ingest? && !call.DoStandardise? && !call.ReassignRegion?
    ensures Inv(s.(tasks := TasksAfter(s, isWord, call)))
  {
    if call.DoReview? {
      ReviewCallKeepsInv(s, isWord, call, TasksSpawned(s, isWord, call));
    } else if IsSpawning(call) {
      FollowUpsKeepInv(s, isWord, call, TasksSpawned(s, isWord, call));
    } else if IsBulk(call) {
      BulkKeepsInv(s, call, RowsAfter(s, call));
    } else {
      EditKeepsInv(s, EditOf(s, call));
    }
  }

  lemma CallKeepsInv(s: State, isWord: int -> bool, call: Call)
    requires Inv(s)
    ensures Inv(Apply(s, isWord, call))
  {
    match call
    case Ingest(_, _, _) => IngestKeepsInv(s, isWord, call);
    case DoStandardise(_, _, _) => StandardiseCallKeepsInv(s, isWord, call);
    case ReassignRegion(item) => ReassignRegionKeepsInv(s, isWord, item);
    case _ =>
      TaskCallKeepsInv(s, isWord, call);
      OnlyTasksChange(s, isWord, call);
  }

  lemma {:induction false} ReachableKeepsInv(s: State, isWord: int -> bool, calls: seq<Call>)
    requires Inv(s)
    ensures Inv(Run(s, isWord, calls))
    decreases |calls|
  {
    if calls != [] {
      CallKeepsInv(s, isWord, calls[0]);
      ReachableKeepsInv(Apply(s, isWord, calls[0]), isWord, calls[1..]);
    }
  }

  /** In every reachable state a link task finds the token at its span: the call never fails for want of one. */
  lemma LinkTaskFindsToken(isWord: int -> bool, calls: seq<Call>, id: nat)
    requires id < |Run(EMPTY, isWord, calls).tasks| && Run(EMPTY, isWord, calls).tasks[id].kind == LinkLemma
    ensures HasToken(Run(EMPTY, isWord, calls).tokens, Run(EMPTY, isWord, calls).tasks[id])
  {
    ReachableKeepsInv(EMPTY, isWord, calls);
    var s := Run(EMPTY, isWord, calls);
    assert Known(s.tasks[id], s.items, s.tokens);
  }
}

/** The service calls of the annotation workflow and the tasks they spawn, each call atomic. */
module Workflow {
  import opened Common
  import opened Utf16
  import opened IdemKey
  import opened TaskTable
  import T = Tokenize

  datatype Script = Arabic | Arabizi | OtherScript
  datatype Item = Item(text: Text, script: Script, version: nat)
  datatype Token = Token(item: Id, charStart: nat, charEnd: nat, surfaceText: Text)
  datatype State = State(tasks: seq<Task>, items: map<Id, Item>, tokens: seq<Token>)

  const INITIAL_ITEM_VERSION := 1

  // ----- spawn rules -----

  function OnCorpusItemIngested(item: Id, version: nat): seq<TaskSpec> {
    [TaskSpec(item, Review, version, EMPTY_SLOT, Reviewer)]
  }

  function OnReviewApproved(item: Id, version: nat): seq<TaskSpec> {
    [ TaskSpec(item, RegionTag, version, EMPTY_SLOT, Contributor),
      TaskSpec(item, TranslateMsa, version, EMPTY_SLOT, Contributor),
      TaskSpec(item, Standardise, version, EMPTY_SLOT, Reviewer) ]
  }

  function OnRegionTagDone(item: Id, version: nat): seq<TaskSpec> {
    [TaskSpec(item, Confirm, version, OrdinalSlot(1), Contributor),
     TaskSpec(item, Confirm, version, OrdinalSlot(2), Contributor)]
  }

  function OnTranslationAdded(item: Id, version: nat, script: Script): seq<TaskSpec> {
    match script
    case Arabizi => [TaskSpec(item, TransliterateToArabic, version, EMPTY_SLOT, Contributor)]
    case Arabic => [TaskSpec(item, TransliterateToArabizi, version, EMPTY_SLOT, Contributor)]
    case OtherScript => []
  }

  function OnConsensusLowAgreement(item: Id, version: nat, charStart: nat, charEnd: nat): seq<TaskSpec> {
    [TaskSpec(item, Adjudicate, version, SpanSlot(charStart, charEnd), Reviewer)]
  }

  function OnCorpusItemStandardised(item: Id, version: nat, spans: seq<T.TokenSpan>): (specs: seq<TaskSpec>)
    ensures |specs| == |spans|
    ensures forall k | 0 <= k < |spans| ::
      specs[k] == TaskSpec(item, LinkLemma, version, SpanSlot(spans[k].charStart, spans[k].charEnd), Reviewer)
  {
    seq(|spans|, k requires 0 <= k < |spans| =>
      TaskSpec(item, LinkLemma, version, SpanSlot(spans[k].charStart, spans[k].charEnd), Reviewer))
  }

  function TokenRows(item: Id, spans: seq<T.TokenSpan>): (rows: seq<Token>)
    ensures |rows| == |spans|
    ensures forall k | 0 <= k < |spans| ::
      rows[k] == Token(item, spans[k].charStart, spans[k].charEnd, spans[k].surfaceText)
  {
    seq(|spans|, k requires 0 <= k < |spans| =>
      Token(item, spans[k].charStart, spans[k].charEnd, spans[k].surfaceText))
  }

  // ----- service calls -----

  datatype Call =
    | Ingest(item: Id, text: Text, script: Script)
    | ClaimTask(params: ClaimParams, id: nat, at: nat)
    | ExpireClaims(now: nat)
    | CompleteOnly(user: User, id: nat, at: nat)
    | DoReview(user: User, id: nat, approved: bool, lowQuality: bool, lowRegion: bool, at: nat)
    | DoRegionTag(user: User, id: nat, low: bool, at: nat)
    | DoConfirm(user: User, id: nat, low: bool, at: nat)
    | DoTranslate(user: User, id: nat, at: nat)
    | DoTransliterate(user: User, id: nat, at: nat)
    | DoStandardise(user: User, id: nat, at: nat)
    | DoLinkLemma(user: User, id: nat, at: nat)
    | DoAdjudicate(user: User, id: nat, at: nat)
    | RejectTask(id: nat)
    | RejectBatch(items: set<Id>)
    | RequestRework(id: nat)
    | ForceRelease(id: nat)
    | ReassignTask(id: nat, user: User, at: nat)
    | BanWithRevert(user: User)
    | ReassignRegion(item: Id)

  /** The guard every completing call starts with, and the item it reads next. */
  predicate Holds(s: State, user: User, id: nat) {
    id < |s.tasks| && HeldBy(s.tasks[id], user) && s.tasks[id].item in s.items
  }

  function Finish(s: State, user: User, id: nat, at: nat): seq<Task> { Update(s.tasks, id, ToDone(user, at)) }

  function ItemOf(s: State, id: nat): Item
    requires id < |s.tasks| && s.tasks[id].item in s.items
  {
    s.items[s.tasks[id].item]
  }

  /** The low-agreement follow-up on the whole text of an item; `low` is the verdict of the consensus refresh. */
  function MaybeAdjudicate(tasks: seq<Task>, item: Id, i: Item, low: bool): seq<Task> {
    if low then SpawnAll(tasks, OnConsensusLowAgreement(item, i.version, 0, |i.text|)) else tasks
  }

  function Reviewed(s: State, user: User, id: nat, lowQuality: bool, lowRegion: bool, at: nat): seq<Task>
    requires Holds(s, user, id)
  {
    var item, i := s.tasks[id].item, ItemOf(s, id);
    var spawned := SpawnAll(Finish(s, user, id, at), OnReviewApproved(item, i.version));
    MaybeAdjudicate(MaybeAdjudicate(spawned, item, i, lowQuality), item, i, lowRegion)
  }

  /** One link task for each token of the item's text, at the next version. */
  function LinkTasks(s: State, isWord: int -> bool, id: nat): seq<TaskSpec>
    requires id < |s.tasks| && s.tasks[id].item in s.items
  {
    OnCorpusItemStandardised(s.tasks[id].item, ItemOf(s, id).version + 1, T.Tokens(isWord, ItemOf(s, id).text, 0))
  }

  function Bumped(items: map<Id, Item>, item: Id): map<Id, Item> {
    if item in items then items[item := items[item].(version := items[item].version + 1)] else items
  }

  function Standardised(s: State, isWord: int -> bool, user: User, id: nat, at: nat): State
    requires Holds(s, user, id)
  {
    var item, i := s.tasks[id].item, ItemOf(s, id);
    var spans := T.Tokens(isWord, i.text, 0);
    State(
      SpawnAll(Finish(s, user, id, at), LinkTasks(s, isWord, id)),
      Bumped(s.items, item),
      s.tokens + TokenRows(item, spans))
  }

  predicate IsTranslation(kind: TaskType) { kind == TranslateMsa || kind == TranslateFr || kind == TranslateEn }

  predicate IsTransliteration(kind: TaskType) { kind == TransliterateToArabic || kind == TransliterateToArabizi }

  predicate TokenAt(token: Token, item: Id, span: SlotSpan) {
    token.item == item && span == SlotSpan(Some(token.charStart), Some(token.charEnd))
  }

  /** `findFirst` on the token table for the span in the task's slot. */
  predicate HasToken(tokens: seq<Token>, t: Task) {
    exists k :: 0 <= k < |tokens| && TokenAt(tokens[k], t.item, ParseSpanSlot(t.slot))
  }

  /** Completion, follow-up tasks, and the adjudication of a low agreement. */
  function Followed(s: State, user: User, id: nat, at: nat, specs: seq<TaskSpec>, low: bool): seq<Task>
    requires Holds(s, user, id)
  {
    MaybeAdjudicate(SpawnAll(Finish(s, user, id, at), specs), s.tasks[id].item, ItemOf(s, id), low)
  }

  /** What a call that is about one row does to it, if anything. */
  function EditOf(s: State, call: Call): Option<Edit> {
    match call
    case ClaimTask(p, id, at) =>
      if CountClaims(s.tasks, p.user) < MAX_CONCURRENT_CLAIMS && id < |s.tasks| && Eligible(s.tasks[id], p)
      then Some(Edit(id, ToClaimed(p.user, at))) else None
    case CompleteOnly(user, id, at) => if Holds(s, user, id) then Some(Edit(id, ToDone(user, at))) else None
    case DoTransliterate(user, id, at) =>
      if Holds(s, user, id) && IsTransliteration(s.tasks[id].kind) then Some(Edit(id, ToDone(user, at))) else None
    case DoLinkLemma(user, id, at) =>
      if Holds(s, user, id) && s.tasks[id].kind == LinkLemma && HasToken(s.tokens, s.tasks[id])
      then Some(Edit(id, ToDone(user, at))) else None
    case DoAdjudicate(user, id, at) =>
      if Holds(s, user, id) && s.tasks[id].kind == Adjudicate then Some(Edit(id, ToDone(user, at))) else None
    case RejectTask(id) => Some(Edit(id, ToRejected))
    case RequestRework(id) => Some(Edit(id, ToNeedsRework))
    case ForceRelease(id) => Some(Edit(id, ToOpen))
    case ReassignTask(id, user, at) => Some(Edit(id, ToClaimed(user, at)))
    case _ => None
  }

  /** What a call that is about many rows makes of them. */
  function RowsAfter(s: State, call: Call): seq<Task> {
    match call
    case ExpireClaims(now) => ReleaseExpired(s.tasks, now)
    case RejectBatch(items) => RefuseItems(s.tasks, items)
    case BanWithRevert(user) => Revert(s.tasks, CompletedBy(s.tasks, user))
    case _ => s.tasks
  }

  predicate IsBulk(call: Call) { call.ExpireClaims? || call.RejectBatch? || call.BanWithRevert? }

  /** Calls that spawn tasks. */
  predicate IsSpawning(call: Call) {
    call.Ingest? || call.DoReview? || call.DoRegionTag? || call.DoConfirm? || call.DoTranslate? || call.DoStandardise?
  }

  /** The task table after them. */
  function TasksSpawned(s: State, isWord: int -> bool, call: Call): seq<Task> {
    match call
    case Ingest(item, _, _) =>
      if item in s.items then s.tasks else SpawnAll(s.tasks, OnCorpusItemIngested(item, INITIAL_ITEM_VERSION))
    case DoReview(user, id, approved, lowQuality, lowRegion, at) =>
      if !Holds(s, user, id) || s.tasks[id].kind != Review then s.tasks
      else if !approved then Update(s.tasks, id, ToRejected)
      else Reviewed(s, user, id, lowQuality, lowRegion, at)
    case DoRegionTag(user, id, low, at) =>
      if !Holds(s, user, id) || s.tasks[id].kind != RegionTag then s.tasks
      else Followed(s, user, id, at, OnRegionTagDone(s.tasks[id].item, ItemOf(s, id).version), low)
    case DoConfirm(user, id, low, at) =>
      if !Holds(s, user, id) || s.tasks[id].kind != Confirm then s.tasks else Followed(s, user, id, at, [], low)
    case DoTranslate(user, id, at) =>
      if !Holds(s, user, id) || !IsTranslation(s.tasks[id].kind) then s.tasks
      else
        var specs := OnTranslationAdded(s.tasks[id].item, ItemOf(s, id).version, ItemOf(s, id).script);
        Followed(s, user, id, at, specs, false)
    case DoStandardise(user, id, at) =>
      if !Standardises(s, call) then s.tasks else SpawnAll(Finish(s, user, id, at), LinkTasks(s, isWord, id))
    case _ => s.tasks
  }

  predicate Standardises(s: State, call: Call) {
    call.DoStandardise? && Holds(s, call.user, call.id) && s.tasks[call.id].kind == Standardise
  }

  function TasksAfter(s: State, isWord: int -> bool, call: Call): seq<Task> {
    if IsSpawning(call) then TasksSpawned(s, isWord, call)
    else if IsBulk(call) then Commit(s.tasks, RowsAfter(s, call))
    else Edited(s.tasks, EditOf(s, call))
  }

  function ItemsAfter(s: State, call: Call): map<Id, Item> {
    match call
    case Ingest(item, text, script) =>
      if item in s.items then s.items else s.items[item := Item(text, script, INITIAL_ITEM_VERSION)]
    case DoStandardise(_, id, _) => if Standardises(s, call) then Bumped(s.items, s.tasks[id].item) else s.items
    case ReassignRegion(item) => Bumped(s.items, item)
    case _ => s.items
  }

  function TokensAfter(s: State, isWord: int -> bool, call: Call): seq<Token> {
    if !Standardises(s, call) then s.tokens
    else s.tokens + TokenRows(s.tasks[call.id].item, T.Tokens(isWord, ItemOf(s, call.id).text, 0))
  }

  /** A refused or failing call changes nothing. */
  function Apply(s: State, isWord: int -> bool, call: Call): State {
    State(TasksAfter(s, isWord, call), ItemsAfter(s, call), TokensAfter(s, isWord, call))
  }

  function Run(s: State, isWord: int -> bool, calls: seq<Call>): State
    decreases |calls|
  {
    if calls == [] then s else Run(Apply(s, isWord, calls[0]), isWord, calls[1..])
  }

  const EMPTY := State([], map[], [])
}

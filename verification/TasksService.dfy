/** The service object: every call runs its statements in sequence and ends in the state that `Workflow.Apply` gives. */
module TasksService {
  import opened Common
  import opened Utf16
  import opened IdemKey
  import opened TaskTable
  import opened Workflow
  import T = Tokenize

  class Service {
    const store: TaskStore
    const isWord: int -> bool
    var items: map<Id, Workflow.Item>
    var tokens: seq<Token>

    ghost function Snapshot(): State
      reads this, store
    {
      State(store.tasks, items, tokens)
    }

    constructor (isWord: int -> bool)
      ensures fresh(store) && Snapshot() == EMPTY && this.isWord == isWord
    {
      this.isWord := isWord;
      store := new TaskStore();
      items, tokens := map[], [];
    }

    method AssertClaimedByUser(user: User, id: nat) returns (ok: bool)
      ensures ok == Holds(Snapshot(), user, id)
    {
      ok := id < |store.tasks| && HeldBy(store.tasks[id], user) && store.tasks[id].item in items;
    }

    method Claim(p: ClaimParams, at: nat) returns (claimed: Option<nat>)
      requires LiveKeysUnique(store.tasks)
      modifies store
      ensures claimed == None <==>
        || CountClaims(old(store.tasks), p.user) >= MAX_CONCURRENT_CLAIMS
        || forall j | 0 <= j < |old(store.tasks)| :: !Eligible(old(store.tasks)[j], p)
      ensures claimed == None ==> Snapshot() == old(Snapshot())
      ensures claimed.Some? ==> IsNext(old(store.tasks), p, claimed.value)
      ensures claimed.Some? ==> Snapshot() == Apply(old(Snapshot()), isWord, ClaimTask(p, claimed.value, at))
    {
      claimed := store.ClaimNextTask(p, at);
    }

    method MaybeAdjudicateItem(item: Id, low: bool)
      requires item in items
      modifies store
      ensures store.tasks == MaybeAdjudicate(old(store.tasks), item, items[item], low)
    {
      if low {
        var spawned, skipped :=
          store.SpawnTasks(OnConsensusLowAgreement(item, items[item].version, 0, |items[item].text|));
      }
    }

    method Review(user: User, id: nat, approved: bool, lowQuality: bool, lowRegion: bool, at: nat)
      modifies store
      ensures Snapshot() == Apply(old(Snapshot()), isWord, DoReview(user, id, approved, lowQuality, lowRegion, at))
    {
      var ok := AssertClaimedByUser(user, id);
      if !ok || store.tasks[id].kind != TaskType.Review {
        return;
      }
      var item := store.tasks[id].item;
      if !approved {
        var rejected := store.UpdateRow(id, ToRejected);
        return;
      }
      var done := store.UpdateRow(id, ToDone(user, at));
      var spawned, skipped := store.SpawnTasks(OnReviewApproved(item, items[item].version));
      MaybeAdjudicateItem(item, lowQuality);
      MaybeAdjudicateItem(item, lowRegion);
    }

    /** One token row per span, in order. */
    method AddTokens(item: Id, spans: seq<T.TokenSpan>)
      modifies this`tokens
      ensures tokens == old(tokens) + TokenRows(item, spans)
    {
      for k := 0 to |spans|
        invariant tokens == old(tokens) + TokenRows(item, spans)[..k]
      {
        tokens := tokens + [Token(item, spans[k].charStart, spans[k].charEnd, spans[k].surfaceText)];
        assert TokenRows(item, spans)[..k + 1] == TokenRows(item, spans)[..k] + [TokenRows(item, spans)[k]];
      }
      assert TokenRows(item, spans)[..|spans|] == TokenRows(item, spans);
    }

    /** The transaction of `standardise`: version bump, tokens, completion. */
    method SaveStandardised(user: User, id: nat, at: nat, item: Id, spans: seq<T.TokenSpan>)
      requires item in items
      modifies this`items, this`tokens, store
      ensures items == Bumped(old(items), item)
      ensures tokens == old(tokens) + TokenRows(item, spans)
      ensures store.tasks == Update(old(store.tasks), id, ToDone(user, at))
    {
      items := items[item := items[item].(version := items[item].version + 1)];
      AddTokens(item, spans);
      var done := store.UpdateRow(id, ToDone(user, at));
    }

    method TokenSpans(text: Text) returns (spans: seq<T.TokenSpan>)
      ensures spans == T.Tokens(isWord, text, 0)
    {
      spans := T.Tokenize(isWord, text);
    }

    /** The rest of `standardise` once the claim and the type are checked. */
    method StandardiseHeld(user: User, id: nat, at: nat)
      requires Holds(Snapshot(), user, id)
      modifies this`items, this`tokens, store
      ensures Snapshot() == Standardised(old(Snapshot()), isWord, user, id, at)
    {
      var item := store.tasks[id].item;
      var spans := TokenSpans(items[item].text);
      SaveStandardised(user, id, at, item, spans);
      var specs := OnCorpusItemStandardised(item, items[item].version, spans);
      assert specs == LinkTasks(old(Snapshot()), isWord, id);
      var spawned, skipped := store.SpawnTasks(specs);
    }

    method Standardise(user: User, id: nat, at: nat)
      modifies this`items, this`tokens, store
      ensures Snapshot() == Apply(old(Snapshot()), isWord, DoStandardise(user, id, at))
    {
      var ok := AssertClaimedByUser(user, id);
      if ok && store.tasks[id].kind == TaskType.Standardise {
        StandardiseHeld(user, id, at);
      }
    }

    method FindToken(item: Id, span: SlotSpan) returns (found: bool)
      ensures found <==> exists k :: 0 <= k < |tokens| && TokenAt(tokens[k], item, span)
    {
      found := false;
      for k := 0 to |tokens|
        invariant found <==> exists j :: 0 <= j < k && TokenAt(tokens[j], item, span)
      {
        if TokenAt(tokens[k], item, span) {
          found := true;
        }
      }
    }

    method LinkLemma(user: User, id: nat, at: nat)
      modifies store
      ensures Snapshot() == Apply(old(Snapshot()), isWord, DoLinkLemma(user, id, at))
    {
      var ok := AssertClaimedByUser(user, id);
      if !ok || store.tasks[id].kind != TaskType.LinkLemma {
        return;
      }
      var found := FindToken(store.tasks[id].item, ParseSpanSlot(store.tasks[id].slot));
      if found {
        var done := store.UpdateRow(id, ToDone(user, at));
      }
    }
  }
}

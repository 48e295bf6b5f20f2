/** Task calls interleaved in any order, with the check and the write of a call as separate steps. */
module TaskRuns {
  import opened Common
  import opened IdemKey
  import opened TaskTable

  /** The table, the claim calls that have counted but not yet claimed, and the completions checked but not written. */
  datatype Engine = Engine(tasks: seq<Task>, counted: multiset<User>, checked: multiset<(User, nat)>)

  datatype Step =
    | Create(spec: TaskSpec)
    | CountForClaim(user: User)
    | ClaimRow(params: ClaimParams, id: nat, at: nat)
    | Expire(now: nat)
    | CheckClaim(user: User, id: nat)
    | WriteDone(user: User, id: nat, at: nat)
    | CompleteAtOnce(user: User, id: nat, at: nat)
    | Rework(id: nat)
    | Reject(id: nat)
    | ForceRelease(id: nat)
    | Reassign(id: nat, user: User, at: nat)
    | RevertRows(ids: set<nat>)
    | RejectBatch(items: set<Id>)

  predicate ClaimGuard(tasks: seq<Task>, user: User, id: nat) { id < |tasks| && HeldBy(tasks[id], user) }

  /** What a step that is about one row does to it, if it is enabled. */
  function EditOf(e: Engine, step: Step): Option<Edit> {
    match step
    case ClaimRow(p, id, at) =>
      if p.user in e.counted && id < |e.tasks| && Eligible(e.tasks[id], p) then Some(Edit(id, ToClaimed(p.user, at)))
      else None
    case WriteDone(user, id, at) => if (user, id) in e.checked then Some(Edit(id, ToDone(user, at))) else None
    case CompleteAtOnce(user, id, at) =>
      if ClaimGuard(e.tasks, user, id) then Some(Edit(id, ToDone(user, at))) else None
    case Rework(id) => Some(Edit(id, ToNeedsRework))
    case Reject(id) => Some(Edit(id, ToRejected))
    case ForceRelease(id) => Some(Edit(id, ToOpen))
    case Reassign(id, user, at) => Some(Edit(id, ToClaimed(user, at)))
    case _ => None
  }

  /** Statements over many rows. */
  predicate Bulk(step: Step) { step.Create? || step.Expire? || step.RevertRows? || step.RejectBatch? }

  /** What they make of the table, if the index allows it. */
  function RowsAfter(tasks: seq<Task>, step: Step): seq<Task> {
    match step
    case Create(spec) => tasks + [NewTask(spec)]
    case Expire(now) => ReleaseExpired(tasks, now)
    case RevertRows(ids) => Revert(tasks, ids)
    case RejectBatch(items) => RefuseItems(tasks, items)
    case _ => tasks
  }

  function TasksAfter(e: Engine, step: Step): seq<Task> {
    if Bulk(step) then Commit(e.tasks, RowsAfter(e.tasks, step)) else Edited(e.tasks, EditOf(e, step))
  }

  function CountedAfter(e: Engine, step: Step): multiset<User> {
    match step
    case CountForClaim(user) =>
      if CountClaims(e.tasks, user) < MAX_CONCURRENT_CLAIMS then e.counted + multiset{user} else e.counted
    case ClaimRow(p, _, _) => e.counted - multiset{p.user}
    case _ => e.counted
  }

  function CheckedAfter(e: Engine, step: Step): multiset<(User, nat)> {
    match step
    case CheckClaim(user, id) =>
      if ClaimGuard(e.tasks, user, id) then e.checked + multiset{(user, id)} else e.checked
    case WriteDone(user, id, _) => e.checked - multiset{(user, id)}
    case _ => e.checked
  }

  /** A step that is not enabled leaves everything as it is. */
  function Apply(e: Engine, step: Step): Engine {
    Engine(TasksAfter(e, step), CountedAfter(e, step), CheckedAfter(e, step))
  }

  function Run(e: Engine, steps: seq<Step>): Engine
    decreases |steps|
  {
    if steps == [] then e else Run(Apply(e, steps[0]), steps[1..])
  }

  const EMPTY := Engine([], multiset{}, multiset{})

  // ----- what every row keeps -----

  predicate RowConsistent(t: Task) {
    && (t.status == Claimed ==> t.claimedBy.Some? && t.claimedAt.Some?)
    && (t.status == Open || t.status == NeedsRework ==> t.claimedBy == None && t.claimedAt == None)
    && (t.status == Done ==> t.completedBy.Some? && t.completedAt.Some?)
  }

  predicate RowsConsistent(tasks: seq<Task>) {
    forall i | 0 <= i < |tasks| :: RowConsistent(tasks[i])
  }

  predicate Consistent(tasks: seq<Task>) { LiveKeysUnique(tasks) && RowsConsistent(tasks) }

  lemma EditKeepsRows(tasks: seq<Task>, edit: Option<Edit>)
    requires RowsConsistent(tasks)
    ensures RowsConsistent(Edited(tasks, edit))
  {
  }

  /** Some rows make one and the same change. */
  predicate ChangeSome(tasks: seq<Task>, changed: seq<Task>, c: Change) {
    |changed| == |tasks| && forall i | 0 <= i < |tasks| :: changed[i] == tasks[i] || changed[i] == Changed(tasks[i], c)
  }

  lemma ManyChangesKeepRows(tasks: seq<Task>, changed: seq<Task>, c: Change)
    requires RowsConsistent(tasks) && ChangeSome(tasks, changed, c)
    ensures RowsConsistent(changed)
  {
    forall i | 0 <= i < |changed| ensures RowConsistent(changed[i]) {
      assert RowConsistent(tasks[i]);
    }
  }

  /** A statement over many rows adds one, or makes one change to some. */
  lemma BulkChangesSome(tasks: seq<Task>, step: Step) returns (c: Change)
    requires Bulk(step) && !step.Create?
    ensures ChangeSome(tasks, RowsAfter(tasks, step), c) && !c.ToDone? && !c.ToClaimed?
  {
    match step
    case Expire(now) => c := ToOpen;
    case RevertRows(ids) => c := ToReverted;
    case RejectBatch(items) => c := ToRejected;
  }

  lemma BulkKeepsRows(tasks: seq<Task>, step: Step)
    requires RowsConsistent(tasks) && Bulk(step)
    ensures RowsConsistent(RowsAfter(tasks, step))
  {
    if !step.Create? {
      var c := BulkChangesSome(tasks, step);
      ManyChangesKeepRows(tasks, RowsAfter(tasks, step), c);
    }
  }

  lemma ManyChangesKeepCompleters(tasks: seq<Task>, changed: seq<Task>, c: Change)
    requires CompletersAreClaimants(tasks) && ChangeSome(tasks, changed, c) && !c.ToDone?
    ensures CompletersAreClaimants(changed)
  {
    forall i | 0 <= i < |changed| ensures CompleterIsClaimant(changed[i]) {
      assert CompleterIsClaimant(tasks[i]);
    }
  }

  lemma StepKeepsRows(e: Engine, step: Step)
    requires RowsConsistent(e.tasks)
    ensures RowsConsistent(TasksAfter(e, step))
  {
    if Bulk(step) {
      BulkKeepsRows(e.tasks, step);
    } else {
      EditKeepsRows(e.tasks, EditOf(e, step));
    }
  }

  lemma StepKeepsIndex(e: Engine, step: Step)
    requires LiveKeysUnique(e.tasks)
    ensures LiveKeysUnique(TasksAfter(e, step))
  {
  }

  /** In every interleaving, with separate checks and writes, every row is consistent and live keys are unique. */
  lemma {:induction false} RunsStayConsistent(e: Engine, steps: seq<Step>)
    requires Consistent(e.tasks)
    ensures Consistent(Run(e, steps).tasks)
    decreases |steps|
  {
    if steps != [] {
      StepKeepsRows(e, steps[0]);
      StepKeepsIndex(e, steps[0]);
      RunsStayConsistent(Apply(e, steps[0]), steps[1..]);
    }
  }

  /**
   * Whatever the calls before it, an expiry reopens every claim older than two hours, and leaves every younger claim
   * and every other row as it is.
   */
  lemma ExpiryReopensOldClaims(steps: seq<Step>, now: nat, before: seq<Task>, after: seq<Task>)
    requires before == Run(EMPTY, steps).tasks && after == Run(EMPTY, steps + [Expire(now)]).tasks
    ensures |after| == |before|
    ensures forall i | 0 <= i < |before| && before[i].status == Claimed ::
      && before[i].claimedAt.Some?
      && after[i] == if now <= before[i].claimedAt.value + 7_200_000 then before[i]
                     else before[i].(status := Open, claimedBy := None, claimedAt := None)
    ensures forall i | 0 <= i < |before| && before[i].status != Claimed :: after[i] == before[i]
  {
    RunsStayConsistent(EMPTY, steps);
    RunAppend(EMPTY, steps, [Expire(now)]);
    assert Run(Run(EMPTY, steps), [Expire(now)]) == Apply(Run(EMPTY, steps), Expire(now));
    ReleaseCommits(before, now);
    forall i | 0 <= i < |before| && before[i].status == Claimed ensures before[i].claimedAt.Some? {
      assert RowConsistent(before[i]);
    }
  }

  // ----- who completed a task -----

  predicate Atomic(step: Step) { !step.CheckClaim? && !step.WriteDone? }

  predicate CompleterIsClaimant(t: Task) {
    t.status == Done ==> t.claimedBy.Some? && t.completedBy == t.claimedBy
  }

  predicate CompletersAreClaimants(tasks: seq<Task>) {
    forall i | 0 <= i < |tasks| :: CompleterIsClaimant(tasks[i])
  }

  /** A completion by the claimant, or no completion. */
  predicate OwnEdit(tasks: seq<Task>, edit: Option<Edit>) {
    edit.Some? && edit.value.change.ToDone? && edit.value.id < |tasks| ==>
      tasks[edit.value.id].claimedBy == Some(edit.value.change.user)
  }

  lemma EditKeepsCompleters(tasks: seq<Task>, edit: Option<Edit>)
    requires CompletersAreClaimants(tasks) && OwnEdit(tasks, edit)
    ensures CompletersAreClaimants(Edited(tasks, edit))
  {
  }

  lemma BulkKeepsCompleters(tasks: seq<Task>, step: Step)
    requires Bulk(step) && CompletersAreClaimants(tasks)
    ensures CompletersAreClaimants(RowsAfter(tasks, step))
  {
    if !step.Create? {
      var c := BulkChangesSome(tasks, step);
      ManyChangesKeepCompleters(tasks, RowsAfter(tasks, step), c);
    }
  }

  lemma StepKeepsCompleters(e: Engine, step: Step)
    requires !step.WriteDone? && CompletersAreClaimants(e.tasks)
    ensures CompletersAreClaimants(TasksAfter(e, step))
  {
    if Bulk(step) {
      BulkKeepsCompleters(e.tasks, step);
    } else {
      EditKeepsCompleters(e.tasks, EditOf(e, step));
    }
  }

  /** When completion checks and writes in one step, a done task was completed by its claimant. */
  lemma {:induction false} AtomicRunsCompleteByClaimant(e: Engine, steps: seq<Step>)
    requires CompletersAreClaimants(e.tasks) && forall k | 0 <= k < |steps| :: Atomic(steps[k])
    ensures CompletersAreClaimants(Run(e, steps).tasks)
    decreases |steps|
  {
    if steps != [] {
      StepKeepsCompleters(e, steps[0]);
      AtomicRunsCompleteByClaimant(Apply(e, steps[0]), steps[1..]);
    }
  }

  /** The write of a checked completion takes effect. */
  predicate Lands(e: Engine, step: Step) {
    && step.WriteDone? && (step.user, step.id) in e.checked && step.id < |e.tasks|
    && LiveKeysUnique(e.tasks[step.id := Changed(e.tasks[step.id], ToDone(step.user, step.at))])
  }

  /** The condition that the write does not have: the row still names the user as claimant. */
  predicate StillClaimant(e: Engine, step: Step) {
    Lands(e, step) ==> e.tasks[step.id].claimedBy == Some(step.user)
  }

  ghost predicate AlwaysStillClaimant(e: Engine, steps: seq<Step>)
    decreases |steps|
  {
    steps == [] || (StillClaimant(e, steps[0]) && AlwaysStillClaimant(Apply(e, steps[0]), steps[1..]))
  }

  ghost predicate AlwaysCompletedByClaimant(e: Engine, steps: seq<Step>)
    decreases |steps|
  {
    CompletersAreClaimants(e.tasks) && (steps == [] || AlwaysCompletedByClaimant(Apply(e, steps[0]), steps[1..]))
  }

  lemma WriteKeepsCompletersIff(e: Engine, user: User, id: nat, at: nat)
    requires CompletersAreClaimants(e.tasks)
    ensures CompletersAreClaimants(Apply(e, WriteDone(user, id, at)).tasks) <==>
      StillClaimant(e, WriteDone(user, id, at))
  {
    var step := WriteDone(user, id, at);
    if Lands(e, step) {
      var t := Changed(e.tasks[id], ToDone(user, at));
      assert Apply(e, step).tasks == e.tasks[id := t] && e.tasks[id := t][id] == t;
      if StillClaimant(e, step) {
        EditKeepsCompleters(e.tasks, EditOf(e, step));
      } else {
        assert !CompleterIsClaimant(Apply(e, step).tasks[id]);
      }
    } else {
      assert Apply(e, step).tasks == e.tasks;
    }
  }

  lemma StepKeepsCompletersIff(e: Engine, step: Step)
    requires CompletersAreClaimants(e.tasks)
    ensures CompletersAreClaimants(Apply(e, step).tasks) <==> StillClaimant(e, step)
  {
    if step.WriteDone? {
      WriteKeepsCompletersIff(e, step.user, step.id, step.at);
    } else {
      StepKeepsCompleters(e, step);
    }
  }

  /**
   * Over any interleaving, with completions checked in one step and written in another, every done task was
   * completed by its claimant in every state exactly when each write that takes effect finds its user still claimant.
   */
  lemma {:induction false} CompletedByClaimantIff(e: Engine, steps: seq<Step>)
    requires CompletersAreClaimants(e.tasks)
    ensures AlwaysCompletedByClaimant(e, steps) <==> AlwaysStillClaimant(e, steps)
    decreases |steps|
  {
    if steps != [] {
      StepKeepsCompletersIff(e, steps[0]);
      if StillClaimant(e, steps[0]) {
        CompletedByClaimantIff(Apply(e, steps[0]), steps[1..]);
      }
    }
  }

  lemma SingleRow(t: Task, c: Change)
    ensures LiveKeysUnique([t]) && Update([t], 0, c) == [Changed(t, c)]
  {
    assert [t][0 := Changed(t, c)] == [Changed(t, c)];
  }

  function AnyOf(user: User, role: Role): ClaimParams { ClaimParams(user, role, {}, {}) }

  function ClaimSteps(spec: TaskSpec, user: User, at: nat): seq<Step> {
    [Create(spec), CountForClaim(user), ClaimRow(AnyOf(user, spec.role), 0, at)]
  }

  function CrossSteps(user: User, at: nat): seq<Step> { [CheckClaim(user, 0), ForceRelease(0), WriteDone(user, 0, at)] }

  /** A run from the empty table: the task is released between the check and the write of its completion. */
  function CrossingSteps(spec: TaskSpec, user: User, at: nat): seq<Step> {
    ClaimSteps(spec, user, at) + CrossSteps(user, at)
  }

  lemma CreateFirst(spec: TaskSpec)
    ensures Apply(EMPTY, Create(spec)) == Engine([NewTask(spec)], multiset{}, multiset{})
  {
    assert [] + [NewTask(spec)] == [NewTask(spec)];
  }

  lemma CountFirst(t: Task, user: User)
    requires !HeldBy(t, user)
    ensures Apply(Engine([t], multiset{}, multiset{}), CountForClaim(user)) == Engine([t], multiset{user}, multiset{})
  {
    CountSnoc([], t, user);
    assert [] + [t] == [t];
  }

  lemma ClaimFirst(t: Task, p: ClaimParams, at: nat)
    requires Eligible(t, p)
    ensures Apply(Engine([t], multiset{p.user}, multiset{}), ClaimRow(p, 0, at)) ==
            Engine([Changed(t, ToClaimed(p.user, at))], multiset{}, multiset{})
  {
    SingleRow(t, ToClaimed(p.user, at));
  }

  lemma ClaimStepsEnd(spec: TaskSpec, user: User, at: nat)
    ensures Run(EMPTY, ClaimSteps(spec, user, at)) ==
      Engine([Changed(NewTask(spec), ToClaimed(user, at))], multiset{}, multiset{})
  {
    CreateFirst(spec);
    CountFirst(NewTask(spec), user);
    ClaimFirst(NewTask(spec), AnyOf(user, spec.role), at);
    RunThree(EMPTY, Create(spec), CountForClaim(user), ClaimRow(AnyOf(user, spec.role), 0, at));
  }

  lemma CrossStepsEnd(t: Task, user: User, at: nat)
    requires HeldBy(t, user)
    ensures Run(Engine([t], multiset{}, multiset{}), CrossSteps(user, at)).tasks ==
      [Changed(Changed(t, ToOpen), ToDone(user, at))]
  {
    var released := Changed(t, ToOpen);
    var e := Engine([t], multiset{}, multiset{});
    SingleRow(t, ToOpen);
    SingleRow(released, ToDone(user, at));
    assert Apply(e, CheckClaim(user, 0)) == Engine([t], multiset{}, multiset{(user, 0)});
    assert Apply(Engine([t], multiset{}, multiset{(user, 0)}), ForceRelease(0))
        == Engine([released], multiset{}, multiset{(user, 0)});
    RunThree(e, CheckClaim(user, 0), ForceRelease(0), WriteDone(user, 0, at));
  }

  lemma CrossingEnds(spec: TaskSpec, user: User, at: nat)
    ensures Run(EMPTY, CrossingSteps(spec, user, at)).tasks == [Changed(NewTask(spec), ToDone(user, at))]
  {
    ClaimStepsEnd(spec, user, at);
    CrossStepsEnd(Changed(NewTask(spec), ToClaimed(user, at)), user, at);
    RunAppend(EMPTY, ClaimSteps(spec, user, at), CrossSteps(user, at));
  }

  /** The task ends done, completed by a user who no longer claims it. */
  lemma CompletionCanCrossRelease(spec: TaskSpec, user: User, at: nat)
    ensures !CompletersAreClaimants(Run(EMPTY, CrossingSteps(spec, user, at)).tasks)
    ensures !AlwaysStillClaimant(EMPTY, CrossingSteps(spec, user, at))
  {
    CrossingEnds(spec, user, at);
    var tasks := Run(EMPTY, CrossingSteps(spec, user, at)).tasks;
    assert !CompleterIsClaimant(tasks[0]);
    if AlwaysStillClaimant(EMPTY, CrossingSteps(spec, user, at)) {
      CompletedByClaimantIff(EMPTY, CrossingSteps(spec, user, at));
      AlwaysMeansAtTheEnd(EMPTY, CrossingSteps(spec, user, at));
    }
  }

  lemma {:induction false} AlwaysMeansAtTheEnd(e: Engine, steps: seq<Step>)
    requires AlwaysCompletedByClaimant(e, steps)
    ensures CompletersAreClaimants(Run(e, steps).tasks)
    decreases |steps|
  {
    if steps != [] {
      AlwaysMeansAtTheEnd(Apply(e, steps[0]), steps[1..]);
    }
  }

  /** Changing a live row never breaks the index. */
  lemma LiveStaysUnique(tasks: seq<Task>, id: nat, c: Change)
    requires LiveKeysUnique(tasks) && id < |tasks| && Live(tasks[id])
    ensures Update(tasks, id, c) == tasks[id := Changed(tasks[id], c)]
  {
  }

  lemma RunCons(e: Engine, step: Step, rest: seq<Step>)
    ensures Run(e, [step] + rest) == Run(Apply(e, step), rest)
  {
    assert ([step] + rest)[1..] == rest;
  }

  lemma {:induction false} RunAppend(e: Engine, front: seq<Step>, rest: seq<Step>)
    ensures Run(e, front + rest) == Run(Run(e, front), rest)
    decreases |front|
  {
    if front == [] {
      assert front + rest == rest;
    } else {
      assert (front + rest)[0] == front[0] && (front + rest)[1..] == front[1..] + rest;
      RunAppend(Apply(e, front[0]), front[1..], rest);
    }
  }

  lemma RunThree(e: Engine, a: Step, b: Step, c: Step)
    ensures Run(e, [a, b, c]) == Apply(Apply(Apply(e, a), b), c)
  {
    assert [a, b, c] == [a] + [b, c] && [b, c] == [b] + [c] && [c] == [c] + [];
    RunCons(e, a, [b, c]);
    RunCons(Apply(e, a), b, [c]);
    RunCons(Apply(Apply(e, a), b), c, []);
  }

  // ----- how many claims a user can hold -----

  /** In no state of the run has the user more than `k` claim calls that have counted but not yet claimed. */
  ghost predicate InFlightAtMost(e: Engine, steps: seq<Step>, user: User, k: nat)
    decreases |steps|
  {
    e.counted[user] <= k && (steps == [] || InFlightAtMost(Apply(e, steps[0]), steps[1..], user, k))
  }

  ghost predicate WithinCap(e: Engine, user: User, k: nat) {
    CountClaims(e.tasks, user) + e.counted[user] <= MAX_CONCURRENT_CLAIMS - 1 + k
  }

  predicate Claiming(step: Step) { step.Create? || step.CountForClaim? || step.ClaimRow? || step.Reassign? }

  lemma EditLosesClaims(tasks: seq<Task>, edit: Option<Edit>, user: User)
    requires edit.Some? ==> !edit.value.change.ToClaimed?
    ensures CountClaims(Edited(tasks, edit), user) <= CountClaims(tasks, user)
  {
    if edit.Some? {
      CountShrinks(tasks, Edited(tasks, edit), user);
    }
  }

  lemma QuietStepLosesClaims(e: Engine, step: Step, user: User)
    requires !Claiming(step)
    ensures CountClaims(TasksAfter(e, step), user) <= CountClaims(e.tasks, user)
    ensures CountedAfter(e, step) == e.counted
  {
    if Bulk(step) {
      var c := BulkChangesSome(e.tasks, step);
      CountShrinks(e.tasks, RowsAfter(e.tasks, step), user);
    } else {
      EditLosesClaims(e.tasks, EditOf(e, step), user);
    }
  }

  lemma ClaimRowCounts(tasks: seq<Task>, id: nat, p: ClaimParams, at: nat, user: User)
    requires id < |tasks| && Eligible(tasks[id], p)
    ensures CountClaims(Update(tasks, id, ToClaimed(p.user, at)), user)
      <= CountClaims(tasks, user) + if user == p.user then 1 else 0
  {
    CountUpdate(tasks, id, Changed(tasks[id], ToClaimed(p.user, at)), user);
  }

  lemma StepKeepsCap(e: Engine, step: Step, user: User, k: nat)
    requires WithinCap(e, user, k) && !step.Reassign? && Apply(e, step).counted[user] <= k
    ensures WithinCap(Apply(e, step), user, k)
  {
    if !Claiming(step) {
      QuietStepLosesClaims(e, step, user);
    } else if step.Create? {
      CountSnoc(e.tasks, NewTask(step.spec), user);
    } else if step.ClaimRow? && step.id < |e.tasks| && Eligible(e.tasks[step.id], step.params) {
      ClaimRowCounts(e.tasks, step.id, step.params, step.at, user);
    }
  }

  lemma {:induction false} RunKeepsCap(e: Engine, steps: seq<Step>, user: User, k: nat)
    requires WithinCap(e, user, k) && InFlightAtMost(e, steps, user, k)
    requires forall i | 0 <= i < |steps| :: !steps[i].Reassign?
    ensures WithinCap(Run(e, steps), user, k)
    decreases |steps|
  {
    if steps != [] {
      StepKeepsCap(e, steps[0], user, k);
      RunKeepsCap(Apply(e, steps[0]), steps[1..], user, k);
    }
  }

  /** Without reassignment, a user with at most `k` claim calls in flight never holds more than `4 + k` claims. */
  lemma ClaimCap(steps: seq<Step>, user: User, k: nat)
    requires k > 0 && InFlightAtMost(EMPTY, steps, user, k)
    requires forall i | 0 <= i < |steps| :: !steps[i].Reassign?
    ensures CountClaims(Run(EMPTY, steps).tasks, user) <= MAX_CONCURRENT_CLAIMS - 1 + k
  {
    RunKeepsCap(EMPTY, steps, user, k);
  }

  lemma ClaimedRowCounts(e: Engine, p: ClaimParams, id: nat, at: nat)
    requires LiveKeysUnique(e.tasks) && p.user in e.counted && id < |e.tasks| && Eligible(e.tasks[id], p)
    ensures var e' := Apply(e, ClaimRow(p, id, at));
      && e' == Engine(
           e.tasks[id := Changed(e.tasks[id], ToClaimed(p.user, at))], e.counted - multiset{p.user}, e.checked)
      && LiveKeysUnique(e'.tasks) && CountClaims(e'.tasks, p.user) == CountClaims(e.tasks, p.user) + 1
  {
    LiveStaysUnique(e.tasks, id, ToClaimed(p.user, at));
    CountUpdate(e.tasks, id, Changed(e.tasks[id], ToClaimed(p.user, at)), p.user);
  }

  /** As many claim calls as rows count first, and each claims its row afterwards. */
  function CountAll(user: User, k: nat): seq<Step> {
    if k == 0 then [] else [CountForClaim(user)] + CountAll(user, k - 1)
  }

  function ClaimAll(p: ClaimParams, ids: seq<nat>, at: nat): seq<Step> {
    if ids == [] then [] else [ClaimRow(p, ids[0], at)] + ClaimAll(p, ids[1..], at)
  }

  /** Different rows that may all be claimed. */
  predicate Claimable(tasks: seq<Task>, p: ClaimParams, ids: seq<nat>) {
    && (forall i | 0 <= i < |ids| :: ids[i] < |tasks| && Eligible(tasks[ids[i]], p))
    && (forall i, j | 0 <= i < j < |ids| :: ids[i] != ids[j])
  }

  lemma CountOne(e: Engine, user: User, n: nat, after: Engine)
    requires CountClaims(e.tasks, user) < MAX_CONCURRENT_CLAIMS && n > 0
    requires after == e.(counted := e.counted[user := e.counted[user] + n])
    ensures var e1 := Apply(e, CountForClaim(user));
      && e1.tasks == e.tasks && e1.counted[user] == e.counted[user] + 1
      && after == e1.(counted := e1.counted[user := e1.counted[user] + (n - 1)])
  {
  }

  /** A run of one step more. */
  lemma StepFirst(e: Engine, step: Step, e': Engine, rest: seq<Step>, steps: seq<Step>, user: User, k: nat)
    requires Apply(e, step) == e' && e.counted[user] <= k && InFlightAtMost(e', rest, user, k)
    requires steps == [step] + rest
    ensures Run(e, steps) == Run(e', rest) && InFlightAtMost(e, steps, user, k)
  {
    assert steps[1..] == rest;
  }

  lemma CountAllSplit(user: User, n: nat, rest: seq<Step>)
    requires n > 0
    ensures CountAll(user, n) + rest == [CountForClaim(user)] + (CountAll(user, n - 1) + rest)
  {
  }

  /** `n` counts and then `rest`. */
  lemma {:induction false} CountAllEnds(
      e: Engine, user: User, n: nat, after: Engine, rest: seq<Step>, steps: seq<Step>, k: nat)
    requires CountClaims(e.tasks, user) < MAX_CONCURRENT_CLAIMS && steps == CountAll(user, n) + rest
    requires after == e.(counted := e.counted[user := e.counted[user] + n]) && after.counted[user] <= k
    requires InFlightAtMost(after, rest, user, k)
    ensures Run(e, steps) == Run(after, rest)
    ensures InFlightAtMost(e, steps, user, k)
    decreases n
  {
    if n == 0 {
      assert after == e && steps == rest;
    } else {
      var e1, later := Apply(e, CountForClaim(user)), CountAll(user, n - 1) + rest;
      CountOne(e, user, n, after);
      CountAllEnds(e1, user, n - 1, after, rest, later, k);
      CountAllSplit(user, n, rest);
      StepFirst(e, CountForClaim(user), e1, later, steps, user, k);
    }
  }

  lemma {:induction false} ClaimAllEnds(e: Engine, p: ClaimParams, ids: seq<nat>, at: nat, k: nat)
    requires LiveKeysUnique(e.tasks) && Claimable(e.tasks, p, ids) && |ids| <= e.counted[p.user] <= k
    ensures CountClaims(Run(e, ClaimAll(p, ids, at)).tasks, p.user) == CountClaims(e.tasks, p.user) + |ids|
    ensures InFlightAtMost(e, ClaimAll(p, ids, at), p.user, k)
    decreases |ids|
  {
    if ids != [] {
      var e1 := Apply(e, ClaimRow(p, ids[0], at));
      ClaimedRowCounts(e, p, ids[0], at);
      assert ClaimAll(p, ids, at)[1..] == ClaimAll(p, ids[1..], at);
      assert forall i | 0 <= i < |ids[1..]| :: ids[1..][i] == ids[i + 1];
      ClaimAllEnds(e1, p, ids[1..], at, k);
    }
  }

  /** The bound is met for every `k`: with four claims, `k` overlapping calls end at `4 + k`. */
  lemma OverlappingClaimsMeetCap(e: Engine, p: ClaimParams, ids: seq<nat>, at: nat)
    requires LiveKeysUnique(e.tasks) && CountClaims(e.tasks, p.user) == MAX_CONCURRENT_CLAIMS - 1
    requires e.counted[p.user] == 0 && Claimable(e.tasks, p, ids)
    ensures var steps := CountAll(p.user, |ids|) + ClaimAll(p, ids, at);
      && InFlightAtMost(e, steps, p.user, |ids|)
      && CountClaims(Run(e, steps).tasks, p.user) == MAX_CONCURRENT_CLAIMS - 1 + |ids|
  {
    var after := e.(counted := e.counted[p.user := |ids|]);
    ClaimAllEnds(after, p, ids, at, |ids|);
    CountAllEnds(e, p.user, |ids|, after, ClaimAll(p, ids, at), CountAll(p.user, |ids|) + ClaimAll(p, ids, at), |ids|);
  }

  // ----- a run from the empty table that meets the bound -----

  /** The first `m` rows are claimed. */
  function Board(rows: seq<Task>, user: User, at: nat, m: nat): Engine {
    Engine(seq(|rows|, i requires 0 <= i < |rows| => if i < m then Changed(rows[i], ToClaimed(user, at)) else rows[i]),
           multiset{}, multiset{})
  }

  /** Open rows of one role with different keys. */
  predicate OpenRows(rows: seq<Task>, role: Role) {
    LiveKeysUnique(rows) && forall i | 0 <= i < |rows| :: rows[i].status == Open && rows[i].role == role
  }

  lemma {:induction false} BoardClaims(rows: seq<Task>, role: Role, user: User, at: nat, m: nat, n: nat)
    requires OpenRows(rows, role) && m <= n <= |rows|
    ensures CountClaims(Board(rows, user, at, m).tasks[..n], user) == m
    decreases n
  {
    var tasks := Board(rows, user, at, m).tasks;
    if n > 0 {
      assert tasks[..n][..n - 1] == tasks[..n - 1];
      if n > m {
        BoardClaims(rows, role, user, at, m, n - 1);
      } else {
        BoardPrefix(rows, user, at, m);
        BoardClaims(rows, role, user, at, m - 1, n - 1);
      }
    }
  }

  lemma BoardPrefix(rows: seq<Task>, user: User, at: nat, m: nat)
    requires 0 < m <= |rows|
    ensures Board(rows, user, at, m).tasks[..m - 1] == Board(rows, user, at, m - 1).tasks[..m - 1]
  {
  }

  lemma BoardFacts(rows: seq<Task>, role: Role, user: User, at: nat, m: nat)
    requires OpenRows(rows, role) && m <= |rows|
    ensures var e := Board(rows, user, at, m);
      && LiveKeysUnique(e.tasks) && CountClaims(e.tasks, user) == m && |e.tasks| == |rows|
      && forall i | m <= i < |rows| :: Eligible(e.tasks[i], AnyOf(user, role))
  {
    BoardClaims(rows, role, user, at, m, |rows|);
    var tasks := Board(rows, user, at, m).tasks;
    assert tasks[..|rows|] == tasks;
    forall i, j | 0 <= i < j < |tasks| ensures !SameKey(tasks[i], tasks[j]) {
      assert Live(rows[i]) && Live(rows[j]) && !SameKey(rows[i], rows[j]);
    }
  }

  lemma BoardNext(rows: seq<Task>, role: Role, user: User, at: nat, m: nat)
    requires OpenRows(rows, role) && m < |rows| && m < MAX_CONCURRENT_CLAIMS
    ensures var e := Apply(Board(rows, user, at, m), CountForClaim(user));
      && e == Board(rows, user, at, m).(counted := multiset{user})
      && Apply(e, ClaimRow(AnyOf(user, role), m, at)) == Board(rows, user, at, m + 1)
  {
    BoardFacts(rows, role, user, at, m);
    var tasks := Board(rows, user, at, m).tasks;
    LiveStaysUnique(tasks, m, ToClaimed(user, at));
    assert tasks[m := Changed(tasks[m], ToClaimed(user, at))] == Board(rows, user, at, m + 1).tasks;
  }

  lemma ClaimNext(rows: seq<Task>, role: Role, user: User, at: nat, m: nat,
                  later: seq<Step>, steps: seq<Step>, k: nat)
    requires OpenRows(rows, role) && m < |rows| && m < MAX_CONCURRENT_CLAIMS && k > 0
    requires InFlightAtMost(Board(rows, user, at, m + 1), later, user, k)
    requires steps == [CountForClaim(user)] + ([ClaimRow(AnyOf(user, role), m, at)] + later)
    ensures Run(Board(rows, user, at, m), steps) == Run(Board(rows, user, at, m + 1), later)
    ensures InFlightAtMost(Board(rows, user, at, m), steps, user, k)
  {
    var e, claim := Board(rows, user, at, m), ClaimRow(AnyOf(user, role), m, at);
    var counted := e.(counted := multiset{user});
    BoardNext(rows, role, user, at, m);
    StepFirst(counted, claim, Board(rows, user, at, m + 1), later, [claim] + later, user, k);
    StepFirst(e, CountForClaim(user), counted, [claim] + later, steps, user, k);
  }

  /** The rows from `m` to `n` are counted and claimed one after the other, then `rest`. */
  function ClaimInTurn(p: ClaimParams, m: nat, n: nat, at: nat, rest: seq<Step>): seq<Step>
    decreases n - m
  {
    if m >= n then rest
    else [CountForClaim(p.user)] + ([ClaimRow(p, m, at)] + ClaimInTurn(p, m + 1, n, at, rest))
  }

  lemma {:induction false} ClaimInTurnEnds(
      rows: seq<Task>, role: Role, user: User, at: nat, m: nat, n: nat, e: Engine, end: Engine,
      rest: seq<Step>, steps: seq<Step>, k: nat)
    requires OpenRows(rows, role) && m <= n <= |rows| && n <= MAX_CONCURRENT_CLAIMS && k > 0
    requires e == Board(rows, user, at, m) && end == Board(rows, user, at, n)
    requires InFlightAtMost(end, rest, user, k) && steps == ClaimInTurn(AnyOf(user, role), m, n, at, rest)
    ensures Run(e, steps) == Run(end, rest)
    ensures InFlightAtMost(e, steps, user, k)
    decreases n - m
  {
    if m == n {
      assert e == end && steps == rest;
    } else {
      var later := ClaimInTurn(AnyOf(user, role), m + 1, n, at, rest);
      ClaimInTurnEnds(rows, role, user, at, m + 1, n, Board(rows, user, at, m + 1), end, rest, later, k);
      ClaimNext(rows, role, user, at, m, later, steps, k);
    }
  }

  /** The tasks from `m` on are created, then `rest`. */
  function CreateFrom(specs: seq<TaskSpec>, m: nat, rest: seq<Step>): seq<Step>
    decreases |specs| - m
  {
    if m >= |specs| then rest else [Create(specs[m])] + CreateFrom(specs, m + 1, rest)
  }

  lemma CreateNext(specs: seq<TaskSpec>, m: nat)
    requires LiveKeysUnique(NewTasks(specs)) && m < |specs|
    ensures Apply(Engine(NewTasks(specs)[..m], multiset{}, multiset{}), Create(specs[m]))
         == Engine(NewTasks(specs)[..m + 1], multiset{}, multiset{})
  {
    assert NewTasks(specs)[..m] + [NewTask(specs[m])] == NewTasks(specs)[..m + 1];
    assert LiveKeysUnique(NewTasks(specs)[..m + 1]);
  }

  lemma {:induction false} CreateFromEnds(specs: seq<TaskSpec>, m: nat, rest: seq<Step>, user: User, k: nat)
    requires LiveKeysUnique(NewTasks(specs)) && m <= |specs|
    requires InFlightAtMost(Engine(NewTasks(specs), multiset{}, multiset{}), rest, user, k)
    ensures var e := Engine(NewTasks(specs)[..m], multiset{}, multiset{});
      && Run(e, CreateFrom(specs, m, rest)) == Run(Engine(NewTasks(specs), multiset{}, multiset{}), rest)
      && InFlightAtMost(e, CreateFrom(specs, m, rest), user, k)
    decreases |specs| - m
  {
    if m == |specs| {
      assert NewTasks(specs)[..m] == NewTasks(specs);
    } else {
      CreateFromEnds(specs, m + 1, rest, user, k);
      CreateNext(specs, m);
      StepFirst(Engine(NewTasks(specs)[..m], multiset{}, multiset{}), Create(specs[m]),
                Engine(NewTasks(specs)[..m + 1], multiset{}, multiset{}), CreateFrom(specs, m + 1, rest),
                CreateFrom(specs, m, rest), user, k);
    }
  }

  function From(m: nat, k: nat): (ids: seq<nat>)
    ensures |ids| == k && forall i | 0 <= i < k :: ids[i] == m + i
  {
    seq(k, i requires 0 <= i < k => m + i)
  }

  lemma RushEnds(rows: seq<Task>, role: Role, user: User, k: nat, at: nat, rush: seq<Step>)
    requires k > 0 && |rows| == MAX_CONCURRENT_CLAIMS - 1 + k && OpenRows(rows, role)
    requires rush == CountAll(user, k) + ClaimAll(AnyOf(user, role), From(MAX_CONCURRENT_CLAIMS - 1, k), at)
    ensures var e := Board(rows, user, at, MAX_CONCURRENT_CLAIMS - 1);
      InFlightAtMost(e, rush, user, k) && CountClaims(Run(e, rush).tasks, user) == MAX_CONCURRENT_CLAIMS - 1 + k
  {
    var m := MAX_CONCURRENT_CLAIMS - 1;
    BoardFacts(rows, role, user, at, m);
    OverlappingClaimsMeetCap(Board(rows, user, at, m), AnyOf(user, role), From(m, k), at);
  }

  lemma FourThenRush(rows: seq<Task>, role: Role, user: User, k: nat, at: nat, claims: seq<Step>)
    requires k > 0 && |rows| == MAX_CONCURRENT_CLAIMS - 1 + k && OpenRows(rows, role)
    requires var m, p := MAX_CONCURRENT_CLAIMS - 1, AnyOf(user, role);
      claims == ClaimInTurn(p, 0, m, at, CountAll(user, k) + ClaimAll(p, From(m, k), at))
    ensures var e := Engine(rows, multiset{}, multiset{});
      InFlightAtMost(e, claims, user, k) && CountClaims(Run(e, claims).tasks, user) == MAX_CONCURRENT_CLAIMS - 1 + k
  {
    var m, p := MAX_CONCURRENT_CLAIMS - 1, AnyOf(user, role);
    var rush := CountAll(user, k) + ClaimAll(p, From(m, k), at);
    RushEnds(rows, role, user, k, at, rush);
    var e := Engine(rows, multiset{}, multiset{});
    assert Board(rows, user, at, 0) == e;
    ClaimInTurnEnds(rows, role, user, at, 0, m, e, Board(rows, user, at, m), rush, claims, k);
  }

  /** Creates the tasks, claims four in turn, and then counts `k` times before claiming `k` more. */
  function RushSteps(specs: seq<TaskSpec>, p: ClaimParams, k: nat, at: nat): seq<Step> {
    var m := MAX_CONCURRENT_CLAIMS - 1;
    CreateFrom(specs, 0, ClaimInTurn(p, 0, m, at, CountAll(p.user, k) + ClaimAll(p, From(m, k), at)))
  }

  /** From the empty table, `4 + k` tasks of one role and different keys all end up claimed by one user. */
  lemma OverlappingClaimsReachCap(specs: seq<TaskSpec>, role: Role, user: User, k: nat, at: nat)
    requires k > 0 && |specs| == MAX_CONCURRENT_CLAIMS - 1 + k && OpenRows(NewTasks(specs), role)
    ensures var steps := RushSteps(specs, AnyOf(user, role), k, at);
      && InFlightAtMost(EMPTY, steps, user, k)
      && CountClaims(Run(EMPTY, steps).tasks, user) == MAX_CONCURRENT_CLAIMS - 1 + k
  {
    var rows, m, p := NewTasks(specs), MAX_CONCURRENT_CLAIMS - 1, AnyOf(user, role);
    var claims := ClaimInTurn(p, 0, m, at, CountAll(user, k) + ClaimAll(p, From(m, k), at));
    FourThenRush(rows, role, user, k, at, claims);
    assert rows[..0] == [];
    CreateFromEnds(specs, 0, claims, user, k);
  }
}

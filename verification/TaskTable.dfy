/** The task table: rows, the partial unique index on live keys, claims and status changes. */
module TaskTable {
  import opened Common
  import opened IdemKey

  type User = string

  datatype Role = Contributor | Reviewer
  datatype Status = Open | Claimed | Done | Rejected | NeedsRework

  datatype Task = Task(
    item: Id, kind: TaskType, version: nat, slot: string, role: Role, priority: int, status: Status,
    claimedBy: Option<User>, claimedAt: Option<nat>, completedBy: Option<User>, completedAt: Option<nat>)

  datatype TaskSpec = TaskSpec(item: Id, kind: TaskType, version: nat, slot: string, role: Role)

  predicate Live(t: Task) { t.status == Open || t.status == Claimed || t.status == NeedsRework }

  predicate SameKey(s: Task, t: Task) {
    KeyText(s.item, s.kind, s.version, s.slot) == KeyText(t.item, t.kind, t.version, t.slot)
  }

  /** The index `tasks_idem_key_live_unique`: at most one live row per key. */
  predicate LiveKeysUnique(tasks: seq<Task>) {
    forall i, j | 0 <= i < j < |tasks| && Live(tasks[i]) && Live(tasks[j]) :: !SameKey(tasks[i], tasks[j])
  }

  /** A statement that would break the index fails as a whole. */
  function Commit(tasks: seq<Task>, changed: seq<Task>): seq<Task> {
    if LiveKeysUnique(changed) then changed else tasks
  }

  // ----- single rows -----

  function NewTask(spec: TaskSpec): Task {
    Task(spec.item, spec.kind, spec.version, spec.slot, spec.role, 0, Open, None, None, None, None)
  }

  function NewTasks(specs: seq<TaskSpec>): (ts: seq<Task>)
    ensures |ts| == |specs| && forall k | 0 <= k < |ts| :: ts[k] == NewTask(specs[k])
  {
    seq(|specs|, k requires 0 <= k < |specs| => NewTask(specs[k]))
  }

  /** The field changes that the services make to one row. */
  datatype Change =
    | ToClaimed(user: User, at: nat)
    | ToOpen
    | ToDone(user: User, at: nat)
    | ToNeedsRework
    | ToRejected
    | ToReverted

  function Changed(t: Task, c: Change): Task {
    match c
    case ToClaimed(user, at) => t.(status := Claimed, claimedBy := Some(user), claimedAt := Some(at))
    case ToOpen => t.(status := Open, claimedBy := None, claimedAt := None)
    case ToDone(user, at) => t.(status := Done, completedBy := Some(user), completedAt := Some(at))
    case ToNeedsRework => t.(status := NeedsRework, claimedBy := None, claimedAt := None)
    case ToRejected => t.(status := Rejected)
    case ToReverted =>
      t.(status := NeedsRework, completedBy := None, completedAt := None, claimedBy := None, claimedAt := None)
  }

  // ----- statements -----

  function Spawn(tasks: seq<Task>, spec: TaskSpec): seq<Task> { Commit(tasks, tasks + [NewTask(spec)]) }

  function SpawnAll(tasks: seq<Task>, specs: seq<TaskSpec>): seq<Task>
    decreases |specs|
  {
    if specs == [] then tasks else SpawnAll(Spawn(tasks, specs[0]), specs[1..])
  }

  function Update(tasks: seq<Task>, id: nat, c: Change): seq<Task> {
    if id < |tasks| then Commit(tasks, tasks[id := Changed(tasks[id], c)]) else tasks
  }

  /** A change to one row. */
  datatype Edit = Edit(id: nat, change: Change)

  function Edited(tasks: seq<Task>, edit: Option<Edit>): seq<Task> {
    match edit
    case None => tasks
    case Some(e) => Update(tasks, e.id, e.change)
  }

  const MAX_CONCURRENT_CLAIMS := 5
  const CLAIM_EXPIRY := 2 * 60 * 60 * 1000

  predicate HeldBy(t: Task, user: User) { t.status == Claimed && t.claimedBy == Some(user) }

  function CountClaims(tasks: seq<Task>, user: User): nat {
    if tasks == [] then 0
    else CountClaims(tasks[..|tasks| - 1], user) + if HeldBy(tasks[|tasks| - 1], user) then 1 else 0
  }

  predicate Expired(t: Task, now: nat) {
    t.status == Claimed && t.claimedAt.Some? && t.claimedAt.value + CLAIM_EXPIRY < now
  }

  function CountExpired(tasks: seq<Task>, now: nat): nat {
    if tasks == [] then 0
    else CountExpired(tasks[..|tasks| - 1], now) + if Expired(tasks[|tasks| - 1], now) then 1 else 0
  }

  function ReleaseExpired(tasks: seq<Task>, now: nat): (r: seq<Task>)
    ensures |r| == |tasks|
    ensures forall i | 0 <= i < |r| :: r[i] == if Expired(tasks[i], now) then Changed(tasks[i], ToOpen) else tasks[i]
  {
    seq(|tasks|, i requires 0 <= i < |tasks| => if Expired(tasks[i], now) then Changed(tasks[i], ToOpen) else tasks[i])
  }

  function Revert(tasks: seq<Task>, ids: set<nat>): (r: seq<Task>)
    ensures |r| == |tasks|
    ensures forall i | 0 <= i < |r| :: r[i] == if i in ids then Changed(tasks[i], ToReverted) else tasks[i]
  {
    seq(|tasks|, i requires 0 <= i < |tasks| => if i in ids then Changed(tasks[i], ToReverted) else tasks[i])
  }

  function RefuseItems(tasks: seq<Task>, items: set<Id>): (r: seq<Task>)
    ensures |r| == |tasks|
    ensures forall i | 0 <= i < |r| ::
      r[i] == if tasks[i].item in items && Live(tasks[i]) then Changed(tasks[i], ToRejected) else tasks[i]
  {
    seq(|tasks|, i requires 0 <= i < |tasks| =>
      if tasks[i].item in items && Live(tasks[i]) then Changed(tasks[i], ToRejected) else tasks[i])
  }

  // ----- claiming -----

  /** Role and type filters of a claim; an empty list of wanted types means any type. */
  datatype ClaimParams = ClaimParams(user: User, role: Role, types: set<TaskType>, excluded: set<TaskType>)

  predicate Eligible(t: Task, p: ClaimParams) {
    && (t.status == Open || t.status == NeedsRework) && t.role == p.role
    && (p.types == {} || t.kind in p.types) && t.kind !in p.excluded
  }

  /** `ORDER BY priority DESC, created_at ASC LIMIT 1`; row numbers follow creation time. */
  predicate IsNext(tasks: seq<Task>, p: ClaimParams, id: nat) {
    && id < |tasks| && Eligible(tasks[id], p)
    && forall j | 0 <= j < |tasks| && Eligible(tasks[j], p) ::
         tasks[j].priority < tasks[id].priority || (tasks[j].priority == tasks[id].priority && id <= j)
  }

  class TaskStore {
    var tasks: seq<Task>

    constructor ()
      ensures tasks == []
    {
      tasks := [];
    }

    method SpawnTask(spec: TaskSpec) returns (spawned: bool)
      modifies this
      ensures tasks == Spawn(old(tasks), spec)
      ensures spawned == (|tasks| == |old(tasks)| + 1) && (!spawned ==> tasks == old(tasks))
    {
      spawned := LiveKeysUnique(tasks + [NewTask(spec)]);
      if spawned {
        tasks := tasks + [NewTask(spec)];
      }
    }

    method SpawnTasks(specs: seq<TaskSpec>) returns (spawned: nat, skipped: nat)
      modifies this
      ensures tasks == SpawnAll(old(tasks), specs)
      ensures spawned + skipped == |specs| && |tasks| == |old(tasks)| + spawned
    {
      spawned, skipped := 0, 0;
      for k := 0 to |specs|
        invariant SpawnAll(tasks, specs[k..]) == SpawnAll(old(tasks), specs)
        invariant spawned + skipped == k && |tasks| == |old(tasks)| + spawned
      {
        assert specs[k..][0] == specs[k] && specs[k..][1..] == specs[k + 1..];
        var result := SpawnTask(specs[k]);
        if result {
          spawned := spawned + 1;
        } else {
          skipped := skipped + 1;
        }
      }
    }

    method CountActiveClaims(user: User) returns (n: nat)
      ensures n == CountClaims(tasks, user)
      ensures n == |HeldRows(tasks, user)|
    {
      CountClaimsIs(tasks, user);
      n := 0;
      for k := 0 to |tasks|
        invariant n == CountClaims(tasks[..k], user)
      {
        assert tasks[..k + 1][..k] == tasks[..k];
        if HeldBy(tasks[k], user) {
          n := n + 1;
        }
      }
      assert tasks[..|tasks|] == tasks;
    }

    method FindNext(p: ClaimParams) returns (best: Option<nat>)
      ensures best.Some? ==> IsNext(tasks, p, best.value)
      ensures best.Some? ==> var t := tasks[best.value];
        && (t.status == Open || t.status == NeedsRework) && t.role == p.role
        && (p.types == {} || t.kind in p.types) && t.kind !in p.excluded
      ensures best == None ==> forall j | 0 <= j < |tasks| :: !Eligible(tasks[j], p)
    {
      best := None;
      for k := 0 to |tasks|
        invariant best.Some? ==> best.value < k && IsNext(tasks[..k], p, best.value)
        invariant best == None ==> forall j | 0 <= j < k :: !Eligible(tasks[j], p)
      {
        if Eligible(tasks[k], p) && (best == None || tasks[k].priority > tasks[best.value].priority) {
          best := Some(k);
        }
      }
      assert tasks[..|tasks|] == tasks;
    }

    /** Refused at five live claims; otherwise the next eligible task, if any, is claimed. */
    method ClaimNextTask(p: ClaimParams, now: nat) returns (claimed: Option<nat>)
      requires LiveKeysUnique(tasks)
      modifies this
      ensures claimed == None ==> tasks == old(tasks)
      ensures claimed == None <==>
        || CountClaims(old(tasks), p.user) >= MAX_CONCURRENT_CLAIMS
        || forall j | 0 <= j < |old(tasks)| :: !Eligible(old(tasks)[j], p)
      ensures claimed.Some? ==>
        && IsNext(old(tasks), p, claimed.value) && tasks == Update(old(tasks), claimed.value, ToClaimed(p.user, now))
        && tasks == old(tasks)[claimed.value := old(tasks)[claimed.value].(
             status := Claimed, claimedBy := Some(p.user), claimedAt := Some(now))]
    {
      var active := CountActiveClaims(p.user);
      if active >= MAX_CONCURRENT_CLAIMS {
        return None;
      }
      claimed := FindNext(p);
      if claimed.Some? {
        var ok := UpdateRow(claimed.value, ToClaimed(p.user, now));
      }
    }

    method ReleaseExpiredClaims(now: nat) returns (released: nat)
      modifies this
      ensures tasks == ReleaseExpired(old(tasks), now) && released == CountExpired(old(tasks), now)
      ensures |tasks| == |old(tasks)| && forall k | 0 <= k < |tasks| ::
        tasks[k] == if old(tasks)[k].status == Claimed && old(tasks)[k].claimedAt.Some?
                       && now - old(tasks)[k].claimedAt.value > 7_200_000
                    then old(tasks)[k].(status := Open, claimedBy := None, claimedAt := None) else old(tasks)[k]
      ensures released == |ChangedRows(old(tasks), tasks)|
    {
      ReleasedAre(tasks, now);
      released := 0;
      assert tasks[..|tasks|] == tasks;
      for k := 0 to |tasks|
        invariant |tasks| == |old(tasks)| && released == CountExpired(old(tasks)[..k], now)
        invariant forall i | 0 <= i < k :: tasks[i] == ReleaseExpired(old(tasks), now)[i]
        invariant forall i | k <= i < |tasks| :: tasks[i] == old(tasks)[i]
      {
        assert old(tasks)[..k + 1][..k] == old(tasks)[..k];
        if Expired(tasks[k], now) {
          tasks := tasks[k := Changed(tasks[k], ToOpen)];
          released := released + 1;
        }
      }
    }

    /** A single-row update; it fails when the row is missing or the index would break. */
    method UpdateRow(id: nat, c: Change) returns (ok: bool)
      modifies this
      ensures tasks == Update(old(tasks), id, c)
      ensures ok <==> id < |old(tasks)| && LiveKeysUnique(old(tasks)[id := Changed(old(tasks)[id], c)])
    {
      ok := id < |tasks| && LiveKeysUnique(tasks[id := Changed(tasks[id], c)]);
      if ok {
        tasks := tasks[id := Changed(tasks[id], c)];
      }
    }

    /**
     * A multi-row update of one transaction. It fails as a whole exactly when two rows that would then be live have
     * one key; otherwise all done tasks of the user, and no others, go back for rework with nobody's name on them.
     */
    method RevertCompleted(user: User) returns (reverted: Option<nat>)
      modifies this
      ensures reverted == None <==> ClashOnceReverted(old(tasks), user)
      ensures reverted == None ==> tasks == old(tasks)
      ensures reverted.Some? ==> reverted.value == |CompletedBy(old(tasks), user)| && CompletedBy(tasks, user) == {}
      ensures reverted.Some? ==> SentBack(old(tasks), tasks, user)
    {
      var ids := CompletedBy(tasks, user);
      var changed := Revert(tasks, ids);
      RevertClashes(tasks, user);
      RevertSendsBack(tasks, user);
      if LiveKeysUnique(changed) {
        reverted := Some(|ids|);
        tasks := changed;
      } else {
        reverted := None;
      }
    }
  }

  function CompletedBy(tasks: seq<Task>, user: User): set<nat> {
    set i | 0 <= i < |tasks| && tasks[i].completedBy == Some(user) && tasks[i].status == Done
  }

  predicate LiveOnceReverted(t: Task, user: User) {
    Live(t) || (t.status == Done && t.completedBy == Some(user))
  }

  /** Two rows that are live, or would be once the user's completions are reverted, have one key. */
  predicate ClashOnceReverted(tasks: seq<Task>, user: User) {
    exists i, j :: 0 <= i < j < |tasks| && SameKey(tasks[i], tasks[j])
      && LiveOnceReverted(tasks[i], user) && LiveOnceReverted(tasks[j], user)
  }

  /** Every done task of the user waits for rework with all four names and times gone, and no other row changes. */
  predicate SentBack(before: seq<Task>, after: seq<Task>, user: User) {
    && |after| == |before|
    && forall i | 0 <= i < |after| ::
         after[i] == if before[i].status != Done || before[i].completedBy != Some(user) then before[i]
                     else before[i].(status := NeedsRework, completedBy := None, completedAt := None,
                                     claimedBy := None, claimedAt := None)
  }

  lemma RevertSendsBack(tasks: seq<Task>, user: User)
    ensures SentBack(tasks, Revert(tasks, CompletedBy(tasks, user)), user)
  {
    var ids := CompletedBy(tasks, user);
    assert forall i | 0 <= i < |tasks| :: i in ids <==> tasks[i].status == Done && tasks[i].completedBy == Some(user);
  }

  lemma RevertedRow(tasks: seq<Task>, user: User, i: nat)
    requires i < |tasks|
    ensures var t := Revert(tasks, CompletedBy(tasks, user))[i];
      && (Live(t) <==> LiveOnceReverted(tasks[i], user))
      && i !in CompletedBy(Revert(tasks, CompletedBy(tasks, user)), user)
      && t.item == tasks[i].item && t.kind == tasks[i].kind && t.version == tasks[i].version && t.slot == tasks[i].slot
  {
  }

  lemma RevertClashes(tasks: seq<Task>, user: User)
    ensures var changed := Revert(tasks, CompletedBy(tasks, user));
      && (LiveKeysUnique(changed) <==> !ClashOnceReverted(tasks, user)) && CompletedBy(changed, user) == {}
  {
    var changed := Revert(tasks, CompletedBy(tasks, user));
    forall i | 0 <= i < |tasks|
      ensures (Live(changed[i]) <==> LiveOnceReverted(tasks[i], user)) && i !in CompletedBy(changed, user)
    {
      RevertedRow(tasks, user, i);
    }
    forall i, j | 0 <= i < j < |tasks| ensures SameKey(changed[i], changed[j]) <==> SameKey(tasks[i], tasks[j]) {
      RevertedRow(tasks, user, i);
      RevertedRow(tasks, user, j);
    }
    if ClashOnceReverted(tasks, user) {
      var i, j :| 0 <= i < j < |tasks| && SameKey(tasks[i], tasks[j])
        && LiveOnceReverted(tasks[i], user) && LiveOnceReverted(tasks[j], user);
      assert Live(changed[i]) && Live(changed[j]) && SameKey(changed[i], changed[j]);
    }
  }

  // ----- the index over time -----

  /** A spawn is skipped exactly when a live row already has the key. */
  lemma SpawnSkipsIff(tasks: seq<Task>, spec: TaskSpec)
    requires LiveKeysUnique(tasks)
    ensures Spawn(tasks, spec) == tasks + [NewTask(spec)] || Spawn(tasks, spec) == tasks
    ensures Spawn(tasks, spec) == tasks <==>
      exists i :: 0 <= i < |tasks| && Live(tasks[i]) && SameKey(tasks[i], NewTask(spec))
  {
    var grown := tasks + [NewTask(spec)];
    if i :| 0 <= i < |tasks| && Live(tasks[i]) && SameKey(tasks[i], NewTask(spec)) {
      assert SameKey(grown[i], grown[|tasks|]);
    } else {
      assert LiveKeysUnique(grown);
      assert |grown| != |tasks|;
    }
  }

  /** Releasing claims makes no row live that was not. */
  lemma ReleaseCommits(tasks: seq<Task>, now: nat)
    requires LiveKeysUnique(tasks)
    ensures Commit(tasks, ReleaseExpired(tasks, now)) == ReleaseExpired(tasks, now)
  {
    var after := ReleaseExpired(tasks, now);
    forall i, j | 0 <= i < j < |after| && Live(after[i]) && Live(after[j]) ensures !SameKey(after[i], after[j]) {
      assert !SameKey(tasks[i], tasks[j]);
    }
  }

  // ----- counting claims -----

  function HeldRows(tasks: seq<Task>, user: User): set<nat> {
    set k: nat | k < |tasks| && tasks[k].status == Claimed && tasks[k].claimedBy == Some(user)
  }

  lemma HeldRowsSnoc(tasks: seq<Task>, n: nat, user: User)
    requires |tasks| == n + 1
    ensures HeldRows(tasks, user) == HeldRows(tasks[..n], user) + (if HeldBy(tasks[n], user) then {n} else {})
    ensures n !in HeldRows(tasks[..n], user)
  {
  }

  /** The count is that of the rows the user holds. */
  lemma {:induction false} CountClaimsIs(tasks: seq<Task>, user: User)
    ensures CountClaims(tasks, user) == |HeldRows(tasks, user)|
  {
    if tasks != [] {
      CountClaimsIs(tasks[..|tasks| - 1], user);
      HeldRowsSnoc(tasks, |tasks| - 1, user);
    }
  }

  function ExpiredRows(tasks: seq<Task>, now: nat): set<nat> { set k: nat | k < |tasks| && Expired(tasks[k], now) }

  lemma ExpiredRowsSnoc(tasks: seq<Task>, n: nat, now: nat)
    requires |tasks| == n + 1
    ensures ExpiredRows(tasks, now) == ExpiredRows(tasks[..n], now) + (if Expired(tasks[n], now) then {n} else {})
    ensures n !in ExpiredRows(tasks[..n], now)
  {
  }

  lemma {:induction false} CountExpiredIs(tasks: seq<Task>, now: nat)
    ensures CountExpired(tasks, now) == |ExpiredRows(tasks, now)|
  {
    if tasks != [] {
      CountExpiredIs(tasks[..|tasks| - 1], now);
      ExpiredRowsSnoc(tasks, |tasks| - 1, now);
    }
  }

  /** The rows of `after` that are not those of `before`. */
  function ChangedRows(before: seq<Task>, after: seq<Task>): set<nat> {
    set k: nat | k < |before| && k < |after| && after[k] != before[k]
  }

  /** The count is that of the rows that an expiry changes. */
  lemma ReleasedAre(tasks: seq<Task>, now: nat)
    ensures CountExpired(tasks, now) == |ChangedRows(tasks, ReleaseExpired(tasks, now))|
  {
    CountExpiredIs(tasks, now);
    assert ExpiredRows(tasks, now) == ChangedRows(tasks, ReleaseExpired(tasks, now));
  }

  lemma {:induction false} CountSnoc(tasks: seq<Task>, t: Task, user: User)
    ensures CountClaims(tasks + [t], user) == CountClaims(tasks, user) + if HeldBy(t, user) then 1 else 0
  {
    assert (tasks + [t])[..|tasks|] == tasks;
  }

  /** Rows that only lose claims cannot raise the count. */
  lemma {:induction false} CountShrinks(before: seq<Task>, after: seq<Task>, user: User)
    requires |before| == |after| && forall i | 0 <= i < |after| :: HeldBy(after[i], user) ==> HeldBy(before[i], user)
    ensures CountClaims(after, user) <= CountClaims(before, user)
  {
    if before != [] {
      CountShrinks(before[..|before| - 1], after[..|after| - 1], user);
    }
  }

  lemma {:induction false} CountUpdate(tasks: seq<Task>, id: nat, t: Task, user: User)
    requires id < |tasks|
    ensures CountClaims(tasks[id := t], user) + (if HeldBy(tasks[id], user) then 1 else 0)
      == CountClaims(tasks, user) + if HeldBy(t, user) then 1 else 0
  {
    var n := |tasks| - 1;
    if id < n {
      CountUpdate(tasks[..n], id, t, user);
      assert tasks[id := t][..n] == tasks[..n][id := t];
    } else {
      assert tasks[id := t][..n] == tasks[..n];
    }
  }
}

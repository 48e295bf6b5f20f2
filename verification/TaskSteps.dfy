/** The statements of a task call, run without others in between, are that call of the workflow. */
module TaskSteps {
  import opened Common
  import opened TaskTable
  import W = Workflow
  import K = WorkflowKeys
  import R = TaskRuns

  /** The statements of the calls that are about task rows only. */
  function StepsOf(tasks: seq<Task>, call: W.Call): seq<R.Step> {
    match call
    case ClaimTask(p, id, at) => [R.CountForClaim(p.user), R.ClaimRow(p, id, at)]
    case ExpireClaims(now) => [R.Expire(now)]
    case CompleteOnly(user, id, at) => [R.CheckClaim(user, id), R.WriteDone(user, id, at)]
    case RejectTask(id) => [R.Reject(id)]
    case RejectBatch(items) => [R.RejectBatch(items)]
    case RequestRework(id) => [R.Rework(id)]
    case ForceRelease(id) => [R.ForceRelease(id)]
    case ReassignTask(id, user, at) => [R.Reassign(id, user, at)]
    case BanWithRevert(user) => [R.RevertRows(CompletedBy(tasks, user))]
    case _ => []
  }

  predicate IsTaskCall(call: W.Call) { StepsOf([], call) != [] }

  function Alone(tasks: seq<Task>): R.Engine { R.Engine(tasks, multiset{}, multiset{}) }

  lemma RunOne(e: R.Engine, step: R.Step)
    ensures R.Run(e, [step]) == R.Apply(e, step)
  {
    assert R.Run(R.Apply(e, step), [step][1..]) == R.Apply(e, step);
  }

  lemma RunTwo(e: R.Engine, a: R.Step, b: R.Step)
    ensures R.Run(e, [a, b]) == R.Apply(R.Apply(e, a), b)
  {
    assert [a, b][1..] == [b];
    RunOne(R.Apply(e, a), b);
  }

  lemma ClaimSteps(s: W.State, isWord: int -> bool, p: ClaimParams, id: nat, at: nat)
    ensures R.Run(Alone(s.tasks), [R.CountForClaim(p.user), R.ClaimRow(p, id, at)])
         == Alone(W.Apply(s, isWord, W.ClaimTask(p, id, at)).tasks)
  {
    RunTwo(Alone(s.tasks), R.CountForClaim(p.user), R.ClaimRow(p, id, at));
  }

  lemma CompleteSteps(s: W.State, isWord: int -> bool, user: User, id: nat, at: nat)
    requires K.Inv(s)
    ensures R.Run(Alone(s.tasks), [R.CheckClaim(user, id), R.WriteDone(user, id, at)])
         == Alone(W.Apply(s, isWord, W.CompleteOnly(user, id, at)).tasks)
  {
    RunTwo(Alone(s.tasks), R.CheckClaim(user, id), R.WriteDone(user, id, at));
    if id < |s.tasks| {
      assert K.Known(s.tasks[id], s.items, s.tokens);
    }
  }

  lemma BulkSteps(s: W.State, isWord: int -> bool, call: W.Call, step: R.Step)
    requires W.IsBulk(call) && StepsOf(s.tasks, call) == [step]
    ensures R.Run(Alone(s.tasks), [step]) == Alone(W.Apply(s, isWord, call).tasks)
  {
    RunOne(Alone(s.tasks), step);
  }

  lemma EditSteps(s: W.State, isWord: int -> bool, call: W.Call, step: R.Step)
    requires call.RejectTask? || call.RequestRework? || call.ForceRelease? || call.ReassignTask?
    requires StepsOf(s.tasks, call) == [step]
    ensures R.Run(Alone(s.tasks), [step]) == Alone(W.Apply(s, isWord, call).tasks)
  {
    RunOne(Alone(s.tasks), step);
  }

  /** Read and write of a call, one right after the other, do to the task rows what the call does in one step. */
  lemma AloneIsCall(s: W.State, isWord: int -> bool, call: W.Call)
    requires K.Inv(s) && IsTaskCall(call)
    ensures R.Run(Alone(s.tasks), StepsOf(s.tasks, call)) == Alone(W.Apply(s, isWord, call).tasks)
  {
    match call
    case ClaimTask(p, id, at) => ClaimSteps(s, isWord, p, id, at);
    case CompleteOnly(user, id, at) => CompleteSteps(s, isWord, user, id, at);
    case ExpireClaims(now) => BulkSteps(s, isWord, call, R.Expire(now));
    case RejectBatch(items) => BulkSteps(s, isWord, call, R.RejectBatch(items));
    case BanWithRevert(user) => BulkSteps(s, isWord, call, R.RevertRows(CompletedBy(s.tasks, user)));
    case RejectTask(id) => EditSteps(s, isWord, call, R.Reject(id));
    case RequestRework(id) => EditSteps(s, isWord, call, R.Rework(id));
    case ForceRelease(id) => EditSteps(s, isWord, call, R.ForceRelease(id));
    case ReassignTask(id, user, at) => EditSteps(s, isWord, call, R.Reassign(id, user, at));
    case _ =>
  }
}

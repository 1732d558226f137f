/**
 The book list with its memory runs within its control skeleton: forgetting the memory turns
 every run of the one into a run of the other.
 */
module RcuProjection {
  import opened Common
  import opened RcuModel
  import opened RcuInvariant
  import opened RcuSteps
  import opened RcuTheorems
  import Skeleton = RcuSkeleton

  function Async(op: Op): bool {
    op.Update? && op.async
  }

  function SpotOf(pc: Pc): (spot: Skeleton.Spot)
    ensures spot.InSection() == pc.InSection() && spot.HoldsLock() == pc.HoldsLock()
    ensures spot.WantsLock() == pc.WantsLock()
  {
    match pc
    case Idle => Skeleton.Resting
    case Enter(op, _) => Skeleton.Searching(if op.Update? then Some(op.async) else None)
    case Walk(op, _, _) => Skeleton.Searching(if op.Update? then Some(op.async) else None)
    case Hit(op, _, _) => Skeleton.Searching(if op.Update? then Some(op.async) else None)
    case Leave(_, _, _) => Skeleton.Leaving
    case Copied(op, _, _, _) => Skeleton.Chosen(Async(op))
    case UpdLocked(op, _, _, _) => Skeleton.Replacing(Async(op))
    case Replaced(op, _, _) => Skeleton.Swapped(Async(op))
    case UpdUnlocked(op, _, _) => Skeleton.Unlocked(Async(op))
    case AddReady(_) => Skeleton.Adding
    case AddLocked(_) => Skeleton.AddHolds
    case Added => Skeleton.Finishing
    case DelWant(_, async) => Skeleton.DelWants(async)
    case DelEnter(_, async) => Skeleton.DelHolds(async)
    case DelWalk(_, async, _) => Skeleton.DelHolds(async)
    case DelHit(_, async, _) => Skeleton.DelHolds(async)
    case DelMiss => Skeleton.Finishing
    case DelDone(async, _) => Skeleton.DelFound(async)
    case Reclaim(async, _) => Skeleton.Reclaiming(async)
    case SyncWait(oldB) => Skeleton.Waiting(oldB)
    case SyncDone(_) => Skeleton.Freeing
  }

  function Spots(tasks: seq<Pc>): (spots: seq<Skeleton.Spot>)
    ensures |spots| == |tasks| && forall t :: 0 <= t < |tasks| ==> spots[t] == SpotOf(tasks[t])
  {
    seq(|tasks|, t requires 0 <= t < |tasks| => SpotOf(tasks[t]))
  }

  function Project(s: State): Skeleton.Control {
    Skeleton.Control(s.lock, Spots(s.tasks), s.graces)
  }

  lemma SameSections(s: State)
    ensures Project(s).Sections() == s.Sections()
  {
    hide SpotOf;
    assert forall t :: t in Project(s).Sections() <==> t in s.Sections();
  }

  // Steps whose only trace in the skeleton is where the task stands.
  predicate Inner(step: Step) {
    || step.LoadHeadStep? || step.VisitStep? || step.AllocCopyStep? || step.InsertStep?
    || step.ReplaceStep? || step.DelVisitStep? || step.UnlinkStep? || step.KfreeStep?
  }

  // The move of the skeleton that a step is.
  function MoveOf(s: State, step: Step, s': State): Skeleton.Move
    requires !step.CallbackStep? ==> step.t < |s.tasks| == |s'.tasks|
  {
    match step
    case CallbackStep(a) => Skeleton.RunCallback(a)
    case BeginReadStep(t, _, _) => Skeleton.Begin(t, SpotOf(s'.tasks[t]))
    case AddAllocStep(t, _, _) => Skeleton.Begin(t, SpotOf(s'.tasks[t]))
    case DelRequestStep(t, _, _) => Skeleton.Begin(t, SpotOf(s'.tasks[t]))
    case LockStep(t) => Skeleton.TakeLock(t)
    case UnlockStep(t) => Skeleton.DropLock(t)
    case EndReadStep(t) => Skeleton.Exit(t)
    case CallRcuStep(t) => Skeleton.StartGrace(t, if s.tasks[t].Reclaim? then s.tasks[t].oldB else 0)
    case SyncBeginStep(t) => Skeleton.StartGrace(t, if s.tasks[t].Reclaim? then s.tasks[t].oldB else 0)
    case SyncEndStep(t) => Skeleton.EndGrace(t)
    case _ => Skeleton.Work(step.t, SpotOf(s'.tasks[step.t]))
  }

  lemma MovesOneSpot(s: State, step: Step, s': State)
    requires Next(s, step, s') && !step.CallbackStep?
    ensures step.t < |s.tasks| == |s'.tasks|
    ensures Spots(s'.tasks) == Spots(s.tasks)[step.t := SpotOf(s'.tasks[step.t])]
  {
    hide Next, SpotOf;
    MovesOne(s, step, s');
  }

  lemma SearchProjects(s: State, step: Step, s': State)
    requires Inv(s) && Next(s, step, s')
    requires step.LoadHeadStep? || step.VisitStep? || step.AllocCopyStep? || step.DelVisitStep?
    ensures Skeleton.Next(Project(s), Skeleton.Work(step.t, SpotOf(s'.tasks[step.t])), Project(s'))
  {
    hide Inv, Spots;
    MovesOneSpot(s, step, s');
  }

  lemma ChangeProjects(s: State, step: Step, s': State)
    requires Next(s, step, s')
    requires step.InsertStep? || step.ReplaceStep? || step.UnlinkStep? || step.KfreeStep?
    ensures Skeleton.Next(Project(s), Skeleton.Work(step.t, SpotOf(s'.tasks[step.t])), Project(s'))
  {
    hide ReplaceHeap, UnlinkHeap, Free, Spots;
    MovesOneSpot(s, step, s');
  }

  lemma BeginProjects(s: State, step: Step, s': State)
    requires Next(s, step, s') && (step.BeginReadStep? || step.AddAllocStep? || step.DelRequestStep?)
    ensures Skeleton.Next(Project(s), Skeleton.Begin(step.t, SpotOf(s'.tasks[step.t])), Project(s'))
  {
    hide Spots;
    MovesOneSpot(s, step, s');
  }

  lemma LockProjects(s: State, t: Tid, s': State)
    requires Lock(s, t, s')
    ensures Skeleton.Next(Project(s), Skeleton.TakeLock(t), Project(s'))
  {
    hide Spots;
    MovesOneSpot(s, LockStep(t), s');
  }

  lemma UnlockProjects(s: State, t: Tid, s': State)
    requires Unlock(s, t, s')
    ensures Skeleton.Next(Project(s), Skeleton.DropLock(t), Project(s'))
  {
    hide Spots;
    MovesOneSpot(s, UnlockStep(t), s');
  }

  lemma ExitProjects(s: State, t: Tid, s': State)
    requires EndRead(s, t, s')
    ensures Skeleton.Next(Project(s), Skeleton.Exit(t), Project(s'))
  {
    hide Spots;
    MovesOneSpot(s, EndReadStep(t), s');
  }

  lemma InnerProjects(s: State, step: Step, s': State)
    requires Inv(s) && Next(s, step, s') && Inner(step)
    ensures step.t < |s.tasks| == |s'.tasks|
    ensures Skeleton.Next(Project(s), Skeleton.Work(step.t, SpotOf(s'.tasks[step.t])), Project(s'))
  {
    hide Inv, Next, Project, Skeleton.Next;
    MovesOne(s, step, s');
    if step.InsertStep? || step.ReplaceStep? || step.UnlinkStep? || step.KfreeStep? {
      ChangeProjects(s, step, s');
    } else {
      SearchProjects(s, step, s');
    }
  }

  lemma StartProjects(s: State, step: Step, s': State)
    requires Inv(s) && Next(s, step, s') && (step.CallRcuStep? || step.SyncBeginStep?)
    ensures step.t < |s.tasks| == |s'.tasks|
    ensures Skeleton.Next(Project(s), MoveOf(s, step, s'), Project(s'))
  {
    hide Inv, Spots, KnowsOk, HeldOk;
    MovesOneSpot(s, step, s');
    TaskFacts(s, step.t);
    SameSections(s);
  }

  lemma EndProjects(s: State, t: Tid, s': State)
    requires SyncEnd(s, t, s')
    ensures Skeleton.Next(Project(s), Skeleton.EndGrace(t), Project(s'))
  {
    hide Spots;
    MovesOneSpot(s, SyncEndStep(t), s');
  }

  lemma CallbackProjects(s: State, a: Addr, s': State)
    requires Inv(s) && Callback(s, a, s')
    ensures Skeleton.Next(Project(s), Skeleton.RunCallback(a), Project(s'))
  {
    hide Inv, KnowsOk, HeldOk;
    forall t | 0 <= t < |s.tasks| ensures Spots(s.tasks)[t] != Skeleton.Waiting(a) {
      TaskFacts(s, t);
    }
  }

  lemma StepProjects(s: State, step: Step, s': State)
    requires Inv(s) && Next(s, step, s')
    ensures !step.CallbackStep? ==> step.t < |s.tasks| == |s'.tasks|
    ensures Skeleton.Next(Project(s), MoveOf(s, step, s'), Project(s'))
  {
    hide Inv, Skeleton.Next, Project, BeginRead, LoadHead, Visit, EndRead, AllocCopy, AddAlloc, DelRequest, Lock, Unlock;
    hide Insert, Replace, DelVisit, Unlink, CallRcu, SyncBegin, SyncEnd, Kfree, Callback;
    match step
    case CallbackStep(a) => CallbackProjects(s, a, s');
    case LockStep(t) => MovesOne(s, step, s'); LockProjects(s, t, s');
    case UnlockStep(t) => MovesOne(s, step, s'); UnlockProjects(s, t, s');
    case EndReadStep(t) => MovesOne(s, step, s'); ExitProjects(s, t, s');
    case BeginReadStep(_, _, _) => MovesOne(s, step, s'); BeginProjects(s, step, s');
    case AddAllocStep(_, _, _) => MovesOne(s, step, s'); BeginProjects(s, step, s');
    case DelRequestStep(_, _, _) => MovesOne(s, step, s'); BeginProjects(s, step, s');
    case CallRcuStep(_) => StartProjects(s, step, s');
    case SyncBeginStep(_) => StartProjects(s, step, s');
    case SyncEndStep(t) => MovesOne(s, step, s'); EndProjects(s, t, s');
    case _ => InnerProjects(s, step, s');
  }

  // Every run of the book list is a run of the skeleton.
  lemma RunProjects(states: seq<State>, steps: seq<Step>)
      returns (controls: seq<Skeleton.Control>, moves: seq<Skeleton.Move>)
    requires IsRun(states, steps)
    ensures Skeleton.IsRun(controls, moves) && |controls| == |states|
    ensures forall i :: 0 <= i < |states| ==> controls[i] == Project(states[i])
  {
    hide Inv, Next, Skeleton.Next, MoveOf;
    controls := seq(|states|, i requires 0 <= i < |states| => Project(states[i]));
    moves := [];
    while |moves| < |steps|
      invariant |moves| <= |steps|
      invariant forall i :: 0 <= i < |moves| ==> Skeleton.Next(controls[i], moves[i], controls[i + 1])
    {
      var k := |moves|;
      RunInv(states, steps, k);
      assert Next(states[k], steps[k], states[k + 1]);
      StepProjects(states[k], steps[k], states[k + 1]);
      moves := moves + [MoveOf(states[k], steps[k], states[k + 1])];
    }
  }
}

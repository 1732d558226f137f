/**
 Progress of the RCU book list: what a task keeps, when it has a step, why nothing gets stuck,
 and when the contract of list_replace_rcu is met.
 */
module RcuControl {
  import opened Common
  import opened RcuModel
  import opened RcuInvariant
  import opened RcuSteps
  import opened RcuTheorems
  import opened RcuProjection
  import Skeleton = RcuSkeleton

  // A task that waits for a grace period holds neither the lock nor a section open, and an
  // idle task has given back everything: lock, section, unpublished node, node to free.
  lemma NothingKept(states: seq<State>, steps: seq<Step>, k: nat, t: Tid)
    requires IsRun(states, steps) && k < |states| && t < |states[k].tasks|
    ensures var s := states[k];
            && (s.tasks[t].SyncWait? ==> s.lock != Some(t) && forall a :: a in s.graces ==> t !in s.graces[a])
            && (s.tasks[t].Idle? ==>
                  && s.lock != Some(t)
                  && (forall a :: a in s.graces ==> t !in s.graces[a])
                  && (forall a :: a in s.heap ==>
                        && s.heap[a].status != Fresh(t)
                        && (s.heap[a].status.Retired? ==> s.heap[a].status.claim != ByTask(t))))
  {
    RunInv(states, steps, k);
    var s := states[k];
    hide ListOk, HistoryOk, FrozenOk, SyncedOk, TasksOk;
    forall a | a in s.graces && t in s.graces[a] ensures s.Open(t) {
      assert t in s.Sections();
    }
    forall a | a in s.heap ensures OwnedOk(s.heap, s.tasks, s.graces, a) {
    }
  }

  // ---------- progress ----------

  predicate Quiescent(s: State) {
    (forall t :: 0 <= t < |s.tasks| ==> s.tasks[t] == Idle) && s.graces == map[]
  }

  // Steps that begin a new operation.
  predicate Begins(step: Step) {
    step.BeginReadStep? || step.AddAllocStep? || step.DelRequestStep?
  }

  // Task t holds the lock and is about to call list_replace_rcu on a node off the list.
  predicate Stale(s: State, t: Tid)
    requires |s.log| > 0
  {
    t < |s.tasks| && s.tasks[t].UpdLocked? && s.tasks[t].oldB !in s.Order()
  }

  // The contract of list_replace_rcu is met wherever it is about to be called.
  ghost predicate ReplaceContract(s: State)
    requires |s.log| > 0
  {
    forall t: Tid :: !Stale(s, t)
  }

  predicate StepOf(step: Step, t: Tid) {
    !step.CallbackStep? && step.t == t && !Begins(step)
  }

  lemma SearcherGoesOn(s: State, t: Tid) returns (step: Step, s': State)
    requires Inv(s) && t < |s.tasks| && (s.tasks[t].Enter? || s.tasks[t].Walk? || s.tasks[t].Hit?)
    ensures Next(s, step, s') && StepOf(step, t)
  {
    hide Inv, SearchOk;
    TaskFacts(s, t);
    match s.tasks[t]
    case Enter(op, id) =>
      step, s' := LoadHeadStep(t), s.At(t, Walk(op, id, s.head));
    case Walk(op, id, cur) =>
      step := VisitStep(t);
      s' := s.At(t, if cur == End then Leave(op, id, NotFound) else Visited(op, id, cur.at, s.heap[cur.at]));
    case Hit(op, id, oldB) =>
      step, s' := AllocCopyStep(t, None), s.At(t, Leave(op, id, NoMemory));
  }

  lemma LeaverGoesOn(s: State, t: Tid) returns (step: Step, s': State)
    requires Inv(s) && t < |s.tasks| && (s.tasks[t].Leave? || s.tasks[t].UpdUnlocked?)
    ensures Next(s, step, s') && StepOf(step, t)
  {
    hide Inv, AnswerOk;
    TaskFacts(s, t);
    step := EndReadStep(t);
    var graces := map a | a in s.graces :: s.graces[a] - {t};
    if s.tasks[t].Leave? {
      s' := s.At(t, Idle).(graces := graces);
    } else {
      s' := s.At(t, Reclaim(s.tasks[t].op.async, s.tasks[t].oldB)).(graces := graces);
    }
  }

  lemma LockerGoesOn(s: State, t: Tid) returns (step: Step, s': State)
    requires Inv(s) && t < |s.tasks| && s.tasks[t].WantsLock() && s.lock == None
    ensures Next(s, step, s') && StepOf(step, t)
  {
    hide Inv;
    step := LockStep(t);
    match s.tasks[t]
    case Copied(op, id, oldB, n) => s' := s.At(t, UpdLocked(op, id, oldB, n)).(lock := Some(t));
    case AddReady(n) => s' := s.At(t, AddLocked(n)).(lock := Some(t));
    case DelWant(id, async) => s' := s.At(t, DelEnter(id, async)).(lock := Some(t));
  }

  lemma UnlockerGoesOn(s: State, t: Tid) returns (step: Step, s': State)
    requires t < |s.tasks| && (s.tasks[t].Replaced? || s.tasks[t].Added? || s.tasks[t].DelMiss? || s.tasks[t].DelDone?)
    ensures Next(s, step, s') && StepOf(step, t)
  {
    step := UnlockStep(t);
    match s.tasks[t]
    case Replaced(op, id, oldB) => s' := s.At(t, UpdUnlocked(op, id, oldB)).(lock := None);
    case Added => s' := s.At(t, Idle).(lock := None);
    case DelMiss => s' := s.At(t, Idle).(lock := None);
    case DelDone(async, oldB) => s' := s.At(t, Reclaim(async, oldB)).(lock := None);
  }

  // What the invariant says of a position of the list and the one before it.
  lemma ListPosition(s: State, a: Addr) returns (k: nat)
    requires Inv(s) && a in s.Order()
    ensures k < |s.Order()| && s.Order()[k] == a && a in s.heap
    ensures k > 0 ==> s.Order()[k - 1] in s.heap
  {
    hide HistoryOk, FrozenOk, GraceOk, SyncedOk, OwnersOk, LockOk, TasksOk;
    k :| 0 <= k < |s.Order()| && s.Order()[k] == a;
    assert k > 0 ==> s.Order()[k - 1] in s.heap;
  }

  lemma ReplacerGoesOn(s: State, t: Tid) returns (step: Step, s': State)
    requires Inv(s) && |s.log| > 0 && t < |s.tasks| && s.tasks[t].UpdLocked? && !Stale(s, t)
    ensures Next(s, step, s') && StepOf(step, t)
  {
    var UpdLocked(op, id, oldB, n) := s.tasks[t];
    hide ListOk, HistoryOk, FrozenOk, GraceOk, SyncedOk, OwnersOk, LockOk, TasksOk, ReplaceHeap;
    TaskFacts(s, t);
    var k := ListPosition(s, oldB);
    step := ReplaceStep(t, k);
    s' := s.At(t, Replaced(op, id, oldB)).(
      heap := ReplaceHeap(s.heap, s.Order(), k, n, Retired(|s.log|, ByTask(t))),
      head := HeadAfter(s.head, k, To(n)),
      log := s.log + [s.Order()[k := n]]);
  }

  lemma DeleterGoesOn(s: State, t: Tid) returns (step: Step, s': State)
    requires Inv(s) && t < |s.tasks| && s.tasks[t].DelHit?
    ensures Next(s, step, s') && StepOf(step, t)
  {
    var DelHit(id, async, oldB) := s.tasks[t];
    hide ListOk, HistoryOk, FrozenOk, GraceOk, SyncedOk, OwnersOk, LockOk, TasksOk, UnlinkHeap, NoneBefore;
    TaskFacts(s, t);
    assert oldB in s.Order();
    hide DelHitOk, HeldOk, OwnsOk, KnowsOk;
    var k := ListPosition(s, oldB);
    step := UnlinkStep(t, k);
    s' := s.At(t, DelDone(async, oldB)).(
      heap := UnlinkHeap(s.heap, s.Order(), k, Retired(|s.log|, ByTask(t))),
      head := HeadAfter(s.head, k, s.heap[oldB].next),
      log := s.log + [Without(s.Order(), k)]);
  }

  lemma InserterGoesOn(s: State, t: Tid) returns (step: Step, s': State)
    requires Inv(s) && t < |s.tasks| && s.tasks[t].AddLocked?
    ensures Next(s, step, s') && StepOf(step, t)
  {
    hide ListOk, HistoryOk, FrozenOk, GraceOk, SyncedOk, OwnersOk, LockOk, TasksOk;
    TaskFacts(s, t);
    var n := s.tasks[t].newB;
    step := InsertStep(t);
    s' := s.At(t, Added).(
      heap := InsertHeap(s.heap, s.head, n),
      head := To(n),
      log := s.log + [[n] + s.Order()]);
  }

  lemma HolderGoesOn(s: State, t: Tid) returns (step: Step, s': State)
    requires Inv(s) && |s.log| > 0 && t < |s.tasks| && s.tasks[t].HoldsLock() && !Stale(s, t)
    ensures Next(s, step, s') && StepOf(step, t)
  {
    hide Inv, Stale;
    var pc := s.tasks[t];
    if pc.UpdLocked? {
      step, s' := ReplacerGoesOn(s, t);
    } else if pc.AddLocked? {
      step, s' := InserterGoesOn(s, t);
    } else if pc.DelEnter? {
      step, s' := LoadHeadStep(t), s.At(t, DelWalk(pc.id, pc.async, s.head));
    } else if pc.DelWalk? {
      step, s' := DelWalkerGoesOn(s, t);
    } else if pc.DelHit? {
      step, s' := DeleterGoesOn(s, t);
    } else {
      step, s' := UnlockerGoesOn(s, t);
    }
  }

  lemma DelWalkerGoesOn(s: State, t: Tid) returns (step: Step, s': State)
    requires Inv(s) && t < |s.tasks| && s.tasks[t].DelWalk?
    ensures Next(s, step, s') && StepOf(step, t)
  {
    TaskFacts(s, t);
    var DelWalk(id, async, cur) := s.tasks[t];
    step := DelVisitStep(t);
    if cur.To? {
      assert Linking(s.heap, s.Order());
      DelVisitKnows(s.heap, s.Order(), cur.at, id);
    }
    hide Inv;
    s' := s.At(t, if cur == End then DelMiss
                  else if s.heap[cur.at].book.id == id then DelHit(id, async, cur.at)
                  else DelWalk(id, async, s.heap[cur.at].next));
  }

  lemma WaiterGoesOn(s: State, t: Tid) returns (step: Step, s': State)
    requires Inv(s) && t < |s.tasks| && !Skeleton.Blocked(Project(s), t) && (s.tasks[t].SyncWait? || s.tasks[t].SyncDone?)
    ensures Next(s, step, s') && StepOf(step, t)
  {
    hide Inv, KnowsOk, HeldOk;
    TaskFacts(s, t);
    var oldB := s.tasks[t].oldB;
    if s.tasks[t].SyncWait? {
      step, s' := SyncEndStep(t), s.At(t, SyncDone(oldB)).(graces := s.graces - {oldB});
      assert SyncEnd(s, t, s');
    } else {
      step, s' := KfreeStep(t), s.At(t, Idle).(heap := Free(s.heap, oldB));
      assert Kfree(s, t, s');
    }
  }

  lemma ReclaimerGoesOn(s: State, t: Tid) returns (step: Step, s': State)
    requires Inv(s) && t < |s.tasks| && s.tasks[t].Reclaim?
    ensures Next(s, step, s') && StepOf(step, t)
  {
    hide Inv, KnowsOk, HeldOk;
    TaskFacts(s, t);
    var Reclaim(async, oldB) := s.tasks[t];
    if async {
      step := CallRcuStep(t);
      s' := s.At(t, Idle).(
        heap := s.heap[oldB := s.heap[oldB].(status := Retired(s.heap[oldB].status.gone, ByCallback))],
        graces := s.graces[oldB := s.Sections()]);
      assert CallRcu(s, t, s');
    } else {
      step, s' := SyncBeginStep(t), s.At(t, SyncWait(oldB)).(graces := s.graces[oldB := s.Sections()]);
      assert SyncBegin(s, t, s');
    }
  }

  // Every task that is neither idle nor blocked has a step.
  lemma UnblockedGoesOn(s: State, t: Tid) returns (step: Step, s': State)
    requires Inv(s) && |s.log| > 0 && t < |s.tasks| && s.tasks[t] != Idle && !Stale(s, t)
    requires !Skeleton.Blocked(Project(s), t)
    ensures Next(s, step, s') && StepOf(step, t)
  {
    hide Inv, Next;
    var pc := s.tasks[t];
    if pc.HoldsLock() {
      step, s' := HolderGoesOn(s, t);
    } else if pc.WantsLock() {
      step, s' := LockerGoesOn(s, t);
    } else if pc.Reclaim? {
      step, s' := ReclaimerGoesOn(s, t);
    } else if pc.SyncWait? || pc.SyncDone? {
      step, s' := WaiterGoesOn(s, t);
    } else if pc.Leave? || pc.UpdUnlocked? {
      step, s' := LeaverGoesOn(s, t);
    } else {
      step, s' := SearcherGoesOn(s, t);
    }
  }

  // A task in the middle of an operation has a step if and only if it is neither blocked nor
  // about to call list_replace_rcu outside its contract.
  lemma GoesOnExactly(states: seq<State>, steps: seq<Step>, k: nat, t: Tid)
    requires IsRun(states, steps) && k < |states| && t < |states[k].tasks| && states[k].tasks[t] != Idle
    ensures |states[k].log| > 0
    ensures (exists step, s' :: StepOf(step, t) && Next(states[k], step, s'))
            <==> !Skeleton.Blocked(Project(states[k]), t) && !Stale(states[k], t)
  {
    hide Inv, Next, Skeleton.Blocked, Project, Stale;
    var s := states[k];
    RunInv(states, steps, k);
    LogNotEmpty(s);
    if !Skeleton.Blocked(Project(s), t) && !Stale(s, t) {
      var step, s' := UnblockedGoesOn(s, t);
    }
    forall step, s' | StepOf(step, t) && Next(s, step, s')
      ensures !Skeleton.Blocked(Project(s), t) && !Stale(s, t)
    {
      NeitherBlockedNorStale(s, step, s', t);
    }
  }

  lemma NeitherBlockedNorStale(s: State, step: Step, s': State, t: Tid)
    requires |s.log| > 0 && Next(s, step, s') && StepOf(step, t)
    ensures !Skeleton.Blocked(Project(s), t) && !Stale(s, t)
  {
    hide ReplaceHeap, UnlinkHeap, Free, Visited;
    if t < |s.tasks| && (s.tasks[t].WantsLock() || s.tasks[t].SyncWait? || s.tasks[t].UpdLocked?) {
      OnlyStep(s, step, s', t);
    }
  }

  // The one kind of step that a task has where it may have to wait.
  lemma OnlyStep(s: State, step: Step, s': State, t: Tid)
    requires Next(s, step, s') && StepOf(step, t) && t < |s.tasks|
    ensures s.tasks[t].WantsLock() ==> step.LockStep?
    ensures s.tasks[t].SyncWait? ==> step.SyncEndStep?
    ensures s.tasks[t].UpdLocked? ==> step.ReplaceStep?
  {
    hide ReplaceHeap, UnlinkHeap, Free, Visited;
  }

  // A callback left over when all tasks are idle may run.
  lemma CallbackGoesOn(s: State, a: Addr) returns (step: Step, s': State)
    requires Inv(s) && a in s.graces && forall t :: 0 <= t < |s.tasks| ==> s.tasks[t] == Idle
    ensures Next(s, step, s') && !Begins(step)
  {
    hide ListOk, HistoryOk, FrozenOk, SyncedOk, LockOk, TasksOk;
    assert s.Sections() == {};
    assert a in s.heap && s.heap[a].status.Retired? && s.graces[a] == {};
    assert OwnedOk(s.heap, s.tasks, s.graces, a);
    step := CallbackStep(a);
    s' := s.(heap := Free(s.heap, a), graces := s.graces - {a});
  }

  // Nothing gets stuck: unless every task is idle and no grace period is outstanding, some
  // operation already under way can take a step, without any new operation starting; or a
  // task is about to call list_replace_rcu on a node off the list.
  lemma NeverStuck(states: seq<State>, steps: seq<Step>, k: nat) returns (step: Step, s': State)
    requires IsRun(states, steps) && k < |states| && !Quiescent(states[k])
    ensures |states[k].log| > 0
    ensures (Next(states[k], step, s') && !Begins(step)) || !ReplaceContract(states[k])
  {
    hide Inv, Next, Stale, Skeleton.Blocked, Project, SpotOf;
    var s := states[k];
    RunInv(states, steps, k);
    LogNotEmpty(s);
    step, s' := CallbackStep(0), s;
    if t: nat :| t < |s.tasks| && s.tasks[t] != Idle {
      var u := UnblockedTask(states, steps, k, t);
      if !Stale(s, u) {
        step, s' := UnblockedGoesOn(s, u);
      }
    } else {
      var a :| a in s.graces;
      step, s' := CallbackGoesOn(s, a);
    }
  }

  lemma UnblockedTask(states: seq<State>, steps: seq<Step>, k: nat, t: Tid) returns (u: Tid)
    requires IsRun(states, steps) && k < |states| && t < |states[k].tasks| && states[k].tasks[t] != Idle
    ensures u < |states[k].tasks| && states[k].tasks[u] != Idle && !Skeleton.Blocked(Project(states[k]), u)
  {
    hide Inv, Next, Skeleton.Inv, Skeleton.Blocked, Skeleton.WaitChain, Skeleton.Next;
    var controls, moves := RunProjects(states, steps);
    Skeleton.RunInv(controls, moves, k);
    var chain := Skeleton.SomeoneUnblocked(controls[k], t);
    u := chain[|chain| - 1];
  }

  // ---------- serialised updaters ----------

  // The task has begun to look for, or has chosen, a node that it means to take off the list.
  predicate Updating(pc: Pc) {
    || ((pc.Enter? || pc.Walk?) && pc.op.Update?)
    || pc.Hit? || pc.Copied? || pc.UpdLocked?
    || pc.DelEnter? || pc.DelWalk? || pc.DelHit?
  }

  // At most one task is updating.
  ghost predicate Serialised(s: State) {
    forall t, u :: 0 <= t < u < |s.tasks| ==> !(Updating(s.tasks[t]) && Updating(s.tasks[u]))
  }

  ghost predicate TargetsListed(s: State) {
    forall t :: 0 <= t < |s.tasks| && Updating(s.tasks[t]) && s.tasks[t].Held().To? ==>
      s.tasks[t].Held().at in s.heap && s.heap[s.tasks[t].Held().at].status.Linked?
  }

  lemma NextIsListed(s: State, a: Addr)
    requires Inv(s) && a in s.heap && s.heap[a].status.Linked? && s.heap[a].next.To?
    ensures s.heap[a].next.at in s.heap && s.heap[s.heap[a].next.at].status.Linked?
  {
    hide HistoryOk, FrozenOk, GraceOk, SyncedOk, OwnersOk, LockOk, TasksOk;
    var order := s.Order();
    var i :| 0 <= i < |order| && order[i] == a;
    assert order[i] in s.heap;
    assert order[i + 1] in s.heap;
  }

  lemma HeadIsListed(s: State)
    requires Inv(s) && s.head.To?
    ensures s.head.at in s.heap && s.heap[s.head.at].status.Linked?
  {
    hide HistoryOk, FrozenOk, GraceOk, SyncedOk, OwnersOk, LockOk, TasksOk;
    assert s.Order()[0] in s.heap;
  }

  // A step that leaves the statuses of listed nodes alone keeps the targets of the others.
  lemma TargetsMove(s: State, s': State, t: Tid)
    requires TargetsListed(s) && t < |s.tasks| == |s'.tasks| && s'.tasks == s.tasks[t := s'.tasks[t]]
    requires forall a :: a in s.heap && s.heap[a].status.Linked? ==> a in s'.heap && s'.heap[a].status.Linked?
    requires Updating(s'.tasks[t]) && s'.tasks[t].Held().To? ==>
               s'.tasks[t].Held().at in s'.heap && s'.heap[s'.tasks[t].Held().at].status.Linked?
    ensures TargetsListed(s')
  {
  }

  // Only list_replace_rcu and list_del_rcu take nodes off the list.
  lemma ListedStays(s: State, step: Step, s': State, a: Addr)
    requires Inv(s) && Next(s, step, s') && !step.ReplaceStep? && !step.UnlinkStep?
    requires a in s.heap && s.heap[a].status.Linked?
    ensures a in s'.heap && s'.heap[a].status.Linked?
  {
    hide Inv;
  }

  lemma WalkKeepsTargets(s: State, step: Step, s': State)
    requires Inv(s) && TargetsListed(s) && Next(s, step, s') && (step.LoadHeadStep? || step.VisitStep?)
    ensures TargetsListed(s')
  {
    hide Inv;
    if step.LoadHeadStep? {
      if s.head.To? {
        HeadIsListed(s);
      }
    } else {
      var cur := s.tasks[step.t].cur;
      if cur.To? && Updating(s.tasks[step.t]) && s.heap[cur.at].next.To? {
        NextIsListed(s, cur.at);
      }
    }
    TargetsMove(s, s', step.t);
  }

  lemma TakeKeepsTargets(s: State, step: Step, s': State)
    requires Inv(s) && Serialised(s) && TargetsListed(s) && Next(s, step, s') && (step.ReplaceStep? || step.UnlinkStep?)
    ensures TargetsListed(s')
  {
    hide Inv;
    var t := step.t;
    assert Updating(s.tasks[t]) && !Updating(s'.tasks[t]);
    forall u | 0 <= u < |s'.tasks| ensures !Updating(s'.tasks[u]) {
      if u != t {
        assert s'.tasks[u] == s.tasks[u];
      }
    }
  }

  lemma StepKeepsTargets(s: State, step: Step, s': State)
    requires Inv(s) && Serialised(s) && TargetsListed(s) && Next(s, step, s')
    ensures TargetsListed(s')
  {
    hide Inv, Serialised, TargetsListed, Next;
    if step.LoadHeadStep? || step.VisitStep? {
      WalkKeepsTargets(s, step, s');
    } else if step.ReplaceStep? || step.UnlinkStep? {
      TakeKeepsTargets(s, step, s');
    } else {
      QuietKeepsTargets(s, step, s');
    }
  }

  // Steps that take nothing off the list and do not move a search.
  predicate Quiet(step: Step) {
    !step.LoadHeadStep? && !step.VisitStep? && !step.ReplaceStep? && !step.UnlinkStep?
  }

  lemma QuietKeepsTargets(s: State, step: Step, s': State)
    requires Inv(s) && TargetsListed(s) && Next(s, step, s') && Quiet(step)
    ensures TargetsListed(s')
  {
    hide Inv, Next;
    forall a | a in s.heap && s.heap[a].status.Linked? ensures a in s'.heap && s'.heap[a].status.Linked? {
      ListedStays(s, step, s', a);
    }
    QuietTarget(s, step, s');
    if !step.CallbackStep? {
      TargetsMove(s, s', step.t);
    }
  }

  lemma QuietTarget(s: State, step: Step, s': State)
    requires Next(s, step, s') && Quiet(step)
    ensures if step.CallbackStep? then s'.tasks == s.tasks
            else && step.t < |s.tasks| == |s'.tasks| && s'.tasks == s.tasks[step.t := s'.tasks[step.t]]
                 && (Updating(s'.tasks[step.t]) && s'.tasks[step.t].Held().To? ==>
                       Updating(s.tasks[step.t]) && s'.tasks[step.t].Held() == s.tasks[step.t].Held())
  {
    if !step.CallbackStep? {
      MovesOne(s, step, s');
      if step.AllocCopyStep? || step.LockStep? {
        hide Insert, CallRcu, SyncBegin;
      } else {
        NotAfterTarget(s, step, s');
      }
    }
  }

  // Other steps leave the task without a target.
  lemma NotAfterTarget(s: State, step: Step, s': State)
    requires Next(s, step, s') && Quiet(step) && !step.CallbackStep? && !step.AllocCopyStep? && !step.LockStep?
    ensures step.t < |s'.tasks| && !(Updating(s'.tasks[step.t]) && s'.tasks[step.t].Held().To?)
  {
    hide Free;
  }

  lemma {:induction false} SerialTargets(states: seq<State>, steps: seq<Step>, k: nat)
    requires IsRun(states, steps) && k < |states| && forall i :: 0 <= i < k ==> Serialised(states[i])
    ensures TargetsListed(states[k])
  {
    hide Inv, Next, Serialised;
    if k > 0 {
      SerialTargets(states, steps, k - 1);
      RunInv(states, steps, k - 1);
      StepKeepsTargets(states[k - 1], steps[k - 1], states[k]);
    }
  }

  // When updaters are serialised, with any number of readers beside them, the contract of
  // list_replace_rcu is met whenever it is called.
  lemma SerialisedMeetsContract(states: seq<State>, steps: seq<Step>, k: nat)
    requires IsRun(states, steps) && k < |states| && forall i :: 0 <= i < k ==> Serialised(states[i])
    ensures |states[k].log| > 0 && ReplaceContract(states[k])
  {
    var s := states[k];
    RunInv(states, steps, k);
    SerialTargets(states, steps, k);
    hide HistoryOk, FrozenOk, GraceOk, SyncedOk, OwnersOk, LockOk, TasksOk, Next, Serialised;
    forall t: Tid ensures !Stale(s, t) {
      if t < |s.tasks| && s.tasks[t].UpdLocked? {
        assert Updating(s.tasks[t]);
      }
    }
  }
}

/**
 Exactly when list_replace_rcu is called on a node that is no longer on the list, and a run
 of two overlapping borrow_book calls in which that happens.
 */
module RcuContract {
  import opened Common
  import opened RcuModel
  import opened RcuInvariant
  import opened RcuSteps
  import opened RcuTheorems
  import opened RcuControl
  import opened RcuRuns

  // The step takes node a off the list.
  predicate TakesOff(s: State, step: Step, a: Addr) {
    && (step.ReplaceStep? || step.UnlinkStep?) && step.t < |s.tasks|
    && ((s.tasks[step.t].UpdLocked? || s.tasks[step.t].DelHit?) && s.tasks[step.t].oldB == a)
  }

  lemma TakenOff(s: State, step: Step, s': State, a: Addr)
    requires Inv(s) && Next(s, step, s') && a in s.heap && s.heap[a].status.Linked?
    ensures a in s'.heap && (s'.heap[a].status.Unlinked() <==> TakesOff(s, step, a))
    ensures !s'.heap[a].status.Fresh?
  {
    hide Inv;
    if step.ReplaceStep? {
      hide ReplaceHeap, Relinked, Spliced;
      ReplaceFrame(s, step.t, step.k, s');
      TakenByReplace(s, step.t, step.k, s', a);
    } else if step.UnlinkStep? {
      hide UnlinkHeap;
      TakenByUnlink(s, step.t, step.k, s', a);
    } else {
      ListedStays(s, step, s', a);
    }
  }

  lemma TakenByReplace(s: State, t: Tid, k: nat, s': State, a: Addr)
    requires Inv(s) && Replace(s, t, k, s') && a in s.heap && s.heap[a].status.Linked?
    requires s.heap[s.tasks[t].newB].status == Fresh(t)
    ensures a in s'.heap && (s'.heap[a].status.Unlinked() <==> s.tasks[t].oldB == a) && !s'.heap[a].status.Fresh?
  {
    hide ListOk, HistoryOk, FrozenOk, GraceOk, SyncedOk, OwnersOk, LockOk, TasksOk, Spliced, ReplaceHeap;
    ReplaceRelinks(s, t, k, s');
  }

  lemma TakenByUnlink(s: State, t: Tid, k: nat, s': State, a: Addr)
    requires Inv(s) && Unlink(s, t, k, s') && a in s.heap && s.heap[a].status.Linked?
    ensures a in s'.heap && (s'.heap[a].status.Unlinked() <==> s.tasks[t].oldB == a) && !s'.heap[a].status.Fresh?
  {
    hide ListOk, HistoryOk, FrozenOk, GraceOk, SyncedOk, OwnersOk, LockOk, TasksOk, Spliced, UnlinkHeap;
    UnlinkRelinks(s, t, k, s');
  }

  // A section that began before order number n of the log has been open ever since state j,
  // whose log had n orders.
  lemma {:induction false} OpenEverSince(states: seq<State>, steps: seq<Step>, j: nat, k: nat, t: Tid)
    requires IsRun(states, steps) && j < k < |states| && states[k].Open(t) && states[k].Sized()
    requires states[k].since[t] < |states[j].log| < |states[j + 1].log|
    ensures SameSection(states, t, j + 1, k)
    decreases k
  {
    hide Inv, Next, Kept;
    if k > j + 1 {
      RunInv(states, steps, k - 1);
      LogNotEmpty(states[k - 1]);
      SectionStarts(states[k - 1], steps[k - 1], states[k], t);
      LogOfRun(states, steps, j + 1, k);
      OpenEverSince(states, steps, j, k - 1, t);
    }
  }

  lemma LogGrows(s: State, step: Step, s': State)
    requires Next(s, step, s') && (step.ReplaceStep? || step.UnlinkStep?)
    ensures |s'.log| == |s.log| + 1
  {
  }

  // A task about to replace a node finds it off the list exactly when some step since its
  // own read-side section began has taken that node off.
  lemma StaleExactlyWhenTaken(states: seq<State>, steps: seq<Step>, k: nat, t: Tid)
    requires IsRun(states, steps) && k < |states| && t < |states[k].tasks| && states[k].tasks[t].UpdLocked?
    ensures |states[k].log| > 0
    ensures states[k].tasks[t].oldB !in states[k].Order()
            <==> exists j :: 0 <= j < k && SameSection(states, t, j, k) && TakesOff(states[j], steps[j], states[k].tasks[t].oldB)
  {
    var a := states[k].tasks[t].oldB;
    RunInv(states, steps, k);
    ListedIsLinked(states[k], a);
    hide Inv, Next, Kept, TakesOff;
    TaskFacts(states[k], t);
    LogNotEmpty(states[k]);
    if states[k].heap[a].status.Unlinked() {
      var j := TakenSince(states, steps, k, t, a);
    }
    forall j | 0 <= j < k && SameSection(states, t, j, k) && TakesOff(states[j], steps[j], a)
      ensures states[k].heap[a].status.Unlinked()
    {
      TakenStays(states, steps, j, k, a);
    }
  }

  lemma ListedIsLinked(s: State, a: Addr)
    requires Inv(s) && a in s.heap
    ensures a in s.Order() <==> s.heap[a].status.Linked?
  {
    hide HistoryOk, FrozenOk, GraceOk, SyncedOk, OwnersOk, LockOk, TasksOk;
  }

  lemma TakenSince(states: seq<State>, steps: seq<Step>, k: nat, t: Tid, a: Addr) returns (j: nat)
    requires IsRun(states, steps) && k < |states| && states[k].Open(t) && states[k].Sized()
    requires Later(states[k].heap, a, states[k].since[t]) && states[k].heap[a].status.Unlinked()
    ensures j < k && SameSection(states, t, j, k) && TakesOff(states[j], steps[j], a)
  {
    hide Inv, Next, Kept;
    j := UnlinkInstant(states, steps, k, a);
    RunInv(states, steps, j);
    assert Next(states[j], steps[j], states[j + 1]);
    TakenOff(states[j], steps[j], states[j + 1], a);
    LogGrows(states[j], steps[j], states[j + 1]);
    OpenEverSince(states, steps, j, k, t);
    assert states[j + 1].Open(t);
    UnlinkKeepsSections(states[j], steps[j], states[j + 1], t, a);
    assert SameSection(states, t, j, k);
  }

  lemma TakenStays(states: seq<State>, steps: seq<Step>, j: nat, k: nat, a: Addr)
    requires IsRun(states, steps) && j < k < |states| && TakesOff(states[j], steps[j], a) && a in states[k].heap
    ensures states[k].heap[a].status.Unlinked()
  {
    hide Inv;
    RunInv(states, steps, j);
    assert Next(states[j], steps[j], states[j + 1]);
    TakenWasListed(states[j], steps[j], states[j + 1], a);
    TakenOff(states[j], steps[j], states[j + 1], a);
    LogOfRun(states, steps, j + 1, k);
  }

  lemma TakenWasListed(s: State, step: Step, s': State, a: Addr)
    requires Inv(s) && Next(s, step, s') && TakesOff(s, step, a)
    ensures a in s.heap && s.heap[a].status.Linked?
  {
    hide Inv, ReplaceHeap, UnlinkHeap;
    OnList(s, step.k);
  }

  // ---------- two overlapping borrowers ----------

  // Both tasks find the one book on the list and copy it.
  lemma BothCopy() returns (run: Run)
    ensures run.Valid() && var s := run.Last();
            && s.Sized() && s.Order() == [0] && s.lock == None && {0, 1, 2} <= s.heap.Keys
            && s.tasks == [Copied(Update(true, true), 7, 0, 1), Copied(Update(true, true), 7, 0, 2)]
  {
    var op := Update(true, true);
    run := NoSteps(2);
    run := Adds(run, 0, Book(7, "book1", "jb", false), 0);
    run := Looks(run, 0, op, 7);
    run := Turns(run, 0);
    run := Looks(run, 1, op, 7);
    run := Turns(run, 1);
    run := Copies(run, 0, 1);
    run := Copies(run, 1, 2);
  }

  // Without serialisation the contract of list_replace_rcu can be broken: of two borrowers of
  // one book in overlapping sections, the first has replaced its node, and the second holds
  // the lock and is about to replace the same node, which is off the list.
  lemma OverlappingBorrowersBreakContract() returns (run: Run)
    ensures run.Valid() && var s := run.Last();
            && |s.log| > 0 && !ReplaceContract(s)
            && |s.tasks| == 2 && s.Open(0) && s.Open(1) && s.lock == Some(1)
            && exists id, oldB, newB ::
                 && s.tasks[0] == UpdUnlocked(Update(true, true), id, oldB)
                 && s.tasks[1] == UpdLocked(Update(true, true), id, oldB, newB)
                 && oldB !in s.Order()
  {
    run := BothCopy();
    run := Replaces(run, 0, 0);
    var s := run.Last();
    var s' := s.At(1, UpdLocked(Update(true, true), 7, 0, 2)).(lock := Some(1));
    assert Lock(s, 1, s');
    run := Then(run, LockStep(1), s');
    assert s'.Order() == [1];
    assert Stale(s', 1);
  }
}

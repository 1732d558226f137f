/**
 What holds in every run of the RCU book list, with any number of tasks in any mix of
 operations and under every interleaving.
 */
module RcuTheorems {
  import opened Common
  import opened RcuModel
  import opened RcuInvariant
  import opened RcuSteps

  // ---------- memory safety of readers ----------

  // p follows next pointers, from its first node on.
  ghost predicate Chain(heap: Heap, p: seq<Addr>) {
    forall i, j :: 0 <= i < |p| && j == i + 1 < |p| ==> p[i] in heap && heap[p[i]].next == To(p[j])
  }

  lemma {:induction false} ChainIsLater(s: State, p: seq<Addr>, i: nat, version: nat)
    requires MemoryOk(s) && Chain(s.heap, p) && i < |p| && Later(s.heap, p[0], version)
    ensures Later(s.heap, p[i], version)
  {
    if i > 0 {
      ChainIsLater(s, p, i - 1, version);
      assert s.heap[p[i - 1]].next == To(p[i]);
      NextIsLater(s, p[i - 1], version);
    }
  }

  lemma FreedIsElapsed(s: State, t: Tid, a: Addr)
    requires Inv(s) && s.Open(t) && a in s.heap && s.heap[a].status.Freed?
    ensures s.heap[a].status.gone <= s.since[t]
  {
    hide ListOk, HistoryOk, FrozenOk, SyncedOk, OwnersOk, LockOk, TasksOk;
    assert t in s.Sections() && Elapsed(s.heap, s.Sections(), s.since, a);
  }

  // No node that a task inside a read-side section can reach by following next pointers
  // from the node it holds has been freed, even when that node is already unlinked.
  lemma ReachableIsNeverFreed(states: seq<State>, steps: seq<Step>, k: nat, t: Tid, p: seq<Addr>, i: nat)
    requires IsRun(states, steps) && k < |states| && states[k].Open(t)
    requires Chain(states[k].heap, p) && i < |p| && states[k].tasks[t].Held() == To(p[0])
    ensures p[i] in states[k].heap
    ensures !states[k].heap[p[i]].status.Freed? && !states[k].heap[p[i]].status.Fresh?
  {
    var s := states[k];
    RunInv(states, steps, k);
    TaskFacts(s, t);
    ChainIsLater(s, p, i, s.since[t]);
    if s.heap[p[i]].status.Freed? {
      FreedIsElapsed(s, t, p[i]);
    }
  }

  // delete_book searches without a section, but under the lock: the node it looks at, or has
  // found, is on the list.
  lemma DeleterHoldsListed(states: seq<State>, steps: seq<Step>, k: nat, t: Tid, a: Addr)
    requires IsRun(states, steps) && k < |states| && t < |states[k].tasks|
    requires var pc := states[k].tasks[t]; (pc.DelWalk? && pc.cur == To(a)) || (pc.DelHit? && pc.oldB == a)
    ensures var s := states[k];
            && s.Sized() && a in s.Order() && a in s.heap && s.heap[a].status.Linked? && s.lock == Some(t)
            && (s.tasks[t].DelHit? ==> s.heap[a].book.id == s.tasks[t].id)
  {
    hide HistoryOk, FrozenOk, GraceOk, SyncedOk, OwnersOk, TasksOk;
    RunInv(states, steps, k);
    TaskFacts(states[k], t);
  }

  // ---------- linearizability of reads ----------

  lemma {:induction false} LogOfRun(states: seq<State>, steps: seq<Step>, i: nat, k: nat)
    requires IsRun(states, steps) && i <= k < |states|
    ensures |states[k].tasks| == |states[i].tasks| && states[i].log <= states[k].log
    ensures Kept(states[i].heap, states[k].heap, |states[i].log|)
    decreases k - i
  {
    hide Inv, Next;
    if i == k {
      KeptSame(states[i].heap, states[k].heap, |states[i].log|);
    } else {
      hide Kept;
      LogOfRun(states, steps, i, k - 1);
      RunInv(states, steps, k - 1);
      StepKeeps(states[k - 1], steps[k - 1], states[k]);
      KeptTwice(states[i].heap, states[k - 1].heap, states[k].heap, |states[i].log|, |states[k - 1].log|);
    }
  }

  lemma KeptTwice(h0: Heap, h1: Heap, h2: Heap, now: nat, later: nat)
    requires Kept(h0, h1, now) && Kept(h1, h2, later) && now <= later
    ensures Kept(h0, h2, now)
  {
  }

  lemma KeptSame(heap: Heap, heap': Heap, now: nat)
    requires forall a :: a in heap ==> a in heap' && heap'[a] == heap[a]
    ensures Kept(heap, heap', now)
  {
  }

  // The node published or unlinked by a list change, and its effect on the memory.
  lemma StepRelinks(s: State, step: Step, s': State, t: Tid) returns (n: Ptr, oldB: Ptr)
    requires Inv(s) && Next(s, step, s')
    requires step == InsertStep(t) || (step.ReplaceStep? && step.t == t) || (step.UnlinkStep? && step.t == t)
    ensures Relinked(s.heap, s'.heap, |s.log|, t, n, oldB)
  {
    hide ListOk, HistoryOk, FrozenOk, GraceOk, SyncedOk, OwnersOk, LockOk, TasksOk, Relinked, Spliced, SameLinks;
    hide ReplaceHeap, UnlinkHeap;
    n, oldB := End, End;
    if step.InsertStep? {
      TaskFacts(s, t);
      InsertMemory(s, t, s');
      n := To(s.tasks[t].newB);
    } else if step.ReplaceStep? {
      TaskFacts(s, t);
      ReplaceRelinks(s, t, step.k, s');
      n, oldB := To(s.tasks[t].newB), To(s.tasks[t].oldB);
    } else {
      UnlinkRelinks(s, t, step.k, s');
      oldB := To(s.tasks[t].oldB);
    }
  }

  lemma StepExtendsLog(s: State, step: Step, s': State)
    requires Next(s, step, s')
    ensures |s'.tasks| == |s.tasks| && s.log <= s'.log
  {
    hide ReplaceHeap, UnlinkHeap, Visited, Free;
    if !step.CallbackStep? {
      MovesOne(s, step, s');
    }
  }

  // A step of a task moves that task alone.
  lemma MovesOne(s: State, step: Step, s': State)
    requires Next(s, step, s') && !step.CallbackStep?
    ensures step.t < |s.tasks| == |s'.tasks| && s'.tasks == s.tasks[step.t := s'.tasks[step.t]]
  {
    hide ReplaceHeap, UnlinkHeap, Visited, Free;
  }

  lemma CallbackKeepsTasks(s: State, step: Step, s': State)
    requires Next(s, step, s') && step.CallbackStep?
    ensures s'.tasks == s.tasks
  {
  }

  // One step extends the log and keeps the memory's history.
  lemma StepKeeps(s: State, step: Step, s': State)
    requires Inv(s) && Next(s, step, s')
    ensures |s'.tasks| == |s.tasks| && s.log <= s'.log && Kept(s.heap, s'.heap, |s.log|)
  {
    hide Inv, Relinked, ReplaceHeap, UnlinkHeap, Kept, SameLinks;
    StepExtendsLog(s, step, s');
    if step.InsertStep? || step.ReplaceStep? || step.UnlinkStep? {
      var n, oldB := StepRelinks(s, step, s', step.t);
      RelinkedKept(s.heap, s'.heap, |s.log|, step.t, n, oldB);
    } else if step.CallRcuStep? || step.KfreeStep? || step.CallbackStep? {
      var a := if step.CallbackStep? then step.a else s.tasks[step.t].oldB;
      RestatusKept(s.heap, a, s'.heap[a].status, |s.log|);
    } else {
      KeptSame(s.heap, s'.heap, |s.log|);
    }
  }

  // Only rcu_read_lock sets the start of a section.
  lemma SinceStays(s: State, step: Step, s': State)
    requires Next(s, step, s') && !step.BeginReadStep?
    ensures s'.since == s.since
  {
    hide ReplaceHeap, UnlinkHeap, Visited, Free;
  }

  // Only rcu_read_lock takes a task into a section.
  lemma StaysOpen(s: State, step: Step, s': State)
    requires Next(s, step, s') && !step.BeginReadStep? && !step.CallbackStep?
    ensures step.t < |s.tasks| && step.t < |s'.tasks|
    ensures s'.tasks[step.t].InSection() ==> s.tasks[step.t].InSection()
  {
    hide ReplaceHeap, UnlinkHeap, Visited, Free;
  }

  // Only list_replace_rcu and list_del_rcu change links of published nodes.
  lemma StepKeepsLinks(s: State, step: Step, s': State)
    requires Inv(s) && Next(s, step, s') && !step.ReplaceStep? && !step.UnlinkStep?
    ensures SameLinks(s.heap, s'.heap)
  {
    if step.InsertStep? {
      assert Insert(s, step.t, s');
      hide ListOk, HistoryOk, FrozenOk, GraceOk, SyncedOk, OwnersOk, LockOk, TasksOk, Relinked, Next, SameLinks;
      TaskFacts(s, step.t);
      InsertMemory(s, step.t, s');
    } else {
      hide Inv, Next;
      QuietLinks(s, step, s');
    }
  }

  lemma QuietLinks(s: State, step: Step, s': State)
    requires Next(s, step, s') && !step.ReplaceStep? && !step.UnlinkStep? && !step.InsertStep?
    ensures SameLinks(s.heap, s'.heap)
  {
    if step.AllocCopyStep? || step.AddAllocStep? {
      hide Next;
      NewNodeLinks(s, step, s');
    } else {
      hide Visited;
    }
  }

  lemma NewNodeLinks(s: State, step: Step, s': State)
    requires Next(s, step, s') && (step.AllocCopyStep? || step.AddAllocStep?)
    ensures SameLinks(s.heap, s'.heap)
  {
  }

  // A task that was not in a section and is in one now has just entered it.
  lemma SectionStarts(s: State, step: Step, s': State, t: Tid)
    requires s.Sized() && s'.Sized() && Next(s, step, s') && s'.Open(t)
    ensures |s.tasks| == |s'.tasks|
    ensures s.Open(t) ==> s'.since[t] == s.since[t]
    ensures !s.Open(t) ==> s'.since[t] == |s'.log| - 1
  {
    if step.BeginReadStep? {
      assert BeginRead(s, step.t, step.op, step.id, s');
    } else if step.CallbackStep? {
      assert Callback(s, step.a, s');
    } else {
      hide Next;
      SinceStays(s, step, s');
      StaysOpen(s, step, s');
      MovesOne(s, step, s');
    }
  }

  // Task t is inside one and the same section from state i to state k.
  ghost predicate SameSection(states: seq<State>, t: Tid, i: nat, k: nat) {
    && i <= k < |states|
    && forall m :: i <= m <= k ==> states[m].Open(t)
  }

  // Every order since a section began was the order of the list at an instant of the section.
  lemma {:induction false} InstantOfSection(states: seq<State>, steps: seq<Step>, k: nat, t: Tid, v: nat) returns (i: nat)
    requires IsRun(states, steps) && k < |states| && states[k].Open(t) && |states[k].since| == |states[k].tasks|
    requires states[k].since[t] <= v < |states[k].log|
    ensures SameSection(states, t, i, k)
    ensures |states[i].log| > 0 && states[i].Order() == states[k].log[v]
  {
    hide Inv, Kept, Next;
    RunInv(states, steps, k);
    if v == |states[k].log| - 1 {
      i := k;
      LogNotEmpty(states[k]);
    } else {
      RunStart(states, k, t);
      RunInv(states, steps, k - 1);
      LogNotEmpty(states[k - 1]);
      LogNotEmpty(states[k]);
      StepKeeps(states[k - 1], steps[k - 1], states[k]);
      SectionStarts(states[k - 1], steps[k - 1], states[k], t);
      LastIsNew(states[k - 1], steps[k - 1], states[k]);
      i := InstantOfSection(states, steps, k - 1, t, v);
    }
  }

  lemma LogNotEmpty(s: State)
    requires Inv(s)
    ensures s.Sized()
  {
  }

  lemma RunStart(states: seq<State>, k: nat, t: Tid)
    requires |states| > 0 && Init(states[0]) && k < |states| && states[k].Open(t)
    ensures k > 0
  {
  }

  // A step adds one order at most.
  lemma LastIsNew(s: State, step: Step, s': State)
    requires Inv(s) && Next(s, step, s')
    ensures |s'.log| <= |s.log| + 1
  {
    hide Inv, Kept;
  }

  // The answer is right for the list as it is in state s.
  ghost predicate RightAnswer(s: State, op: Op, id: int, answer: Answer)
    requires |s.log| > 0
  {
    match answer
    case NotFound => forall a :: a in s.Order() ==> a in s.heap && s.heap[a].book.id != id
    case Shown(a, book) => a in s.Order() && a in s.heap && s.heap[a].book == book && book.id == id
    case Refused(a, book) =>
      && a in s.Order() && a in s.heap && s.heap[a].book == book && book.id == id
      && op.Update? && book.borrowed == op.want
    case NoMemory => op.Update?
  }

  // A node that is Later than a version was on the list in that version or a newer one.
  lemma LaterWasListed(s: State, a: Addr, version: nat) returns (v: nat)
    requires MemoryOk(s) && Later(s.heap, a, version) && version < |s.log|
    ensures version <= v < |s.log| && a in s.log[v]
  {
    v := if s.heap[a].status.Linked? then |s.log| - 1 else s.heap[a].status.gone - 1;
  }

  // Every answer a section gives was right at some instant of that section: a book that is
  // shown, or for which a borrow or return is refused, was on the list then, with all its
  // fields as reported; and an id reported missing was absent from the whole list then.
  lemma ReadsAreLinearizable(states: seq<State>, steps: seq<Step>, k: nat, t: Tid) returns (i: nat)
    requires IsRun(states, steps) && k < |states| && t < |states[k].tasks| && states[k].tasks[t].Leave?
    ensures SameSection(states, t, i, k) && |states[i].log| > 0
    ensures var Leave(op, id, answer) := states[k].tasks[t];
            RightAnswer(states[i], op, id, answer)
  {
    var s := states[k];
    var Leave(op, id, answer) := s.tasks[t];
    RunInv(states, steps, k);
    TaskFacts(s, t);
    SinceIsPast(s, t);
    match answer
    case NotFound =>
      var v :| s.since[t] <= v < |s.log| && NoneHas(s.heap, s.log[v], id);
      i := InstantOfSection(states, steps, k, t, v);
      ListedAtInstant(states, steps, i, k);
    case Shown(a, book) =>
      var v := LaterWasListed(s, a, s.since[t]);
      i := InstantOfSection(states, steps, k, t, v);
      ListedAtInstant(states, steps, i, k);
    case Refused(a, book) =>
      var v := LaterWasListed(s, a, s.since[t]);
      i := InstantOfSection(states, steps, k, t, v);
      ListedAtInstant(states, steps, i, k);
    case NoMemory =>
      i := k;
  }

  // The books listed at an instant keep their fields ever after.
  lemma ListedAtInstant(states: seq<State>, steps: seq<Step>, i: nat, k: nat)
    requires IsRun(states, steps) && i <= k < |states|
    ensures |states[i].log| > 0
    ensures forall a :: a in states[i].Order() ==>
              a in states[i].heap && a in states[k].heap && states[i].heap[a].book == states[k].heap[a].book
  {
    RunInv(states, steps, i);
    LogOfRun(states, steps, i, k);
    hide HistoryOk, FrozenOk, GraceOk, SyncedOk, OwnersOk, LockOk, TasksOk;
  }

  // ---------- reclaim ----------

  // The node of a task that is about to call kfree, and of a callback that may run, is
  // retired and not yet freed, and belongs to that task or callback alone.
  lemma FreesAreUnique(states: seq<State>, steps: seq<Step>, k: nat, a: Addr)
    requires IsRun(states, steps) && k < |states| && a in states[k].heap
    ensures var s := states[k];
            && (forall t :: 0 <= t < |s.tasks| && s.tasks[t].MustFree() == To(a) ==>
                  s.heap[a].status.Retired? && s.heap[a].status.claim == ByTask(t))
            && (a in s.graces ==> s.heap[a].status.Retired?)
            && (s.heap[a].status.Freed? ==>
                  a !in s.graces && forall t :: 0 <= t < |s.tasks| ==> s.tasks[t].MustFree() != To(a))
  {
    RunInv(states, steps, k);
    var s := states[k];
    hide ListOk, HistoryOk, FrozenOk, SyncedOk, LockOk, TasksOk;
    forall t | 0 <= t < |s.tasks| && s.tasks[t].MustFree() == To(a)
      ensures s.heap[a].status.Retired? && s.heap[a].status.claim == ByTask(t)
    {
      assert OwnsOk(s.heap, t, s.tasks[t]);
    }
  }

  // The step frees node a.
  predicate Frees(s: State, step: Step, a: Addr) {
    step == CallbackStep(a) || (step.KfreeStep? && step.t < |s.tasks| && s.tasks[step.t] == SyncDone(a))
  }

  // A free takes a retired node and makes it a freed one.
  lemma FreesRetired(s: State, step: Step, s': State, a: Addr)
    requires Next(s, step, s') && Frees(s, step, a)
    ensures a in s.heap && s.heap[a].status.Retired? && a in s'.heap && s'.heap[a].status.Freed?
  {
    if step.CallbackStep? {
      assert Callback(s, a, s');
    } else {
      assert Kfree(s, step.t, s');
    }
  }

  // A node becomes freed by a step that frees it and by no other, and stays freed.
  lemma FreedByFrees(s: State, step: Step, s': State, a: Addr)
    requires Inv(s) && Next(s, step, s') && a in s'.heap
    ensures s'.heap[a].status.Freed? <==> (a in s.heap && s.heap[a].status.Freed?) || Frees(s, step, a)
  {
    hide Inv, ReplaceHeap, UnlinkHeap, Visited;
    if step.InsertStep? || step.ReplaceStep? || step.UnlinkStep? {
      var n, oldB := StepRelinks(s, step, s', step.t);
    } else if Frees(s, step, a) {
      FreesRetired(s, step, s', a);
    }
  }

  // A node is freed exactly when some step has freed it.
  lemma {:induction false} FreedExactly(states: seq<State>, steps: seq<Step>, j: nat, k: nat, a: Addr)
    requires IsRun(states, steps) && j <= k < |states| && a in states[k].heap
    requires a in states[j].heap ==> !states[j].heap[a].status.Freed?
    ensures states[k].heap[a].status.Freed? <==> exists i :: j <= i < k && Frees(states[i], steps[i], a)
    decreases k - j
  {
    hide Inv, Next, Frees;
    if j < k {
      RunInv(states, steps, k - 1);
      var s, step, s' := states[k - 1], steps[k - 1], states[k];
      assert Next(s, step, s');
      FreedByFrees(s, step, s', a);
      if a in s.heap {
        FreedExactly(states, steps, j, k - 1, a);
      } else {
        NotYetFreed(states, steps, j, k - 1, a);
      }
    }
  }

  // A node that has not been allocated has not been freed.
  lemma NotYetFreed(states: seq<State>, steps: seq<Step>, j: nat, k: nat, a: Addr)
    requires IsRun(states, steps) && j <= k < |states| && a !in states[k].heap
    ensures forall i :: j <= i < k ==> !Frees(states[i], steps[i], a)
  {
    hide Inv, Next, Frees, Kept;
    forall i | j <= i < k ensures !Frees(states[i], steps[i], a) {
      if Frees(states[i], steps[i], a) {
        assert Next(states[i], steps[i], states[i + 1]);
        FreesRetired(states[i], steps[i], states[i + 1], a);
        HeapGrows(states, steps, i + 1, k, a);
      }
    }
  }

  lemma HeapGrows(states: seq<State>, steps: seq<Step>, i: nat, k: nat, a: Addr)
    requires IsRun(states, steps) && i <= k < |states| && a in states[i].heap
    ensures a in states[k].heap
  {
    LogOfRun(states, steps, i, k);
  }

  // No node is freed twice: of two steps of a run, at most one frees it.
  lemma FreedOnce(states: seq<State>, steps: seq<Step>, i: nat, j: nat, a: Addr)
    requires IsRun(states, steps) && i < j < |steps|
    ensures !(Frees(states[i], steps[i], a) && Frees(states[j], steps[j], a))
  {
    hide Inv, Next, Frees;
    if Frees(states[i], steps[i], a) && Frees(states[j], steps[j], a) {
      assert Next(states[i], steps[i], states[i + 1]) && Next(states[j], steps[j], states[j + 1]);
      FreesRetired(states[i], steps[i], states[i + 1], a);
      FreesRetired(states[j], steps[j], states[j + 1], a);
      StaysFreed(states, steps, i + 1, j, a);
    }
  }

  lemma {:induction false} StaysFreed(states: seq<State>, steps: seq<Step>, j: nat, k: nat, a: Addr)
    requires IsRun(states, steps) && j <= k < |states| && a in states[j].heap && states[j].heap[a].status.Freed?
    ensures a in states[k].heap && states[k].heap[a].status.Freed?
    decreases k - j
  {
    hide Inv, Next, Frees;
    if j < k {
      StaysFreed(states, steps, j, k - 1, a);
      RunInv(states, steps, k - 1);
      HeapGrows(states, steps, k - 1, k, a);
      assert Next(states[k - 1], steps[k - 1], states[k]);
      FreedByFrees(states[k - 1], steps[k - 1], states[k], a);
    }
  }

  // An unlinked node was unlinked by one step, from which its unlink time stems.
  lemma {:induction false} UnlinkInstant(states: seq<State>, steps: seq<Step>, k: nat, a: Addr) returns (j: nat)
    requires IsRun(states, steps) && k < |states| && a in states[k].heap && states[k].heap[a].status.Unlinked()
    ensures j < k && a in states[j].heap && states[j].heap[a].status.Linked?
    ensures a in states[j + 1].heap && states[j + 1].heap[a].status.Unlinked()
    ensures |states[j].log| == states[k].heap[a].status.gone
  {
    hide Inv, Kept;
    assert k > 0;
    RunInv(states, steps, k - 1);
    UnlinkedBefore(states[k - 1], steps[k - 1], states[k], a);
    if states[k - 1].heap[a].status.Linked? {
      j := k - 1;
    } else {
      j := UnlinkInstant(states, steps, k - 1, a);
    }
  }

  lemma UnlinkedBefore(s: State, step: Step, s': State, a: Addr)
    requires Inv(s) && Next(s, step, s') && a in s'.heap && s'.heap[a].status.Unlinked()
    ensures a in s.heap && !s.heap[a].status.Fresh?
    ensures s.heap[a].status.Linked? ==> s'.heap[a].status.gone == |s.log|
    ensures s.heap[a].status.Unlinked() ==> s'.heap[a].status.gone == s.heap[a].status.gone
  {
    hide Inv, ReplaceHeap, UnlinkHeap;
    if step.InsertStep? || step.ReplaceStep? || step.UnlinkStep? {
      var n, oldB := StepRelinks(s, step, s', step.t);
    }
  }

  // A section's start does not move while the section is open.
  lemma {:induction false} SinceOfSection(states: seq<State>, steps: seq<Step>, i: nat, k: nat, t: Tid)
    requires IsRun(states, steps) && SameSection(states, t, i, k)
    ensures states[i].Sized() && states[k].Sized() && states[i].since[t] == states[k].since[t]
    decreases k - i
  {
    hide Inv, Kept, Next;
    RunInv(states, steps, i);
    LogNotEmpty(states[i]);
    if i < k {
      SinceOfSection(states, steps, i, k - 1, t);
      RunInv(states, steps, k);
      LogNotEmpty(states[k]);
      assert states[k].Open(t);
      SectionStarts(states[k - 1], steps[k - 1], states[k], t);
    }
  }

  // A freed node was unlinked by an earlier step, and every section that was open right
  // after that step has closed in the meantime.
  lemma FreedAfterGracePeriod(states: seq<State>, steps: seq<Step>, k: nat, a: Addr) returns (j: nat)
    requires IsRun(states, steps) && k < |states| && a in states[k].heap && states[k].heap[a].status.Freed?
    ensures j < k && a in states[j].heap && states[j].heap[a].status.Linked?
    ensures a in states[j + 1].heap && !states[j + 1].heap[a].status.Linked?
    ensures var first := j + 1; forall t: Tid :: !SameSection(states, t, first, k)
  {
    hide Kept, Inv, Next;
    j := UnlinkInstant(states, steps, k, a);
    var first := j + 1;
    forall t: Tid ensures !SameSection(states, t, first, k) {
      if SameSection(states, t, first, k) {
        StillOpen(states, steps, j, k, t, a);
      }
    }
  }

  // A section open since a node was unlinked keeps that node from being freed.
  lemma StillOpen(states: seq<State>, steps: seq<Step>, j: nat, k: nat, t: Tid, a: Addr)
    requires IsRun(states, steps) && j < k < |states| && SameSection(states, t, j + 1, k)
    requires a in states[j].heap && states[j].heap[a].status.Linked?
    requires a in states[j + 1].heap && states[j + 1].heap[a].status.Unlinked()
    requires a in states[k].heap && states[k].heap[a].status.Unlinked() && states[k].heap[a].status.gone == |states[j].log|
    ensures !states[k].heap[a].status.Freed?
  {
    hide Kept, Inv, Next;
    assert states[k].Open(t) && states[j + 1].Open(t);
    RunInv(states, steps, k);
    SinceOfSection(states, steps, j + 1, k, t);
    SinceBeforeStep(states, steps, j, t, a);
    if states[k].heap[a].status.Freed? {
      FreedIsElapsed(states[k], t, a);
    }
  }

  lemma SinceBeforeStep(states: seq<State>, steps: seq<Step>, j: nat, t: Tid, a: Addr)
    requires IsRun(states, steps) && j + 1 < |states| && states[j + 1].Open(t) && states[j + 1].Sized()
    requires a in states[j].heap && states[j].heap[a].status.Linked?
    requires a in states[j + 1].heap && states[j + 1].heap[a].status.Unlinked()
    ensures states[j + 1].since[t] < |states[j].log|
  {
    hide Inv, Next;
    RunInv(states, steps, j);
    LogNotEmpty(states[j]);
    UnlinkKeepsSections(states[j], steps[j], states[j + 1], t, a);
    SectionStarts(states[j], steps[j], states[j + 1], t);
    SinceIsPast(states[j], t);
  }

  lemma UnlinkKeepsSections(s: State, step: Step, s': State, t: Tid, a: Addr)
    requires Inv(s) && Next(s, step, s') && s'.Open(t)
    requires a in s.heap && s.heap[a].status.Linked? && a in s'.heap && s'.heap[a].status.Unlinked()
    ensures s.Open(t)
  {
    hide Inv, Kept;
  }

  // When every task is idle and no grace period is outstanding, the nodes that have not
  // been freed are exactly those on the list: nothing leaks, on any path.
  lemma QuiescentFreesAll(states: seq<State>, steps: seq<Step>, k: nat)
    requires IsRun(states, steps) && k < |states|
    requires forall t :: 0 <= t < |states[k].tasks| ==> states[k].tasks[t] == Idle
    requires states[k].graces == map[]
    ensures states[k].Sized()
    ensures forall a :: a in states[k].heap ==> (!states[k].heap[a].status.Freed? <==> a in states[k].Order())
  {
    RunInv(states, steps, k);
    var s := states[k];
    hide HistoryOk, FrozenOk, GraceOk, SyncedOk, LockOk, TasksOk;
    forall a | a in s.heap ensures !s.heap[a].status.Freed? <==> a in s.Order() {
      assert OwnedOk(s.heap, s.tasks, s.graces, a);
    }
  }
}

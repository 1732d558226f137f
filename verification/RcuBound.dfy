/**
 Every operation ends within a bounded number of its own steps, whatever the other tasks do
 to the list in the meantime: no change of the list makes the way to its end longer for a
 task that is already on it.
 */
module RcuBound {
  import opened Common
  import opened RcuModel
  import opened RcuInvariant
  import opened RcuSteps
  import opened RcuTheorems
  import opened RcuControl
  import opened RcuProjection

  // ---------- the way to the end ----------

  // The links from p lead to the end of the list over at most m nodes.
  ghost predicate Ends(heap: Heap, p: Ptr, m: nat)
    decreases m
  {
    p == End || (p.at in heap && m > 0 && Ends(heap, heap[p.at].next, m - 1))
  }

  ghost predicate PublishedAt(heap: Heap, p: Ptr) {
    p.To? ==> p.at in heap && !heap[p.at].status.Fresh?
  }

  lemma {:induction false} EndsWithin(heap: Heap, p: Ptr, m: nat, more: nat)
    requires Ends(heap, p, m) && m <= more
    ensures Ends(heap, p, more)
    decreases m
  {
    if p.To? {
      EndsWithin(heap, heap[p.at].next, m - 1, more - 1);
    }
  }

  lemma {:induction false} EndsSame(heap: Heap, heap': Heap, p: Ptr, m: nat)
    requires PublishedLinks(heap) && SameLinks(heap, heap') && Ends(heap, p, m) && PublishedAt(heap, p)
    ensures Ends(heap', p, m)
    decreases m
  {
    if p.To? {
      EndsSame(heap, heap', heap[p.at].next, m - 1);
    }
  }

  // A replacement leaves the way as long as it was.
  lemma {:induction false} EndsReplaced(heap: Heap, heap': Heap, order: seq<Addr>, k: nat, n: Addr, p: Ptr, m: nat)
    requires PublishedLinks(heap) && Linking(heap, order) && k < |order| && Spliced(heap, heap', order, k, To(n))
    requires n in heap' && heap'[n].next == heap[order[k]].next
    requires Ends(heap, p, m) && PublishedAt(heap, p)
    ensures Ends(heap', p, m)
    decreases m
  {
    if p.To? {
      if k > 0 && p.at == order[k - 1] {
        assert order[k - 1] in heap && order[k] in heap;
        assert heap[p.at].next == To(order[k]);
        EndsReplaced(heap, heap', order, k, n, heap[order[k]].next, m - 2);
        assert Ends(heap', To(n), m - 1);
      } else {
        EndsReplaced(heap, heap', order, k, n, heap[p.at].next, m - 1);
      }
    }
  }

  // A deletion makes the way shorter by the node that has left the list, or leaves it as it was.
  lemma {:induction false} EndsUnlinked(heap: Heap, heap': Heap, order: seq<Addr>, k: nat, p: Ptr, m: nat)
    requires PublishedLinks(heap) && Linking(heap, order) && k < |order|
    requires order[k] in heap && Spliced(heap, heap', order, k, heap[order[k]].next)
    requires Ends(heap, p, m) && PublishedAt(heap, p)
    ensures Ends(heap', p, m)
    decreases m
  {
    if p.To? {
      if k > 0 && p.at == order[k - 1] {
        assert order[k - 1] in heap;
        assert heap[p.at].next == To(order[k]);
        EndsUnlinked(heap, heap', order, k, heap[order[k]].next, m - 2);
        EndsWithin(heap', heap[order[k]].next, m - 2, m - 1);
      } else {
        EndsUnlinked(heap, heap', order, k, heap[p.at].next, m - 1);
      }
    }
  }

  // The list itself is such a way.
  lemma {:induction false} ListEnds(heap: Heap, order: seq<Addr>, i: nat)
    requires Linking(heap, order) && i <= |order|
    ensures Ends(heap, PtrAt(order, i), |order| - i)
    decreases |order| - i
  {
    if i < |order| {
      assert order[i] in heap;
      ListEnds(heap, order, i + 1);
    }
  }

  lemma OrderLinks(s: State)
    requires Inv(s)
    ensures s.Sized() && Linking(s.heap, s.Order()) && PublishedLinks(s.heap) && s.head == PtrAt(s.Order(), 0)
  {
    LinksArePublished(s);
  }

  // No step makes the way from a published node longer.
  lemma StepEnds(s: State, step: Step, s': State, p: Ptr, m: nat)
    requires Inv(s) && Next(s, step, s') && Ends(s.heap, p, m) && PublishedAt(s.heap, p)
    ensures Ends(s'.heap, p, m)
  {
    hide Inv, Ends, PublishedAt, Linking, PublishedLinks, SameLinks;
    OrderLinks(s);
    if step.ReplaceStep? {
      hide ReplaceHeap, Spliced, Relinked;
      ReplaceSplices(s, step.t, step.k, s');
      EndsReplaced(s.heap, s'.heap, s.Order(), step.k, s.tasks[step.t].newB, p, m);
    } else if step.UnlinkStep? {
      hide UnlinkHeap, Spliced, Relinked;
      UnlinkSplices(s, step.t, step.k, s');
      EndsUnlinked(s.heap, s'.heap, s.Order(), step.k, p, m);
    } else {
      hide Next;
      StepKeepsLinks(s, step, s');
      EndsSame(s.heap, s'.heap, p, m);
    }
  }

  lemma ReplaceSplices(s: State, t: Tid, k: nat, s': State)
    requires Inv(s) && Replace(s, t, k, s')
    ensures Spliced(s.heap, s'.heap, s.Order(), k, To(s.tasks[t].newB))
    ensures s.tasks[t].newB in s'.heap && s'.heap[s.tasks[t].newB].next == s.heap[s.tasks[t].oldB].next
    ensures s'.heap[s.tasks[t].newB].book == s.heap[s.tasks[t].newB].book
  {
    hide ListOk, HistoryOk, FrozenOk, GraceOk, SyncedOk, OwnersOk, LockOk, TasksOk, Spliced, ReplaceHeap;
    TaskFacts(s, t);
    ReplaceRelinks(s, t, k, s');
  }

  lemma UnlinkSplices(s: State, t: Tid, k: nat, s': State)
    requires Inv(s) && Unlink(s, t, k, s')
    ensures Spliced(s.heap, s'.heap, s.Order(), k, s.heap[s.Order()[k]].next)
  {
    hide ListOk, HistoryOk, FrozenOk, GraceOk, SyncedOk, OwnersOk, LockOk, TasksOk, Spliced, UnlinkHeap;
    UnlinkRelinks(s, t, k, s');
  }

  // ---------- what is left to do ----------

  predicate Searching(pc: Pc) {
    pc.Walk? || pc.DelWalk?
  }

  // The task has loaded the head of the list, if it has to, and needs at most b more steps to
  // its end.
  ghost predicate Budget(s: State, t: Tid, b: nat) {
    && t < |s.tasks|
    && var pc := s.tasks[t];
    && !pc.Enter? && !pc.DelWant? && !pc.DelEnter?
    && SpotOf(pc).Left() <= b
    && (Searching(pc) ==> Ends(s.heap, pc.cur, b - SpotOf(pc).Left()))
  }

  lemma CursorPublished(s: State, t: Tid)
    requires Inv(s) && t < |s.tasks| && Searching(s.tasks[t])
    ensures PublishedAt(s.heap, s.tasks[t].cur)
  {
    TaskFacts(s, t);
    hide HistoryOk, FrozenOk, GraceOk, SyncedOk, OwnersOk, LockOk, TasksOk;
    if s.tasks[t].DelWalk? && s.tasks[t].cur.To? {
      assert s.tasks[t].cur.at in s.heap by { DelVisitKnows(s.heap, s.Order(), s.tasks[t].cur.at, s.tasks[t].id); }
    }
  }

  // The steps of other tasks leave the budget alone.
  lemma OthersKeepBudget(s: State, step: Step, s': State, t: Tid, b: nat)
    requires Inv(s) && Next(s, step, s') && Budget(s, t, b) && (step.CallbackStep? || step.t != t)
    ensures Budget(s', t, b)
  {
    hide Inv, Next, SpotOf, Ends;
    if step.CallbackStep? {
      CallbackKeepsTasks(s, step, s');
    } else {
      MovesOne(s, step, s');
    }
    assert s'.tasks[t] == s.tasks[t];
    var pc := s.tasks[t];
    if Searching(pc) {
      CursorPublished(s, t);
      StepEnds(s, step, s', pc.cur, b - SpotOf(pc).Left());
    }
  }

  // A turn of a search moves one node on, or ends the search.
  lemma TurnSpends(s: State, step: Step, s': State, b: nat)
    requires Next(s, step, s') && (step.VisitStep? || step.DelVisitStep?) && Budget(s, step.t, b)
    ensures b > 0 && Budget(s', step.t, b - 1)
  {
  }

  // Every other step moves the task on to a spot with less left to do.
  lemma LockSpends(s: State, t: Tid, s': State, b: nat)
    requires Lock(s, t, s') && Budget(s, t, b)
    ensures b > 0 && Budget(s', t, b - 1)
  {
    hide Ends;
  }

  lemma ControlSpends(s: State, step: Step, s': State, b: nat)
    requires Next(s, step, s') && (step.UnlockStep? || step.EndReadStep?) && Budget(s, step.t, b)
    ensures b > 0 && Budget(s', step.t, b - 1)
  {
    hide Ends;
  }

  lemma AllocSpends(s: State, step: Step, s': State, b: nat)
    requires Next(s, step, s') && (step.AllocCopyStep? || step.LoadHeadStep?) && Budget(s, step.t, b)
    ensures b > 0 && Budget(s', step.t, b - 1)
  {
    hide Ends;
  }

  lemma ChangeSpends(s: State, step: Step, s': State, b: nat)
    requires Next(s, step, s') && (step.InsertStep? || step.ReplaceStep? || step.UnlinkStep?) && Budget(s, step.t, b)
    ensures b > 0 && Budget(s', step.t, b - 1)
  {
    hide Ends, ReplaceHeap, UnlinkHeap;
  }

  lemma ReclaimSpends(s: State, step: Step, s': State, b: nat)
    requires Next(s, step, s') && (step.CallRcuStep? || step.SyncBeginStep? || step.SyncEndStep? || step.KfreeStep?)
    requires Budget(s, step.t, b)
    ensures b > 0 && Budget(s', step.t, b - 1)
  {
    hide Ends, Free;
  }

  lemma LockOf(s: State, step: Step, s': State)
    requires Next(s, step, s') && step.LockStep?
    ensures Lock(s, step.t, s')
  {
  }

  lemma OwnStepSpends(s: State, step: Step, s': State, b: nat)
    requires Next(s, step, s') && !step.CallbackStep? && !Begins(step) && Budget(s, step.t, b)
    ensures b > 0 && Budget(s', step.t, b - 1)
  {
    hide Next, Budget;
    if step.VisitStep? || step.DelVisitStep? {
      TurnSpends(s, step, s', b);
    } else if step.InsertStep? || step.ReplaceStep? || step.UnlinkStep? {
      ChangeSpends(s, step, s', b);
    } else if step.CallRcuStep? || step.SyncBeginStep? || step.SyncEndStep? || step.KfreeStep? {
      ReclaimSpends(s, step, s', b);
    } else if step.LockStep? {
      LockOf(s, step, s');
      LockSpends(s, step.t, s', b);
    } else if step.UnlockStep? || step.EndReadStep? {
      ControlSpends(s, step, s', b);
    } else {
      AllocSpends(s, step, s', b);
    }
  }

  // The steps of task t from the i-th up to the k-th of a run.
  function OwnSteps(steps: seq<Step>, t: Tid, i: nat, k: nat): nat
    requires i <= k <= |steps|
  {
    if i == k then 0
    else OwnSteps(steps, t, i, k - 1) + if !steps[k - 1].CallbackStep? && steps[k - 1].t == t then 1 else 0
  }

  // Task t begins no operation from the i-th up to the k-th step.
  ghost predicate NoBegin(steps: seq<Step>, t: Tid, i: nat, k: nat) {
    forall j :: i <= j < k && j < |steps| ==> !(Begins(steps[j]) && steps[j].t == t)
  }

  // However the tasks are scheduled, a task takes no more steps to the end of its operation
  // than its budget says.
  lemma {:induction false} OwnStepsBounded(states: seq<State>, steps: seq<Step>, i: nat, k: nat, t: Tid, b: nat)
    requires IsRun(states, steps) && i <= k < |states| && Budget(states[i], t, b) && NoBegin(steps, t, i, k)
    ensures OwnSteps(steps, t, i, k) <= b && Budget(states[k], t, b - OwnSteps(steps, t, i, k))
    decreases k
  {
    hide Inv, Next, Budget;
    if i < k {
      OwnStepsBounded(states, steps, i, k - 1, t, b);
      RunInv(states, steps, k - 1);
      var s, step, s' := states[k - 1], steps[k - 1], states[k];
      assert Next(s, step, s');
      var left := b - OwnSteps(steps, t, i, k - 1);
      if step.CallbackStep? || step.t != t {
        OthersKeepBudget(s, step, s', t, left);
      } else {
        OwnStepSpends(s, step, s', left);
      }
    }
  }

  // What is left right after the head has been loaded: the list, and nine steps or six.
  lemma HeadLoaded(s: State, t: Tid, s': State)
    requires Inv(s) && LoadHead(s, t, s')
    ensures s.Sized() && t < |s'.tasks| && Budget(s', t, |s.Order()| + if s'.tasks[t].Walk? then 9 else 6)
  {
    hide Inv, Linking, PublishedLinks;
    OrderLinks(s);
    ListEnds(s.heap, s.Order(), 0);
  }

  // Task t is searching in all states from the i-th to the k-th.
  ghost predicate StillSearching(states: seq<State>, t: Tid, i: nat, k: nat) {
    forall j :: i <= j <= k && j < |states| ==> t < |states[j].tasks| && Searching(states[j].tasks[t])
  }

  // A searching task begins nothing, and its search is of one kind.
  lemma SearchGoesOn(s: State, step: Step, s': State, t: Tid)
    requires Next(s, step, s') && t < |s.tasks| && t < |s'.tasks| && Searching(s.tasks[t]) && Searching(s'.tasks[t])
    ensures s'.tasks[t].Walk? == s.tasks[t].Walk? && !(Begins(step) && step.t == t)
  {
    if step.CallbackStep? {
      CallbackKeepsTasks(s, step, s');
    } else if step.t != t {
      hide Next;
      MovesOne(s, step, s');
    } else {
      hide ReplaceHeap, UnlinkHeap, Free;
    }
  }

  lemma {:induction false} SameSearch(states: seq<State>, steps: seq<Step>, i: nat, k: nat, t: Tid)
    requires IsRun(states, steps) && i <= k < |states| && StillSearching(states, t, i, k)
    ensures NoBegin(steps, t, i, k) && states[k].tasks[t].Walk? == states[i].tasks[t].Walk?
    decreases k
  {
    hide Next;
    if i < k {
      SameSearch(states, steps, i, k - 1, t);
      assert Next(states[k - 1], steps[k - 1], states[k]);
      SearchGoesOn(states[k - 1], steps[k - 1], states[k], t);
    }
  }

  // Whatever the updaters do, a search that is still under way has visited at most as many
  // nodes as were on the list when it loaded the head.
  lemma SearchBounded(states: seq<State>, steps: seq<Step>, i: nat, k: nat, t: Tid)
    requires IsRun(states, steps) && i < k < |states| && steps[i] == LoadHeadStep(t) && StillSearching(states, t, i + 1, k)
    ensures |states[i].log| > 0 && OwnSteps(steps, t, i + 1, k) <= |states[i].Order()|
  {
    hide Inv, Ends, LoadHead, NoBegin;
    RunInv(states, steps, i);
    assert LoadHead(states[i], t, states[i + 1]);
    HeadLoaded(states[i], t, states[i + 1]);
    hide Next, IsRun;
    SameSearch(states, steps, i + 1, k, t);
    var rest := if states[i + 1].tasks[t].Walk? then 9 else 6;
    OwnStepsBounded(states, steps, i + 1, k, t, |states[i].Order()| + rest);
    assert SpotOf(states[k].tasks[t]).Left() == rest;
  }

  // Every operation takes at most nine steps, and one for each node that was on the list when
  // it loaded the head, from then to its end.
  lemma OperationBounded(states: seq<State>, steps: seq<Step>, i: nat, k: nat, t: Tid)
    requires IsRun(states, steps) && i < k < |states| && steps[i] == LoadHeadStep(t) && NoBegin(steps, t, i + 1, k)
    ensures |states[i].log| > 0 && OwnSteps(steps, t, i + 1, k) <= |states[i].Order()| + 9
  {
    hide Inv, Ends, Budget, LoadHead, NoBegin;
    RunInv(states, steps, i);
    assert LoadHead(states[i], t, states[i + 1]);
    HeadLoaded(states[i], t, states[i + 1]);
    hide Next, IsRun;
    OwnStepsBounded(states, steps, i + 1, k, t, |states[i].Order()| + if states[i + 1].tasks[t].Walk? then 9 else 6);
  }
}

/**
 Whole operations over runs: what each does from its first step to its last, which arguments
 it goes by, and who frees the node that it takes off the list.
 */
module RcuOperations {
  import opened Common
  import opened RcuModel
  import opened RcuInvariant
  import opened RcuSteps
  import opened RcuTheorems
  import opened RcuControl
  import opened RcuContract
  import opened RcuRefinement
  import opened RcuBound
  import opened RcuFirst
  import opened RcuUpdate
  import BookList

  // ---------- the step that began an operation ----------

  // Whether an operation that takes nodes off the list was asked to reclaim them asynchronously.
  function AsyncArg(begun: Step): Option<bool> {
    match begun
    case BeginReadStep(_, Update(_, async), _) => Some(async)
    case DelRequestStep(_, _, async) => Some(async)
    case _ => None
  }

  // A task is at this point of the operation that this step began, with its arguments.
  predicate Names(begun: Step, pc: Pc) {
    match pc
    case Idle => false
    case Enter(op, id) => begun.BeginReadStep? && begun.op == op && begun.id == id
    case Walk(op, id, _) => begun.BeginReadStep? && begun.op == op && begun.id == id
    case Leave(op, id, _) => begun.BeginReadStep? && begun.op == op && begun.id == id
    case Hit(op, id, _) => begun.BeginReadStep? && begun.op == op && begun.id == id
    case Copied(op, id, _, _) => begun.BeginReadStep? && begun.op == op && begun.id == id
    case UpdLocked(op, id, _, _) => begun.BeginReadStep? && begun.op == op && begun.id == id
    case Replaced(op, id, _) => begun.BeginReadStep? && begun.op == op && begun.id == id
    case UpdUnlocked(op, id, _) => begun.BeginReadStep? && begun.op == op && begun.id == id
    case AddReady(n) => begun.AddAllocStep? && begun.n == n
    case AddLocked(n) => begun.AddAllocStep? && begun.n == n
    case Added => begun.AddAllocStep?
    case DelWant(id, async) => begun.DelRequestStep? && begun.id == id && begun.async == async
    case DelEnter(id, async) => begun.DelRequestStep? && begun.id == id && begun.async == async
    case DelWalk(id, async, _) => begun.DelRequestStep? && begun.id == id && begun.async == async
    case DelHit(id, async, _) => begun.DelRequestStep? && begun.id == id && begun.async == async
    case DelMiss => begun.DelRequestStep?
    case DelDone(async, _) => begun.DelRequestStep? && begun.async == async
    case Reclaim(async, _) => AsyncArg(begun) == Some(async)
    case SyncWait(_) => AsyncArg(begun) == Some(false)
    case SyncDone(_) => AsyncArg(begun) == Some(false)
  }

  lemma BeginNames(s: State, step: Step, s': State)
    requires Next(s, step, s') && Begins(step)
    ensures step.t < |s'.tasks| && Names(step, s'.tasks[step.t])
  {
  }

  // The steps of an operation keep to the arguments it began with.
  lemma NamesKept(s: State, step: Step, s': State, begun: Step)
    requires Next(s, step, s') && !step.CallbackStep? && !Begins(step) && step.t < |s.tasks| == |s'.tasks|
    requires s'.tasks[step.t] != Idle
    ensures s.tasks[step.t] != Idle && (Names(begun, s.tasks[step.t]) ==> Names(begun, s'.tasks[step.t]))
  {
    hide ReplaceHeap, UnlinkHeap, Free;
    if step.LockStep? || step.UnlockStep? || step.EndReadStep? {
      hide Next;
      ControlNames(s, step, s', begun);
    } else if step.CallRcuStep? || step.SyncBeginStep? || step.SyncEndStep? || step.KfreeStep? {
      hide Next;
      ReclaimNames(s, step, s', begun);
    }
  }

  lemma ControlNames(s: State, step: Step, s': State, begun: Step)
    requires Next(s, step, s') && (step.LockStep? || step.UnlockStep? || step.EndReadStep?) && step.t < |s.tasks| == |s'.tasks|
    requires s'.tasks[step.t] != Idle
    ensures s.tasks[step.t] != Idle && (Names(begun, s.tasks[step.t]) ==> Names(begun, s'.tasks[step.t]))
  {
  }

  lemma ReclaimNames(s: State, step: Step, s': State, begun: Step)
    requires Next(s, step, s') && (step.CallRcuStep? || step.SyncBeginStep? || step.SyncEndStep? || step.KfreeStep?)
    requires step.t < |s.tasks| == |s'.tasks| && s'.tasks[step.t] != Idle
    ensures s.tasks[step.t] != Idle && (Names(begun, s.tasks[step.t]) ==> Names(begun, s'.tasks[step.t]))
  {
    hide Free;
  }

  // Every operation under way was begun by a step that names its arguments.
  lemma {:induction false} BegunBy(states: seq<State>, steps: seq<Step>, k: nat, t: Tid) returns (b: nat)
    requires IsRun(states, steps) && k < |states| && t < |states[k].tasks| && states[k].tasks[t] != Idle
    ensures b < k && Begins(steps[b]) && steps[b].t == t && NoBegin(steps, t, b + 1, k)
    ensures Names(steps[b], states[k].tasks[t])
  {
    hide Next, Names;
    assert k > 0;
    var s, step, s' := states[k - 1], steps[k - 1], states[k];
    assert Next(s, step, s');
    if step.CallbackStep? {
      CallbackKeepsTasks(s, step, s');
      b := BegunBy(states, steps, k - 1, t);
    } else {
      MovesOne(s, step, s');
      if step.t != t {
        b := BegunBy(states, steps, k - 1, t);
      } else if Begins(step) {
        BeginNames(s, step, s');
        b := k - 1;
      } else {
        NamesKept(s, step, s', step);
        b := BegunBy(states, steps, k - 1, t);
        NamesKept(s, step, s', steps[b]);
      }
    }
  }

  // An idle task may begin any operation with any arguments; add_book needs an unused address.
  lemma IdleMayBegin(s: State, t: Tid, op: Op, id: int, async: bool, book: Book, n: Addr)
    requires s.Sized() && t < |s.tasks| && s.tasks[t] == Idle && !book.borrowed && n !in s.heap
    ensures exists s' :: Next(s, BeginReadStep(t, op, id), s')
    ensures exists s' :: Next(s, DelRequestStep(t, id, async), s')
    ensures exists s' :: Next(s, AddAllocStep(t, book, n), s')
  {
    var s1 := s.At(t, Enter(op, id)).(since := s.since[t := |s.log| - 1]);
    assert Next(s, BeginReadStep(t, op, id), s1);
    var s2 := s.At(t, DelWant(id, async));
    assert Next(s, DelRequestStep(t, id, async), s2);
    var s3 := s.At(t, AddReady(n)).(heap := s.heap[n := Node(book, End, Fresh(t))]);
    assert Next(s, AddAllocStep(t, book, n), s3);
  }

  // ---------- add_book ----------

  // While a task holds the lock, no step of another changes the list.
  lemma HolderKeepsList(s: State, step: Step, s': State, t: Tid)
    requires Inv(s) && Inv(s') && s.lock == Some(t) && Next(s, step, s') && (step.CallbackStep? || step.t != t)
    ensures Abs(s') == Abs(s) && t < |s.tasks| == |s'.tasks| && s'.tasks[t] == s.tasks[t] && s'.log == s.log
  {
    NotAnothersChange(s, step, s', t);
    hide Inv, Next, Abs;
    LogNotEmpty(s);
    LogStays(s, step, s');
    QuietRefines(s, step, s');
    HolderExists(s, t);
    OthersMove(s, step, s', t);
    if step.CallbackStep? {
      CallbackKeepsTasks(s, step, s');
    } else {
      MovesOne(s, step, s');
    }
  }

  lemma NotAnothersChange(s: State, step: Step, s': State, t: Tid)
    requires Inv(s) && s.lock == Some(t) && Next(s, step, s') && (step.CallbackStep? || step.t != t)
    ensures !step.InsertStep? && !step.ReplaceStep? && !step.UnlinkStep?
  {
    hide ListOk, HistoryOk, FrozenOk, GraceOk, SyncedOk, OwnersOk, TasksOk, ReplaceHeap, UnlinkHeap;
  }

  lemma HolderExists(s: State, t: Tid)
    requires Inv(s) && s.lock == Some(t)
    ensures t < |s.tasks| && s.tasks[t].HoldsLock()
  {
    hide ListOk, HistoryOk, FrozenOk, GraceOk, SyncedOk, OwnersOk, TasksOk;
  }

  lemma HoldsTheLock(s: State, t: Tid)
    requires Inv(s) && t < |s.tasks| && s.tasks[t].HoldsLock()
    ensures s.lock == Some(t)
  {
    hide ListOk, HistoryOk, FrozenOk, GraceOk, SyncedOk, OwnersOk, TasksOk;
  }

  // The book that a step publishes is the one with which the add_book began, not borrowed,
  // and it goes in front of all others.
  lemma PublishedAsNamed(states: seq<State>, steps: seq<Step>, k: nat, t: Tid) returns (b: nat)
    requires IsRun(states, steps) && k < |steps| && steps[k] == InsertStep(t)
    ensures b < k && steps[b].AddAllocStep? && steps[b].t == t && NoBegin(steps, t, b + 1, k)
    ensures !steps[b].book.borrowed && Inv(states[k]) && Inv(states[k + 1])
    ensures Abs(states[k + 1]) == [steps[b].book] + Abs(states[k])
  {
    assert Next(states[k], steps[k], states[k + 1]);
    assert Insert(states[k], t, states[k + 1]);
    b := BegunBy(states, steps, k, t);
    assert Next(states[b], steps[b], states[b + 1]);
    assert AddAlloc(states[b], t, steps[b].book, steps[b].n, states[b + 1]);
    hide Inv, Next, Abs, AddAlloc, Insert;
    EveryStepRefines(states, steps, k);
    AllocatedBook(states[b], t, steps[b].book, steps[b].n, states[b + 1]);
    SameBookAt(states, steps, b + 1, k, steps[b].n);
  }

  lemma AllocatedBook(s: State, t: Tid, book: Book, n: Addr, s': State)
    requires AddAlloc(s, t, book, n, s')
    ensures n in s'.heap && s'.heap[n].book == book && !book.borrowed
  {
  }

  lemma SameBookAt(states: seq<State>, steps: seq<Step>, i: nat, k: nat, a: Addr)
    requires IsRun(states, steps) && i <= k < |states| && a in states[i].heap
    ensures a in states[k].heap && states[k].heap[a].book == states[i].heap[a].book
  {
    hide Inv, Next;
    LogOfRun(states, steps, i, k);
  }

  // ---------- delete_book ----------

  // How far a delete of this id has come, on a list that stood for these books when it took
  // the lock: a search has not changed them, a hit is the first match, a miss means that no
  // book has the id, and afterwards the first match is gone.
  ghost predicate DeleteAt(before: seq<Book>, s: State, t: Tid, id: int) {
    && Inv(s) && t < |s.tasks|
    && match s.tasks[t]
       case DelEnter(i, _) => i == id && Abs(s) == before
       case DelWalk(i, _, _) => i == id && Abs(s) == before
       case DelHit(i, _, _) => i == id && Abs(s) == before && BookList.First(before, id) < |before|
       case DelMiss => Abs(s) == before && BookList.First(before, id) == |before|
       case DelDone(_, _) => Abs(s) == BookList.Deleted(before, id) && BookList.First(before, id) < |before|
       case _ => false
  }

  // If a turn of the locked search ends it without a hit, no book on the list has the id.
  lemma MissIsRight(s: State, t: Tid, s': State)
    requires Inv(s) && DelVisit(s, t, s') && s'.tasks[t].DelMiss?
    ensures BookList.First(Abs(s), s.tasks[t].id) == |Abs(s)|
  {
    TaskFacts(s, t);
    LogNotEmpty(s);
    hide Inv, Abs, NoneHas, NoneBefore;
    SearchedToEnd(s.heap, s.Order(), s.tasks[t].id);
    AbsentFirst(s, s.tasks[t].id);
  }

  lemma SearchedToEnd(heap: Heap, order: seq<Addr>, id: int)
    requires DelWalkOk(heap, order, End, id)
    ensures NoneHas(heap, order, id)
  {
    assert order[..|order|] == order;
  }

  lemma HitIsThere(s: State, t: Tid)
    requires Inv(s) && t < |s.tasks| && s.tasks[t].DelHit?
    ensures BookList.First(Abs(s), s.tasks[t].id) < |Abs(s)|
  {
    TaskFacts(s, t);
    LogNotEmpty(s);
    hide Inv, DelHitOk, Abs;
    var k := HitIsFirst(s, s.tasks[t].oldB, s.tasks[t].id);
  }

  // A turn of the locked search, or its start.
  lemma DeleteSearches(before: seq<Book>, s: State, step: Step, s': State, t: Tid, id: int)
    requires DeleteAt(before, s, t, id) && Inv(s') && Next(s, step, s') && (step == LoadHeadStep(t) || step == DelVisitStep(t))
    ensures DeleteAt(before, s', t, id)
  {
    hide Inv, Abs;
    QuietRefines(s, step, s');
    if step.DelVisitStep? {
      assert DelVisit(s, t, s');
      if s'.tasks[t].DelMiss? {
        MissIsRight(s, t, s');
      } else if s'.tasks[t].DelHit? {
        HitIsThere(s', t);
      }
    }
  }

  lemma DeleteUnlinks(before: seq<Book>, s: State, step: Step, s': State, t: Tid, id: int)
    requires DeleteAt(before, s, t, id) && Inv(s') && Next(s, step, s') && step.UnlinkStep? && step.t == t
    requires Refines(s, step, Abs(s), Abs(s'))
    ensures DeleteAt(before, s', t, id)
  {
    hide Inv, Abs, UnlinkHeap;
  }

  // The steps of a delete up to its spin_unlock.
  lemma OwnDeleteSteps(s: State, step: Step, s': State, t: Tid)
    requires Next(s, step, s') && !step.CallbackStep? && step.t == t && t < |s.tasks|
    requires s.tasks[t].DelEnter? || s.tasks[t].DelWalk? || s.tasks[t].DelHit? || s.tasks[t].DelMiss? || s.tasks[t].DelDone?
    ensures step == LoadHeadStep(t) || step == DelVisitStep(t) || step.UnlinkStep? || step == UnlockStep(t)
  {
    hide ReplaceHeap, UnlinkHeap, Free, Visited;
  }

  // Task t has held the lock for a delete since it took it by step l.
  ghost predicate Deleting(states: seq<State>, steps: seq<Step>, l: nat, i: nat, t: Tid) {
    && l < i < |states| && l < |steps| && i <= |steps| && steps[l] == LockStep(t)
    && t < |states[l].tasks| && states[l].tasks[t].DelWant?
    && forall j :: l < j < i ==> steps[j] != UnlockStep(t)
  }

  lemma {:induction false} DeleteProgress(states: seq<State>, steps: seq<Step>, l: nat, i: nat, t: Tid)
    requires IsRun(states, steps) && Deleting(states, steps, l, i, t) && Inv(states[l])
    ensures DeleteAt(Abs(states[l]), states[i], t, states[l].tasks[t].id)
    decreases i
  {
    hide Inv, Next, Abs, Refines;
    RunInv(states, steps, i - 1);
    EveryStepRefines(states, steps, i - 1);
    var s, step, s' := states[i - 1], steps[i - 1], states[i];
    var before, id := Abs(states[l]), states[l].tasks[t].id;
    assert Next(s, step, s');
    if i == l + 1 {
      DeleteLocks(s, t, s');
    } else {
      DeleteProgress(states, steps, l, i - 1, t);
      if step.CallbackStep? || step.t != t {
        HoldsTheLock(s, t);
        HolderKeepsList(s, step, s', t);
      } else {
        OwnDeleteSteps(s, step, s', t);
        if step.UnlinkStep? {
          DeleteUnlinks(before, s, step, s', t, id);
        } else {
          DeleteSearches(before, s, step, s', t, id);
        }
      }
    }
  }

  lemma DeleteLocks(s: State, t: Tid, s': State)
    requires Inv(s) && Inv(s') && Next(s, LockStep(t), s') && t < |s.tasks| && s.tasks[t].DelWant?
    ensures DeleteAt(Abs(s), s', t, s.tasks[t].id)
  {
    hide Inv, Abs;
    QuietRefines(s, LockStep(t), s');
  }

  // From its spin_lock to its spin_unlock, a delete takes exactly the first book with its id
  // off the list, or, if there is none, leaves the list as it is; only then is it done at once.
  lemma DeleteIsSequential(states: seq<State>, steps: seq<Step>, l: nat, u: nat, t: Tid)
    requires IsRun(states, steps) && Deleting(states, steps, l, u, t) && u < |steps| && steps[u] == UnlockStep(t)
    ensures Inv(states[l]) && Inv(states[u + 1]) && t < |states[u + 1].tasks|
    ensures var before, id := Abs(states[l]), states[l].tasks[t].id;
            && Abs(states[u + 1]) == BookList.Deleted(before, id)
            && (states[u + 1].tasks[t] == Idle <==> BookList.First(before, id) == |before|)
            && (states[u + 1].tasks[t] != Idle ==> states[u + 1].tasks[t].Reclaim?)
  {
    hide Inv, Next, Abs;
    RunInv(states, steps, l);
    RunInv(states, steps, u);
    RunInv(states, steps, u + 1);
    DeleteProgress(states, steps, l, u, t);
    UnlockAt(states, steps, u);
    hide IsRun, Deleting;
    DeleteUnlocks(Abs(states[l]), states[u], states[u + 1], t, states[l].tasks[t].id);
  }

  lemma UnlockAt(states: seq<State>, steps: seq<Step>, u: nat)
    requires IsRun(states, steps) && u < |steps|
    ensures Next(states[u], steps[u], states[u + 1])
  {
  }

  lemma DeleteUnlocks(before: seq<Book>, s: State, s': State, t: Tid, id: int)
    requires DeleteAt(before, s, t, id) && Inv(s') && Next(s, UnlockStep(t), s')
    ensures t < |s'.tasks| && Abs(s') == BookList.Deleted(before, id)
    ensures s'.tasks[t] == Idle <==> BookList.First(before, id) == |before|
    ensures s'.tasks[t] != Idle ==> s'.tasks[t].Reclaim?
  {
    hide Inv, Abs;
    QuietRefines(s, UnlockStep(t), s');
  }

  // ---------- borrow_book and return_book ----------

  // A task that has chosen a node, for either flag, may be given any unused address for the
  // copy, which has the flag that was asked for, or no memory.
  lemma HitMayCopy(states: seq<State>, steps: seq<Step>, k: nat, t: Tid, n: Addr)
    requires IsRun(states, steps) && k < |states| && t < |states[k].tasks| && states[k].tasks[t].Hit? && n !in states[k].heap
    ensures var Hit(op, id, oldB) := states[k].tasks[t];
            && op.Update? && oldB in states[k].heap
            && exists s' :: && Next(states[k], AllocCopyStep(t, Some(n)), s')
                            && t < |s'.tasks| && s'.tasks[t] == Copied(op, id, oldB, n) && n in s'.heap
                            && s'.heap[n].book == states[k].heap[oldB].book.(borrowed := op.want)
    ensures exists s' :: Next(states[k], AllocCopyStep(t, None), s')
  {
    hide Inv;
    RunInv(states, steps, k);
    TaskFacts(states[k], t);
    var s := states[k];
    var Hit(op, id, oldB) := s.tasks[t];
    var copy := s.heap[oldB].(book := s.heap[oldB].book.(borrowed := op.want), status := Fresh(t));
    var s1 := s.At(t, Copied(op, id, oldB, n)).(heap := s.heap[n := copy]);
    assert Next(s, AllocCopyStep(t, Some(n)), s1);
    var s2 := s.At(t, Leave(op, id, NoMemory));
    assert Next(s, AllocCopyStep(t, None), s2);
  }

  // What a task inside a section did in its last step to come to this point.
  lemma StepInto(s: State, step: Step, s': State, t: Tid)
    requires Next(s, step, s') && !step.CallbackStep? && step.t == t && t < |s.tasks| && s'.Open(t)
    ensures s'.tasks[t].Leave? && s'.tasks[t].answer == NoMemory ==> s.Open(t) && step == AllocCopyStep(t, None)
    ensures s'.tasks[t].Replaced? ==> s.Open(t) && step.ReplaceStep?
    ensures s'.tasks[t].UpdUnlocked? ==> s.Open(t) && s.tasks[t].Replaced?
  {
    if step.LockStep? || step.UnlockStep? {
      hide Next;
      LockInto(s, step, s', t);
    } else {
      hide ReplaceHeap, UnlinkHeap, Free;
    }
  }

  lemma LockInto(s: State, step: Step, s': State, t: Tid)
    requires Next(s, step, s') && (step.LockStep? || step.UnlockStep?) && step.t == t && t < |s.tasks| && s'.Open(t)
    ensures !s'.tasks[t].Leave? && !s'.tasks[t].Replaced? && (s'.tasks[t].UpdUnlocked? ==> s.tasks[t].Replaced?)
  {
  }

  // A section gives up for want of memory only if an allocation in that section has failed.
  lemma {:induction false} NoMemoryFromAlloc(states: seq<State>, steps: seq<Step>, k: nat, t: Tid) returns (i: nat)
    requires IsRun(states, steps) && k < |states| && t < |states[k].tasks|
    requires states[k].tasks[t].Leave? && states[k].tasks[t].answer == NoMemory
    ensures i < k && steps[i] == AllocCopyStep(t, None) && SameSection(states, t, i, k)
  {
    hide Next;
    assert k > 0;
    var s, step, s' := states[k - 1], steps[k - 1], states[k];
    assert Next(s, step, s');
    if !step.CallbackStep? && step.t == t {
      MovesOne(s, step, s');
      StepInto(s, step, s', t);
      i := k - 1;
    } else {
      SameTask(s, step, s', t);
      i := NoMemoryFromAlloc(states, steps, k - 1, t);
    }
    assert SameSection(states, t, i, k);
  }

  lemma SameTask(s: State, step: Step, s': State, t: Tid)
    requires Next(s, step, s') && t < |s'.tasks| && (step.CallbackStep? || step.t != t)
    ensures t < |s.tasks| && s.tasks[t] == s'.tasks[t]
  {
    hide Next;
    if step.CallbackStep? {
      CallbackKeepsTasks(s, step, s');
    } else {
      MovesOne(s, step, s');
    }
  }

  // A section that has unlocked after a replacement has made it in that section.
  lemma {:induction false} ReplacedInSection(states: seq<State>, steps: seq<Step>, k: nat, t: Tid) returns (i: nat)
    requires IsRun(states, steps) && k < |states| && t < |states[k].tasks|
    requires states[k].tasks[t].Replaced? || states[k].tasks[t].UpdUnlocked?
    ensures i < k && steps[i].ReplaceStep? && steps[i].t == t && SameSection(states, t, i, k)
  {
    hide Next;
    assert k > 0;
    var s, step, s' := states[k - 1], steps[k - 1], states[k];
    assert Next(s, step, s');
    if !step.CallbackStep? && step.t == t {
      MovesOne(s, step, s');
      StepInto(s, step, s', t);
      if step.ReplaceStep? {
        i := k - 1;
      } else {
        i := ReplacedInSection(states, steps, k - 1, t);
      }
    } else {
      SameTask(s, step, s', t);
      i := ReplacedInSection(states, steps, k - 1, t);
    }
    assert SameSection(states, t, i, k);
  }

  // No allocation of task t fails, and it replaces nothing, from the i-th up to the k-th step.
  ghost predicate GivesUpFreely(steps: seq<Step>, t: Tid, i: nat, k: nat) {
    forall j :: i <= j < k && j < |steps| ==> steps[j] != AllocCopyStep(t, None) && !(steps[j].ReplaceStep? && steps[j].t == t)
  }

  // A borrow or return that ends its section without a replacement, although no allocation
  // has failed, could not have been applied at an instant of its search, if no book with the
  // id has been published meanwhile.
  lemma GivesUpRightly(states: seq<State>, steps: seq<Step>, l: nat, k: nat, t: Tid) returns (i: nat)
    requires IsRun(states, steps) && k < |steps| && steps[k] == EndReadStep(t) && LoadedBy(states, steps, l, k, t)
    requires t < |states[k].tasks| && (states[k].tasks[t].Leave? || states[k].tasks[t].UpdUnlocked?)
    requires states[k].tasks[t].op.Update? && NoneAdded(states, steps, l + 1, k, states[k].tasks[t].id)
    requires GivesUpFreely(steps, t, l, k)
    ensures l < i <= k && SameSection(states, t, i, k) && Inv(states[i])
    ensures !BookList.CanUpdate(Abs(states[i]), states[k].tasks[t].id, states[k].tasks[t].op.want)
  {
    hide Inv, Next, NoneAdded, Abs;
    var pc := states[k].tasks[t];
    GivenUp(states, steps, l, k, t);
    i := RefusalsRight(states, steps, l, k, t);
  }

  lemma GivenUp(states: seq<State>, steps: seq<Step>, l: nat, k: nat, t: Tid)
    requires IsRun(states, steps) && k < |states| && LoadedBy(states, steps, l, k, t) && GivesUpFreely(steps, t, l, k)
    requires t < |states[k].tasks| && (states[k].tasks[t].Leave? || states[k].tasks[t].UpdUnlocked?)
    ensures states[k].tasks[t].Leave? && states[k].tasks[t].answer != NoMemory
  {
    hide Inv, Next;
    if states[k].tasks[t].UpdUnlocked? {
      var i := ReplacedInSection(states, steps, k, t);
      AfterHead(states, steps, l, i, k, t);
    } else if states[k].tasks[t].answer == NoMemory {
      var i := NoMemoryFromAlloc(states, steps, k, t);
      AfterHead(states, steps, l, i, k, t);
    }
  }

  // Allocation and replacement come after the load of the head in their section.
  lemma AfterHead(states: seq<State>, steps: seq<Step>, l: nat, i: nat, k: nat, t: Tid)
    requires IsRun(states, steps) && k < |states| && LoadedBy(states, steps, l, k, t) && i < k && SameSection(states, t, i, k)
    requires steps[i] == AllocCopyStep(t, None) || (steps[i].ReplaceStep? && steps[i].t == t)
    ensures l < i
  {
    hide Inv, Next;
    if i < l {
      assert states[l].Open(t) && states[i].Open(t);
      assert Next(states[l], steps[l], states[l + 1]) && Next(states[i], steps[i], states[i + 1]);
      HeadOfSection(states[l], t, states[l + 1]);
      PastHead(states[i], steps[i], t, states[i + 1]);
      StaysLoaded(states, steps, i, l, t);
    }
  }

  lemma PastHead(s: State, step: Step, t: Tid, s': State)
    requires Next(s, step, s') && (step == AllocCopyStep(t, None) || (step.ReplaceStep? && step.t == t))
    ensures t < |s.tasks| && Loaded(s.tasks[t])
  {
  }

  // A task that has loaded the head stays past that point for the rest of its section.
  lemma {:induction false} StaysLoaded(states: seq<State>, steps: seq<Step>, i: nat, k: nat, t: Tid)
    requires IsRun(states, steps) && SameSection(states, t, i, k) && Loaded(states[i].tasks[t])
    ensures Loaded(states[k].tasks[t])
    decreases k
  {
    hide Next;
    if i < k {
      StaysLoaded(states, steps, i, k - 1, t);
      assert states[k - 1].Open(t) && states[k].Open(t);
      assert Next(states[k - 1], steps[k - 1], states[k]);
      if steps[k - 1].CallbackStep? || steps[k - 1].t != t {
        SameTask(states[k - 1], steps[k - 1], states[k], t);
      } else {
        NotBackToHead(states[k - 1], steps[k - 1], states[k], t);
      }
    }
  }

  lemma NotBackToHead(s: State, step: Step, s': State, t: Tid)
    requires Next(s, step, s') && !step.CallbackStep? && step.t == t && s.Open(t) && s'.Open(t)
    ensures Loaded(s'.tasks[t])
  {
    hide ReplaceHeap, UnlinkHeap, Free;
  }

  // ---------- who frees the node ----------

  // The async argument that a task still goes by when it has taken a node off the list.
  function ReclaimArg(pc: Pc): bool {
    match pc
    case Replaced(op, _, _) => op.Update? && op.async
    case UpdUnlocked(op, _, _) => op.Update? && op.async
    case DelDone(async, _) => async
    case Reclaim(async, _) => async
    case _ => false
  }

  // Task t took node a off the list, to be reclaimed asynchronously or not, and still has to
  // free it itself, or has handed it to a callback because it was to be so, or it is freed.
  ghost predicate Owed(s: State, t: Tid, a: Addr, async: bool) {
    && t < |s.tasks| && a in s.heap
    && match s.heap[a].status
       case Freed(_) => true
       case Retired(_, ByCallback) => async
       case Retired(_, ByTask(u)) => u == t && s.tasks[t].MustFree() == To(a) && ReclaimArg(s.tasks[t]) == async
       case _ => false
  }

  lemma TakesToOwe(s: State, step: Step, s': State, a: Addr)
    requires Inv(s) && Inv(s') && Next(s, step, s') && TakesOff(s, step, a)
    ensures Owed(s', step.t, a, AsyncOf(s.tasks[step.t]))
  {
    TakenWasListed(s, step, s', a);
    TakenOff(s, step, s', a);
    MovesOne(s, step, s');
    TakerOwes(s, step, s', a);
    hide Inv, Next;
    OwnerIs(s', step.t, a);
  }

  function AsyncOf(pc: Pc): bool {
    match pc
    case UpdLocked(op, _, _, _) => op.Update? && op.async
    case DelHit(_, async, _) => async
    case _ => false
  }

  lemma TakerOwes(s: State, step: Step, s': State, a: Addr)
    requires Next(s, step, s') && TakesOff(s, step, a)
    ensures step.t < |s'.tasks| && s'.tasks[step.t].MustFree() == To(a)
    ensures ReclaimArg(s'.tasks[step.t]) == AsyncOf(s.tasks[step.t])
  {
    hide ReplaceHeap, UnlinkHeap;
  }

  // The node that a task must free is retired, and its own to free.
  lemma OwnerIs(s: State, t: Tid, a: Addr)
    requires Inv(s) && t < |s.tasks| && s.tasks[t].MustFree() == To(a)
    ensures a in s.heap && s.heap[a].status.Retired? && s.heap[a].status.claim == ByTask(t)
  {
    hide Inv;
    TaskFacts(s, t);
  }

  lemma StaysOwed(s: State, step: Step, s': State, t: Tid, a: Addr, async: bool)
    requires Inv(s) && Inv(s') && Next(s, step, s') && Owed(s, t, a, async)
    ensures Owed(s', t, a, async)
  {
    if s.heap[a].status.Retired? && s.heap[a].status.claim == ByTask(t) {
      OwnerStays(s, step, s', t, a, async);
    } else {
      OtherwiseStays(s, step, s', t, a, async);
    }
  }

  lemma OwnerStays(s: State, step: Step, s': State, t: Tid, a: Addr, async: bool)
    requires Inv(s) && Inv(s') && Next(s, step, s') && Owed(s, t, a, async)
    requires s.heap[a].status.Retired? && s.heap[a].status.claim == ByTask(t)
    ensures Owed(s', t, a, async)
  {
    if step.CallRcuStep? && step.t == t {
      assert CallRcu(s, t, s');
    } else if step.KfreeStep? && step.t == t {
      assert Kfree(s, t, s');
    } else {
      hide Inv, Next;
      StillMustFree(s, step, s', t);
      OwnerIs(s', t, a);
    }
  }

  lemma StillMustFree(s: State, step: Step, s': State, t: Tid)
    requires Next(s, step, s') && t < |s.tasks| && s.tasks[t].MustFree().To?
    requires !(step.CallRcuStep? && step.t == t) && !(step.KfreeStep? && step.t == t)
    ensures t < |s'.tasks| && s'.tasks[t].MustFree() == s.tasks[t].MustFree() && ReclaimArg(s'.tasks[t]) == ReclaimArg(s.tasks[t])
  {
    if step.CallbackStep? {
      CallbackKeepsTasks(s, step, s');
    } else if step.t != t {
      hide Next;
      MovesOne(s, step, s');
    } else {
      hide ReplaceHeap, UnlinkHeap, Free, Visited;
    }
  }

  lemma OtherwiseStays(s: State, step: Step, s': State, t: Tid, a: Addr, async: bool)
    requires Inv(s) && Next(s, step, s') && Owed(s, t, a, async)
    requires s.heap[a].status.Retired? ==> s.heap[a].status.claim == ByCallback
    ensures Owed(s', t, a, async)
  {
    hide Inv, Next;
    if !step.CallbackStep? {
      MovesOne(s, step, s');
    } else {
      CallbackKeepsTasks(s, step, s');
    }
    if step.InsertStep? || step.ReplaceStep? || step.UnlinkStep? {
      var n, oldB := StepRelinks(s, step, s', step.t);
    } else if step.CallRcuStep? {
      HandsOver(s, step.t, s', a);
    } else {
      QuietStatus(s, step, s', a);
    }
  }

  // call_rcu hands over the node of its task and no other.
  lemma HandsOver(s: State, t: Tid, s': State, a: Addr)
    requires Inv(s) && Next(s, CallRcuStep(t), s') && a in s.heap
    requires s.heap[a].status.Freed? || (s.heap[a].status.Retired? && s.heap[a].status.claim == ByCallback)
    ensures a in s'.heap && s'.heap[a].status == s.heap[a].status
  {
    assert CallRcu(s, t, s');
    OwnerOf(s, t);
    hide Inv;
  }

  // Other steps leave the status of a node that is off the list alone, or free it.
  lemma QuietStatus(s: State, step: Step, s': State, a: Addr)
    requires Next(s, step, s') && !step.InsertStep? && !step.ReplaceStep? && !step.UnlinkStep? && !step.CallRcuStep?
    requires a in s.heap && s.heap[a].status.Unlinked()
    ensures a in s'.heap && (s'.heap[a].status == s.heap[a].status || s'.heap[a].status.Freed?)
  {
    hide Visited;
  }

  lemma OwnerOf(s: State, t: Tid)
    requires Inv(s) && t < |s.tasks| && s.tasks[t].Reclaim?
    ensures s.tasks[t].oldB in s.heap && s.heap[s.tasks[t].oldB].status.Retired? && s.heap[s.tasks[t].oldB].status.claim == ByTask(t)
  {
    hide Inv;
    TaskFacts(s, t);
  }

  lemma {:induction false} OwedSince(states: seq<State>, steps: seq<Step>, i: nat, k: nat, a: Addr)
    requires IsRun(states, steps) && i < k < |states| && TakesOff(states[i], steps[i], a)
    ensures Owed(states[k], steps[i].t, a, AsyncOf(states[i].tasks[steps[i].t]))
    decreases k
  {
    hide Inv, Next, Owed, TakesOff;
    RunInv(states, steps, k - 1);
    RunInv(states, steps, k);
    assert Next(states[k - 1], steps[k - 1], states[k]);
    TakerExists(states[i], steps[i], a);
    if k == i + 1 {
      TakesToOwe(states[i], steps[i], states[k], a);
    } else {
      OwedSince(states, steps, i, k - 1, a);
      StaysOwed(states[k - 1], steps[k - 1], states[k], steps[i].t, a, AsyncOf(states[i].tasks[steps[i].t]));
    }
  }

  lemma TakerExists(s: State, step: Step, a: Addr)
    requires TakesOff(s, step, a)
    ensures !step.CallbackStep? && step.t < |s.tasks| && s.tasks[step.t] != Idle
  {
  }

  // A node taken off the list is freed by its callback if the operation that took it off was
  // called with async, and by the kfree of that operation's own task if not.
  lemma ReclaimedAsAsked(states: seq<State>, steps: seq<Step>, i: nat, k: nat, a: Addr) returns (b: nat)
    requires IsRun(states, steps) && i < k < |steps| && TakesOff(states[i], steps[i], a) && Frees(states[k], steps[k], a)
    ensures !steps[i].CallbackStep? && b < i && Begins(steps[b]) && steps[b].t == steps[i].t && NoBegin(steps, steps[i].t, b + 1, i)
    ensures AsyncArg(steps[b]) == Some(true) || AsyncArg(steps[b]) == Some(false)
    ensures AsyncArg(steps[b]) == Some(true) ==> steps[k] == CallbackStep(a)
    ensures AsyncArg(steps[b]) == Some(false) ==> steps[k] == KfreeStep(steps[i].t)
  {
    hide Inv, Next, Owed, TakesOff, Frees, Names;
    TakerExists(states[i], steps[i], a);
    b := BegunBy(states, steps, i, steps[i].t);
    RunInv(states, steps, i);
    ArgOfTaker(states[i], steps[i], a, steps[b]);
    OwedSince(states, steps, i, k, a);
    RunInv(states, steps, k);
    assert Next(states[k], steps[k], states[k + 1]);
    FreedByOwner(states[k], steps[k], states[k + 1], steps[i].t, a, AsyncOf(states[i].tasks[steps[i].t]));
  }

  lemma ArgOfTaker(s: State, step: Step, a: Addr, begun: Step)
    requires Inv(s) && TakesOff(s, step, a) && Names(begun, s.tasks[step.t])
    ensures AsyncArg(begun) == Some(AsyncOf(s.tasks[step.t]))
  {
    hide Inv;
    TaskFacts(s, step.t);
  }

  lemma FreedByOwner(s: State, step: Step, s': State, t: Tid, a: Addr, async: bool)
    requires Inv(s) && Next(s, step, s') && Owed(s, t, a, async) && Frees(s, step, a)
    ensures step == if async then CallbackStep(a) else KfreeStep(t)
  {
    if step.CallbackStep? {
      CallbackOwner(s, s', a);
    } else {
      FreesItsOwn(s, step.t, s', a);
      hide Inv, Next;
      OwnerIs(s, step.t, a);
    }
  }

  lemma CallbackOwner(s: State, s': State, a: Addr)
    requires Next(s, CallbackStep(a), s')
    ensures a in s.heap && s.heap[a].status.Retired? && s.heap[a].status.claim == ByCallback
  {
  }

  lemma FreesItsOwn(s: State, t: Tid, s': State, a: Addr)
    requires Next(s, KfreeStep(t), s') && Frees(s, KfreeStep(t), a)
    ensures t < |s.tasks| && s.tasks[t].MustFree() == To(a)
  {
  }
}

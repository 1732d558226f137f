/**
 is_borrowed_book leaves its section before it reads the flag of the node it has found.  Its
 section runs like that of print_book; what follows is about the read after the section.
 */
module RcuLateRead {
  import opened Common
  import opened RcuModel
  import opened RcuInvariant
  import opened RcuSteps
  import opened RcuTheorems
  import opened RcuContract
  import opened RcuRuns

  // At step j task t leaves a section in which it has found node a.
  predicate LeavesWith(states: seq<State>, steps: seq<Step>, j: nat, t: Tid, a: Addr, book: Book) {
    && j < |steps| && j < |states| && steps[j] == EndReadStep(t)
    && t < |states[j].tasks| && states[j].tasks[t].Leave? && states[j].tasks[t].answer == Shown(a, book)
  }

  // A read of the node at a later state k hits a freed node if and only if a kfree or a
  // callback for the node has come in between; then the node is off the list.  Otherwise the
  // read gives the flag that the book had in the section.
  lemma LateReadExactly(states: seq<State>, steps: seq<Step>, j: nat, k: nat, t: Tid, a: Addr, book: Book)
    requires IsRun(states, steps) && j < k < |states| && LeavesWith(states, steps, j, t, a, book)
    ensures a in states[k].heap && states[k].heap[a].book == book
    ensures states[k].heap[a].status.Freed? <==> exists i :: j < i < k && Frees(states[i], steps[i], a)
    ensures |states[k].log| > 0 && (states[k].heap[a].status.Freed? ==> a !in states[k].Order())
  {
    hide Inv, Frees;
    RunInv(states, steps, j);
    FoundIsSafe(states[j], t);
    assert EndRead(states[j], t, states[j + 1]);
    assert states[j + 1].heap == states[j].heap;
    hide Next, EndRead;
    LogOfRun(states, steps, j + 1, k);
    FreedExactly(states, steps, j + 1, k, a);
    RunInv(states, steps, k);
    FreedIsUnlisted(states[k], a);
  }

  lemma FoundIsSafe(s: State, t: Tid)
    requires Inv(s) && t < |s.tasks| && s.tasks[t].Leave? && s.tasks[t].answer.Shown?
    ensures var Shown(a, book) := s.tasks[t].answer;
            a in s.heap && s.heap[a].book == book && !s.heap[a].status.Freed?
  {
    TaskFacts(s, t);
    var Shown(a, book) := s.tasks[t].answer;
    hide Inv;
    if s.heap[a].status.Freed? {
      FreedIsElapsed(s, t, a);
    }
  }

  lemma FreedIsUnlisted(s: State, a: Addr)
    requires Inv(s) && a in s.heap
    ensures |s.log| > 0 && (s.heap[a].status.Freed? ==> a !in s.Order())
  {
    hide HistoryOk, FrozenOk, GraceOk, SyncedOk, OwnersOk, LockOk, TasksOk;
    forall i | 0 <= i < |s.Order()| ensures s.heap[s.Order()[i]].status.Linked? {
      assert s.Order()[i] in s.heap;
    }
  }

  // ---------- operations that spoil the late read ----------

  // Node a was found in the section that begins with state b, by the step j that leaves it.
  ghost predicate FoundIn(states: seq<State>, steps: seq<Step>, b: nat, j: nat, t: Tid, a: Addr, book: Book) {
    && LeavesWith(states, steps, j, t, a, book)
    && 0 < b && SameSection(states, t, b, j) && !states[b - 1].Open(t)
  }

  // The order of the list when the section began is the one its start names.
  lemma SectionStart(states: seq<State>, steps: seq<Step>, b: nat, j: nat, t: Tid)
    requires IsRun(states, steps) && 0 < b && SameSection(states, t, b, j) && !states[b - 1].Open(t)
    ensures states[j].Sized() && t < |states[j].since| && states[j].since[t] == |states[b].log| - 1
  {
    hide Inv, Next;
    SinceOfSection(states, steps, b, j, t);
    RunInv(states, steps, b - 1);
    LogNotEmpty(states[b - 1]);
    assert states[b].Open(t);
    assert Next(states[b - 1], steps[b - 1], states[b]);
    SectionStarts(states[b - 1], steps[b - 1], states[b], t);
  }

  // A node found in a section that is off the list later was taken off since the section began.
  lemma TakenSinceFound(states: seq<State>, steps: seq<Step>, b: nat, j: nat, k: nat, t: Tid, a: Addr, book: Book) returns (i: nat)
    requires IsRun(states, steps) && j < k < |states| && FoundIn(states, steps, b, j, t, a, book)
    requires a in states[k].heap && states[k].heap[a].status.Unlinked()
    ensures b <= i < k && TakesOff(states[i], steps[i], a)
  {
    hide Inv, Next, Kept;
    RunInv(states, steps, j);
    SectionStart(states, steps, b, j, t);
    TaskFacts(states[j], t);
    LogOfRun(states, steps, j, k);
    SinceIsPast(states[j], t);
    LaterKept(states[j].heap, states[k].heap, |states[j].log|, a, states[j].since[t]);
    i := UnlinkInstant(states, steps, k, a);
    RunInv(states, steps, i);
    assert Next(states[i], steps[i], states[i + 1]);
    TakenOff(states[i], steps[i], states[i + 1], a);
    if i < b {
      LogGrows(states[i], steps[i], states[i + 1]);
      LogOfRun(states, steps, i + 1, b);
    }
  }

  // The node is still on the list at the read if and only if no borrow, return or delete has
  // taken it off since the section began; and then the read gives its flag from memory that
  // has not been freed.
  lemma LateReadListed(states: seq<State>, steps: seq<Step>, b: nat, j: nat, k: nat, t: Tid, a: Addr, book: Book)
    requires IsRun(states, steps) && j < k < |states| && FoundIn(states, steps, b, j, t, a, book)
    ensures |states[k].log| > 0 && a in states[k].heap && states[k].heap[a].book == book
    ensures a in states[k].Order() <==> forall i :: b <= i < k ==> !TakesOff(states[i], steps[i], a)
    ensures a in states[k].Order() ==> !states[k].heap[a].status.Freed?
  {
    hide Inv, Next, TakesOff, SameSection;
    LateReadExactly(states, steps, j, k, t, a, book);
    RunInv(states, steps, k);
    ListedIsLinked(states[k], a);
    FoundIsPublished(states, steps, j, k, t, a, book);
    if states[k].heap[a].status.Unlinked() {
      var i := TakenSinceFound(states, steps, b, j, k, t, a, book);
    }
    forall i | b <= i < k && TakesOff(states[i], steps[i], a) ensures !states[k].heap[a].status.Linked? {
      TakenStays(states, steps, i, k, a);
    }
  }

  lemma FoundIsPublished(states: seq<State>, steps: seq<Step>, j: nat, k: nat, t: Tid, a: Addr, book: Book)
    requires IsRun(states, steps) && j < k < |states| && LeavesWith(states, steps, j, t, a, book) && a in states[k].heap
    ensures !states[k].heap[a].status.Fresh?
  {
    hide Inv, Next;
    RunInv(states, steps, j);
    TaskFacts(states[j], t);
    LogOfRun(states, steps, j, k);
  }

  // The step replaces or unlinks a node for a borrow, return or delete of this id.
  predicate Removes(s: State, step: Step, id: int) {
    && (step.ReplaceStep? || step.UnlinkStep?) && step.t < |s.tasks|
    && (s.tasks[step.t].UpdLocked? || s.tasks[step.t].DelHit?) && s.tasks[step.t].id == id
  }

  // A step that takes a book off does so for an operation on its id.
  lemma TakesOffItsId(s: State, step: Step, s': State, a: Addr)
    requires Inv(s) && Next(s, step, s') && TakesOff(s, step, a)
    ensures a in s.heap && Removes(s, step, s.heap[a].book.id)
  {
    TaskFacts(s, step.t);
    hide Inv;
  }

  // If no borrow, return or delete of the same id reaches its change of the list from the
  // start of the section to the read, is_borrowed_book reads the right flag from a node that
  // is on the list.
  lemma LateReadUndisturbed(states: seq<State>, steps: seq<Step>, b: nat, j: nat, k: nat, t: Tid, a: Addr, book: Book)
    requires IsRun(states, steps) && j < k < |states| && FoundIn(states, steps, b, j, t, a, book)
    requires forall i :: b <= i < k ==> !Removes(states[i], steps[i], book.id)
    ensures |states[k].log| > 0 && a in states[k].Order()
    ensures a in states[k].heap && states[k].heap[a].book == book && !states[k].heap[a].status.Freed?
  {
    hide Inv, Next, TakesOff, Removes, SameSection;
    forall i | b <= i < k ensures !TakesOff(states[i], steps[i], a) {
      if TakesOff(states[i], steps[i], a) {
        StepInRun(states, steps, i);
        TakesOffItsId(states[i], steps[i], states[i + 1], a);
        SameBookLater(states, steps, i, k, a);
        LateReadExactly(states, steps, j, k, t, a, book);
      }
    }
    LateReadListed(states, steps, b, j, k, t, a, book);
  }

  lemma StepInRun(states: seq<State>, steps: seq<Step>, i: nat)
    requires IsRun(states, steps) && i + 1 < |states|
    ensures i < |steps| && Inv(states[i]) && Next(states[i], steps[i], states[i + 1])
  {
    hide Inv;
    RunInv(states, steps, i);
  }

  lemma SameBookLater(states: seq<State>, steps: seq<Step>, i: nat, k: nat, a: Addr)
    requires IsRun(states, steps) && i <= k < |states| && a in states[i].heap
    ensures a in states[k].heap && states[k].heap[a].book == states[i].heap[a].book
  {
    hide Inv, Next;
    LogOfRun(states, steps, i, k);
  }

  // ---------- a run in which the late read hits a freed node ----------

  // Nothing is under way, and the list holds one book.
  ghost predicate OneBook(s: State, a: Addr, id: int) {
    && s.Sized() && s.lock == None && s.graces == map[] && s.head == To(a) && s.Order() == [a]
    && a in s.heap && s.heap[a].book.id == id && s.heap[a].next == End
    && forall t :: 0 <= t < |s.tasks| ==> s.tasks[t] == Idle
  }

  // A task takes the lock and finds the book.
  lemma FindsToDelete(run: Run, t: Tid, a: Addr, id: int) returns (run': Run)
    requires run.Valid() && OneBook(run.Last(), a, id) && t < |run.Last().tasks|
    ensures run'.Extends(run) && run'.Last() == run.Last().At(t, DelHit(id, true, a)).(lock := Some(t))
  {
    var s := run.Last();
    var s1 := s.At(t, DelWant(id, true));
    var s2 := s1.At(t, DelEnter(id, true)).(lock := Some(t));
    var s3 := s2.At(t, DelWalk(id, true, To(a)));
    var s4 := s3.At(t, DelHit(id, true, a));
    assert DelRequest(s, t, id, true, s1) && Lock(s1, t, s2) && LoadHead(s2, t, s3) && DelVisit(s3, t, s4);
    assert s4.tasks == s.tasks[t := DelHit(id, true, a)];
    hide Run.Valid;
    run' := Then(run, DelRequestStep(t, id, true), s1);
    run' := Then(run', LockStep(t), s2);
    run' := Then(run', LoadHeadStep(t), s3);
    run' := Then(run', DelVisitStep(t), s4);
  }

  // It takes the book off the list.
  lemma TakesBookOff(run: Run, t: Tid, a: Addr, id: int) returns (run': Run)
    requires run.Valid() && OneBook(run.Last(), a, id) && t < |run.Last().tasks|
    ensures run'.Extends(run) && var s, s' := run.Last(), run'.Last();
            && s'.tasks == s.tasks[t := DelDone(true, a)] && s'.graces == map[]
            && a in s'.heap && s'.heap[a].status.Retired?
  {
    var s := run.Last();
    run' := FindsToDelete(run, t, a, id);
    var s1 := run'.Last();
    var s2 := s1.At(t, DelDone(true, a)).(
      heap := UnlinkHeap(s.heap, [a], 0, Retired(|s.log|, ByTask(t))), head := End, log := s.log + [Without([a], 0)]);
    assert Unlink(s1, t, 0, s2);
    assert s2.tasks == s.tasks[t := DelDone(true, a)];
    hide Run.Valid;
    run' := Then(run', UnlinkStep(t, 0), s2);
  }

  // It hands the node to call_rcu.
  lemma HandsOver(run: Run, t: Tid, a: Addr) returns (run': Run)
    requires run.Valid() && var s := run.Last();
             && t < |s.tasks| && s.tasks[t] == DelDone(true, a) && s.graces == map[] && a in s.heap && s.heap[a].status.Retired?
             && forall u :: 0 <= u < |s.tasks| && u != t ==> s.tasks[u] == Idle
    ensures run'.Extends(run) && var s' := run'.Last();
            s'.graces == map[a := {}] && a in s'.heap && s'.heap[a].status.Retired? && s'.heap[a].status.claim == ByCallback
  {
    var s := run.Last();
    var s1 := s.At(t, Reclaim(true, a)).(lock := None);
    assert s1.Sections() == {};
    var s2 := s1.At(t, Idle).(
      heap := s.heap[a := s.heap[a].(status := Retired(s.heap[a].status.gone, ByCallback))], graces := s.graces[a := {}]);
    assert Unlock(s, t, s1) && CallRcu(s1, t, s2);
    hide Run.Valid;
    run' := Then(run, UnlockStep(t), s1);
    run' := Then(run', CallRcuStep(t), s2);
  }

  // And the callback runs at once, as no section is open.
  lemma ReclaimsBook(run: Run, t: Tid, a: Addr) returns (run': Run)
    requires run.Valid() && var s := run.Last();
             && t < |s.tasks| && s.tasks[t] == DelDone(true, a) && s.graces == map[] && a in s.heap && s.heap[a].status.Retired?
             && forall u :: 0 <= u < |s.tasks| && u != t ==> s.tasks[u] == Idle
    ensures run'.Extends(run) && a in run'.Last().heap && run'.Last().heap[a].status.Freed?
  {
    run' := HandsOver(run, t, a);
    var s := run'.Last();
    var s' := s.(heap := Free(s.heap, a), graces := s.graces - {a});
    assert Callback(s, a, s');
    hide Run.Valid;
    run' := Then(run', CallbackStep(a), s');
  }

  lemma BookAdded() returns (run: Run)
    ensures run.Valid() && OneBook(run.Last(), 0, 7) && run.Last().tasks == [Idle, Idle]
    ensures run.Last().heap[0].book == Book(7, "book1", "jb", false)
  {
    run := NoSteps(2);
    run := Adds(run, 0, Book(7, "book1", "jb", false), 0);
    assert run.Last().Order() == [0] by { assert [0] + [] == [0]; }
  }

  // A task finds a book and leaves its section.
  lemma FindsAndLeaves() returns (run: Run, j: nat)
    ensures run.Valid() && OneBook(run.Last(), 0, 7) && |run.Last().tasks| == 2
    ensures LeavesWith(run.states, run.steps, j, 1, 0, Book(7, "book1", "jb", false))
  {
    run := BookAdded();
    hide Next;
    run := Looks(run, 1, Print, 7);
    run := Turns(run, 1);
    j := |run.steps|;
    run := Leaves(run, 1);
  }

  // Between the end of the section and the read, another task can delete the book and the
  // callback can free its node.
  lemma LateReadHitsFreed() returns (run: Run, j: nat, a: Addr, book: Book)
    ensures run.Valid() && LeavesWith(run.states, run.steps, j, 1, a, book)
    ensures j < |run.steps| && a in run.Last().heap && run.Last().heap[a].status.Freed?
  {
    a, book := 0, Book(7, "book1", "jb", false);
    run, j := FindsAndLeaves();
    hide OneBook;
    ghost var found := run;
    run := TakesBookOff(run, 0, a, 7);
    OthersIdle(found.Last(), run.Last(), a);
    run := ReclaimsBook(run, 0, a);
  }

  lemma OthersIdle(s: State, s': State, a: Addr)
    requires OneBook(s, a, 7) && |s.tasks| > 0 && s'.tasks == s.tasks[0 := DelDone(true, a)]
    ensures forall u :: 0 < u < |s'.tasks| ==> s'.tasks[u] == Idle
  {
  }
}

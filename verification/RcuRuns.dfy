/**
 Building runs of the book list step by step.
 */
module RcuRuns {
  import opened Common
  import opened RcuModel

  datatype Run = Run(states: seq<State>, steps: seq<Step>) {
    ghost predicate Valid() {
      IsRun(states, steps)
    }

    function Last(): State
      requires |states| > 0
    {
      states[|states| - 1]
    }

    ghost predicate Extends(r: Run) {
      Valid() && r.states <= states && r.steps <= steps
    }
  }

  // The run of n tasks in which nothing has happened.
  function NoSteps(n: nat): (run: Run)
    ensures run.Valid() && |run.states| == 1
  {
    Run([State(map[], End, None, seq(n, _ => Idle), map[], seq(n, _ => 0), [[]])], [])
  }

  lemma Then(run: Run, step: Step, s': State) returns (run': Run)
    requires run.Valid() && Next(run.Last(), step, s')
    ensures run'.Extends(run) && run'.Last() == s' && |run'.steps| == |run.steps| + 1 && run'.steps[|run.steps|] == step
  {
    hide Next;
    run' := Run(run.states + [s'], run.steps + [step]);
    forall i | 0 <= i < |run'.steps| ensures Next(run'.states[i], run'.steps[i], run'.states[i + 1]) {
      if i < |run.steps| {
        assert Next(run.states[i], run.steps[i], run.states[i + 1]);
      }
    }
  }

  // The state after add_book has published its book in node n.
  function WithBook(s: State, book: Book, n: Addr): State
    requires |s.log| > 0
  {
    s.(heap := s.heap[n := Node(book, s.head, Linked)], head := To(n), log := s.log + [[n] + s.Order()])
  }

  // The states that add_book goes through: up to the lock, and from there on.
  lemma AddPrepared(s: State, t: Tid, book: Book, n: Addr) returns (s1: State, s2: State)
    requires t < |s.tasks| && s.tasks[t] == Idle && s.lock == None && n !in s.heap && !book.borrowed
    ensures Next(s, AddAllocStep(t, book, n), s1) && Next(s1, LockStep(t), s2)
    ensures s2 == s.At(t, AddLocked(n)).(heap := s.heap[n := Node(book, End, Fresh(t))], lock := Some(t))
  {
    s1 := s.At(t, AddReady(n)).(heap := s.heap[n := Node(book, End, Fresh(t))]);
    s2 := s1.At(t, AddLocked(n)).(lock := Some(t));
    assert AddAlloc(s, t, book, n, s1) && Lock(s1, t, s2);
    assert s2.tasks == s.tasks[t := AddLocked(n)];
  }

  lemma AddPublished(s: State, t: Tid, book: Book, n: Addr, s2: State) returns (s3: State)
    requires s.Sized() && t < |s.tasks| && s.tasks[t] == Idle && s.lock == None
    requires s2 == s.At(t, AddLocked(n)).(heap := s.heap[n := Node(book, End, Fresh(t))], lock := Some(t))
    ensures Next(s2, InsertStep(t), s3) && Next(s3, UnlockStep(t), WithBook(s, book, n))
  {
    s3 := s2.At(t, Added).(heap := s2.heap[n := Node(book, s.head, Linked)], head := To(n), log := s.log + [[n] + s.Order()]);
    assert Insert(s2, t, s3);
    assert s3.tasks[t := Idle] == s.tasks && s3.heap == s.heap[n := Node(book, s.head, Linked)];
    assert Unlock(s3, t, WithBook(s, book, n));
  }

  // add_book
  lemma Adds(run: Run, t: Tid, book: Book, n: Addr) returns (run': Run)
    requires run.Valid()
    requires var s := run.Last(); s.Sized() && t < |s.tasks| && s.tasks[t] == Idle && s.lock == None && n !in s.heap
    requires !book.borrowed
    ensures run'.Extends(run) && run'.Last() == WithBook(run.Last(), book, n)
  {
    var s := run.Last();
    hide Run.Valid, Next, WithBook;
    var s1, s2 := AddPrepared(s, t, book, n);
    var s3 := AddPublished(s, t, book, n, s2);
    run' := Then(run, AddAllocStep(t, book, n), s1);
    run' := Then(run', LockStep(t), s2);
    run' := Then(run', InsertStep(t), s3);
    run' := Then(run', UnlockStep(t), WithBook(s, book, n));
  }

  // A task opens a section and loads the head.
  lemma Looks(run: Run, t: Tid, op: Op, id: int) returns (run': Run)
    requires run.Valid() && var s := run.Last(); s.Sized() && t < |s.tasks| && s.tasks[t] == Idle
    ensures run'.Extends(run)
    ensures var s := run.Last(); run'.Last() == s.At(t, Walk(op, id, s.head)).(since := s.since[t := |s.log| - 1])
  {
    var s := run.Last();
    var s1 := s.At(t, Enter(op, id)).(since := s.since[t := |s.log| - 1]);
    var s2 := s1.At(t, Walk(op, id, s.head));
    assert BeginRead(s, t, op, id, s1) && LoadHead(s1, t, s2);
    assert s2.tasks == s.tasks[t := Walk(op, id, s.head)];
    hide Run.Valid;
    run' := Then(run, BeginReadStep(t, op, id), s1);
    run' := Then(run', LoadHeadStep(t), s2);
  }

  // One turn of its search.
  lemma Turns(run: Run, t: Tid) returns (run': Run)
    requires run.Valid() && var s := run.Last(); t < |s.tasks| && s.tasks[t].Walk? && s.tasks[t].cur.To? && s.tasks[t].cur.at in s.heap
    ensures run'.Extends(run)
    ensures var s := run.Last(); var Walk(op, id, cur) := s.tasks[t];
            run'.Last() == s.At(t, Visited(op, id, cur.at, s.heap[cur.at]))
  {
    var s := run.Last();
    var Walk(op, id, cur) := s.tasks[t];
    var s' := s.At(t, Visited(op, id, cur.at, s.heap[cur.at]));
    assert Visit(s, t, s');
    run' := Then(run, VisitStep(t), s');
  }

  // It leaves its section.
  lemma Leaves(run: Run, t: Tid) returns (run': Run)
    requires run.Valid() && var s := run.Last(); t < |s.tasks| && s.tasks[t].Leave?
    ensures run'.Extends(run) && |run'.steps| == |run.steps| + 1 && run'.steps[|run.steps|] == EndReadStep(t)
    ensures var s, s' := run.Last(), run'.Last();
            s' == s.At(t, Idle).(graces := s'.graces) && s'.graces.Keys == s.graces.Keys
  {
    var s := run.Last();
    var s' := s.At(t, Idle).(graces := map a | a in s.graces :: s.graces[a] - {t});
    assert EndRead(s, t, s');
    run' := Then(run, EndReadStep(t), s');
  }

  // It copies the node it has chosen into node n.
  lemma Copies(run: Run, t: Tid, n: Addr) returns (run': Run)
    requires run.Valid()
    requires var s := run.Last(); t < |s.tasks| && s.tasks[t].Hit? && s.tasks[t].op.Update? && s.tasks[t].oldB in s.heap && n !in s.heap
    ensures run'.Extends(run)
    ensures var s := run.Last(); var Hit(op, id, oldB) := s.tasks[t];
            run'.Last() == s.At(t, Copied(op, id, oldB, n)).(
              heap := s.heap[n := s.heap[oldB].(book := s.heap[oldB].book.(borrowed := op.want), status := Fresh(t))])
  {
    var s := run.Last();
    var Hit(op, id, oldB) := s.tasks[t];
    var s' := s.At(t, Copied(op, id, oldB, n)).(
      heap := s.heap[n := s.heap[oldB].(book := s.heap[oldB].book.(borrowed := op.want), status := Fresh(t))]);
    assert AllocCopy(s, t, Some(n), s');
    run' := Then(run, AllocCopyStep(t, Some(n)), s');
  }

  // It takes the lock and puts the copy in the place of the node at position k.
  lemma Replaces(run: Run, t: Tid, k: nat) returns (run': Run)
    requires run.Valid()
    requires var s := run.Last();
             && s.Sized() && t < |s.tasks| && s.tasks[t].Copied? && s.lock == None
             && k < |s.Order()| && s.Order()[k] == s.tasks[t].oldB && s.tasks[t].oldB in s.heap && s.tasks[t].newB in s.heap
             && (k > 0 ==> s.Order()[k - 1] in s.heap)
    ensures run'.Extends(run)
    ensures var s := run.Last(); var Copied(op, id, oldB, n) := s.tasks[t];
            run'.Last() == s.At(t, UpdUnlocked(op, id, oldB)).(
              heap := ReplaceHeap(s.heap, s.Order(), k, n, Retired(|s.log|, ByTask(t))),
              head := HeadAfter(s.head, k, To(n)),
              log := s.log + [s.Order()[k := n]])
  {
    var s := run.Last();
    var Copied(op, id, oldB, n) := s.tasks[t];
    hide ReplaceHeap;
    var s1 := s.At(t, UpdLocked(op, id, oldB, n)).(lock := Some(t));
    var s2 := s1.At(t, Replaced(op, id, oldB)).(
      heap := ReplaceHeap(s.heap, s.Order(), k, n, Retired(|s.log|, ByTask(t))),
      head := HeadAfter(s.head, k, To(n)),
      log := s.log + [s.Order()[k := n]]);
    var s3 := s2.At(t, UpdUnlocked(op, id, oldB)).(lock := None);
    assert Lock(s, t, s1) && Replace(s1, t, k, s2) && Unlock(s2, t, s3);
    assert s3.tasks == s.tasks[t := UpdUnlocked(op, id, oldB)];
    hide Run.Valid;
    run' := Then(run, LockStep(t), s1);
    run' := Then(run', ReplaceStep(t, k), s2);
    run' := Then(run', UnlockStep(t), s3);
  }
}

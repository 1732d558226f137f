/**
 The concurrent list refines the abstract sequence of books: in every run, each step either
 leaves the sequence as it is or applies exactly one of the abstract operations to it.
 */
module RcuRefinement {
  import opened Common
  import opened RcuModel
  import opened RcuInvariant
  import opened RcuSteps
  import opened RcuTheorems
  import BookList

  // The books of an order, front first.
  ghost function BooksOf(heap: Heap, order: seq<Addr>): (books: seq<Book>)
    requires Published(heap, order)
    ensures |books| == |order|
    ensures forall i :: 0 <= i < |order| ==> books[i] == heap[order[i]].book
  {
    seq(|order|, i requires 0 <= i < |order| => heap[order[i]].book)
  }

  ghost function Abs(s: State): seq<Book>
    requires Inv(s)
  {
    BooksOf(s.heap, s.Order())
  }

  lemma OrderPublished(s: State)
    requires Inv(s)
    ensures Published(s.heap, s.Order())
  {
    hide ListOk, FrozenOk, GraceOk, SyncedOk, OwnersOk, LockOk, TasksOk;
  }

  // How one step may change the abstract sequence.
  ghost predicate Refines(s: State, step: Step, books: seq<Book>, books': seq<Book>) {
    match step
    case InsertStep(t) =>
      && t < |s.tasks| && s.tasks[t].AddLocked? && s.tasks[t].newB in s.heap
      && books' == [s.heap[s.tasks[t].newB].book] + books
    case ReplaceStep(t, k) =>
      && t < |s.tasks| && s.tasks[t].UpdLocked? && k < |books| && s.tasks[t].op.Update?
      && books[k].id == s.tasks[t].id && books[k].borrowed != s.tasks[t].op.want
      && books' == books[k := books[k].(borrowed := s.tasks[t].op.want)]
    case UnlinkStep(t, _) =>
      t < |s.tasks| && s.tasks[t].DelHit? && books' == BookList.Deleted(books, s.tasks[t].id)
    case _ => books' == books
  }

  // Books never change, so the same order stands for the same books after any step.
  lemma BooksKept(heap: Heap, heap': Heap, now: nat, order: seq<Addr>)
    requires Kept(heap, heap', now) && Published(heap, order)
    ensures Published(heap', order) && BooksOf(heap', order) == BooksOf(heap, order)
  {
    PublishedKept(heap, heap', now, order);
    forall i | 0 <= i < |order| ensures heap'[order[i]].book == heap[order[i]].book {
      assert order[i] in order;
    }
  }

  lemma InsertBooks(heap: Heap, order: seq<Addr>, n: Addr)
    requires Published(heap, order) && Published(heap, [n] + order)
    ensures n in heap && BooksOf(heap, [n] + order) == [heap[n].book] + BooksOf(heap, order)
  {
    assert ([n] + order)[0] in [n] + order;
  }

  lemma ReplaceBooks(heap: Heap, order: seq<Addr>, k: nat, n: Addr)
    requires k < |order| && Published(heap, order) && Published(heap, order[k := n])
    ensures n in heap && BooksOf(heap, order[k := n]) == BooksOf(heap, order)[k := heap[n].book]
  {
    assert order[k := n][k] in order[k := n];
  }

  lemma WithoutBooks(heap: Heap, order: seq<Addr>, k: nat)
    requires k < |order| && Published(heap, order) && Published(heap, Without(order, k))
    ensures BooksOf(heap, Without(order, k)) == BooksOf(heap, order)[..k] + BooksOf(heap, order)[k + 1..]
  {
    var books, rest := BooksOf(heap, order), Without(order, k);
    WithoutAt(order, k);
    forall i | 0 <= i < |rest| ensures BooksOf(heap, rest)[i] == (books[..k] + books[k + 1..])[i] {
    }
  }

  lemma InsertRefines(s: State, t: Tid, s': State)
    requires Inv(s) && Inv(s') && Insert(s, t, s')
    ensures Refines(s, InsertStep(t), Abs(s), Abs(s'))
  {
    hide Inv, Kept, Published, BooksOf;
    OrderPublished(s);
    OrderPublished(s');
    StepKeeps(s, InsertStep(t), s');
    BooksKept(s.heap, s'.heap, |s.log|, s.Order());
    InsertBooks(s'.heap, s.Order(), s.tasks[t].newB);
  }

  lemma ReplaceRefines(s: State, t: Tid, k: nat, s': State)
    requires Inv(s) && Inv(s') && Replace(s, t, k, s')
    ensures Refines(s, ReplaceStep(t, k), Abs(s), Abs(s'))
  {
    hide Inv, Kept, Published, ReplaceHeap;
    LogNotEmpty(s);
    OrderPublished(s);
    OrderPublished(s');
    TaskFacts(s, t);
    StepKeeps(s, ReplaceStep(t, k), s');
    BooksKept(s.heap, s'.heap, |s.log|, s.Order());
    ReplaceBooks(s'.heap, s.Order(), k, s.tasks[t].newB);
    BookStays(s.heap, s'.heap, |s.log|, s.tasks[t].newB);
  }

  lemma BookStays(heap: Heap, heap': Heap, now: nat, a: Addr)
    requires Kept(heap, heap', now) && a in heap
    ensures a in heap' && heap'[a].book == heap[a].book
  {
  }

  // Deleting the node that the locked search found deletes the first book with the id.
  lemma FirstMatch(heap: Heap, order: seq<Addr>, k: nat, id: int)
    requires Distinct(order) && k < |order| && Published(heap, order) && DelHitOk(heap, order, order[k], id)
    ensures BookList.First(BooksOf(heap, order), id) == k
  {
    var m: nat :| m < |order| && order[m] == order[k] && NoneBefore(heap, order, m, id);
    assert m == k;
    forall i | 0 <= i < k ensures BooksOf(heap, order)[i].id != id {
      assert order[..k][i] == order[i] && order[i] in order;
    }
    BookList.FirstIs(BooksOf(heap, order), id, k);
  }

  lemma OrderDistinct(s: State)
    requires Inv(s)
    ensures Distinct(s.Order())
  {
    hide HistoryOk, FrozenOk, GraceOk, SyncedOk, OwnersOk, LockOk, TasksOk;
  }

  lemma UnlinkRefines(s: State, t: Tid, k: nat, s': State)
    requires Inv(s) && Inv(s') && Unlink(s, t, k, s')
    ensures Refines(s, UnlinkStep(t, k), Abs(s), Abs(s'))
  {
    hide Inv, Kept, Published, UnlinkHeap, Without, BooksOf, DelHitOk, Distinct;
    LogNotEmpty(s);
    OrderPublished(s);
    OrderPublished(s');
    OrderDistinct(s);
    TaskFacts(s, t);
    StepKeeps(s, UnlinkStep(t, k), s');
    BooksKept(s.heap, s'.heap, |s.log|, s.Order());
    WithoutBooks(s'.heap, s.Order(), k);
    FirstMatch(s.heap, s.Order(), k, s.tasks[t].id);
  }

  lemma LogStays(s: State, step: Step, s': State)
    requires Next(s, step, s') && !step.InsertStep? && !step.ReplaceStep? && !step.UnlinkStep?
    ensures s'.log == s.log
  {
  }

  lemma QuietRefines(s: State, step: Step, s': State)
    requires Inv(s) && Inv(s') && Next(s, step, s')
    requires !step.InsertStep? && !step.ReplaceStep? && !step.UnlinkStep?
    ensures Abs(s') == Abs(s)
  {
    hide Inv, Next, Kept, Published, BooksOf;
    LogNotEmpty(s);
    LogStays(s, step, s');
    OrderPublished(s);
    StepKeeps(s, step, s');
    BooksKept(s.heap, s'.heap, |s.log|, s.Order());
  }

  // Every step of every run is one abstract operation or none: add_book puts its book at
  // the front, delete_book removes the first book with its id, and borrow_book and
  // return_book change the flag of one book that has their id and the opposite flag.
  lemma EveryStepRefines(states: seq<State>, steps: seq<Step>, i: nat)
    requires IsRun(states, steps) && i < |steps|
    ensures Inv(states[i]) && Inv(states[i + 1])
    ensures Refines(states[i], steps[i], Abs(states[i]), Abs(states[i + 1]))
  {
    RunInv(states, steps, i);
    RunInv(states, steps, i + 1);
    hide Inv;
    var s, step, s' := states[i], steps[i], states[i + 1];
    assert Next(s, step, s');
    if step.InsertStep? {
      InsertRefines(s, step.t, s');
    } else if step.ReplaceStep? {
      ReplaceRefines(s, step.t, step.k, s');
    } else if step.UnlinkStep? {
      UnlinkRefines(s, step.t, step.k, s');
    } else {
      QuietRefines(s, step, s');
    }
  }

  // The first match of the id, as the abstract sequence sees it.
  lemma HitIsFirst(s: State, a: Addr, id: int) returns (k: nat)
    requires Inv(s) && s.Sized() && DelHitOk(s.heap, s.Order(), a, id)
    ensures k < |s.Order()| && s.Order()[k] == a
    ensures BookList.First(Abs(s), id) == k < |Abs(s)| && a in s.heap && Abs(s)[k] == s.heap[a].book
  {
    hide Inv, Published, Distinct;
    OrderPublished(s);
    OrderDistinct(s);
    k :| k < |s.Order()| && s.Order()[k] == a;
    FirstMatch(s.heap, s.Order(), k, id);
  }

  lemma AbsentFirst(s: State, id: int)
    requires Inv(s) && s.Sized() && NoneHas(s.heap, s.Order(), id)
    ensures BookList.First(Abs(s), id) == |Abs(s)|
  {
    hide Inv;
    OrderPublished(s);
    forall i | 0 <= i < |Abs(s)| ensures Abs(s)[i].id != id {
      assert s.Order()[i] in s.Order();
    }
    BookList.FirstIs(Abs(s), id, |Abs(s)|);
  }
}

/**
 Which book a borrow or return changes when other tasks change the list at the same time: the
 first one with the id among those that were not added since its search loaded the head.
 */
module RcuUpdate {
  import opened Common
  import opened RcuModel
  import opened RcuInvariant
  import opened RcuSteps
  import opened RcuTheorems
  import opened RcuRefinement
  import opened RcuBound
  import opened RcuMeets
  import opened RcuFirst
  import opened RcuRuns
  import BookList

  // ---------- the front of the list ----------

  // How many nodes at the front have been added, when c had been before the step.
  function Shift(step: Step, c: nat): nat {
    match step
    case InsertStep(_) => c + 1
    case UnlinkStep(_, k) => if k < c then c - 1 else c
    case _ => c
  }

  // How many nodes at the front of the list have been added by the steps from l up to i, or
  // are copies of such nodes: add_book puts its book in front, and a copy takes the place of
  // its original.
  function FrontAdded(steps: seq<Step>, l: nat, i: nat): nat
    requires l <= i <= |steps|
  {
    if i == l then 0 else Shift(steps[i - 1], FrontAdded(steps, l, i - 1))
  }

  // The step publishes a book with the id.
  predicate AddsId(s: State, step: Step, id: int) {
    && step.InsertStep? && step.t < |s.tasks| && s.tasks[step.t].AddLocked?
    && s.tasks[step.t].newB in s.heap && s.heap[s.tasks[step.t].newB].book.id == id
  }

  ghost predicate HasIdAt(s: State, p: nat, id: int) {
    |s.log| > 0 && p < |s.Order()| && s.Order()[p] in s.heap && s.heap[s.Order()[p]].book.id == id
  }

  // Where the book at position p of the new list stood before the step.
  lemma PositionBefore(s: State, step: Step, s': State, p: nat, id: int) returns (q: nat)
    requires Inv(s) && Inv(s') && s.Sized() && s'.Sized() && Next(s, step, s') && HasIdAt(s', p, id)
    requires step.InsertStep? ==> p > 0
    ensures HasIdAt(s, q, id)
    ensures forall c: nat :: p < Shift(step, c) <==> q < c
  {
    hide Inv, Kept, Published, Next;
    OrderPublished(s);
    StepKeeps(s, step, s');
    q := p;
    if step.InsertStep? {
      q := p - 1;
      InsertOrder(s, step.t, s');
    } else if step.ReplaceStep? {
      ReplaceOrder(s, step.t, step.k, s');
    } else if step.UnlinkStep? {
      UnlinkOrder(s, step.t, step.k, s');
      if p >= step.k {
        q := p + 1;
      }
    } else {
      LogStays(s, step, s');
    }
    SameId(s, s', q, p, id);
  }

  // A published book keeps its id, and so does its copy.
  lemma SameId(s: State, s': State, q: nat, p: nat, id: int)
    requires s.Sized() && s'.Sized() && Published(s.heap, s.Order()) && Kept(s.heap, s'.heap, |s.log|)
    requires HasIdAt(s', p, id) && q < |s.Order()|
    requires s'.Order()[p] == s.Order()[q] || HasIdAt(s, q, id)
    ensures HasIdAt(s, q, id)
  {
    assert s.Order()[q] in s.Order();
  }

  lemma InsertOrder(s: State, t: Tid, s': State)
    requires Next(s, InsertStep(t), s') && s.Sized()
    ensures s'.Sized() && t < |s.tasks| && s.tasks[t].AddLocked? && s'.Order() == [s.tasks[t].newB] + s.Order()
    ensures s.tasks[t].newB in s.heap
  {
  }

  lemma ReplaceOrder(s: State, t: Tid, k: nat, s': State)
    requires Inv(s) && Next(s, ReplaceStep(t, k), s') && s.Sized()
    ensures s'.Sized() && t < |s.tasks| && s.tasks[t].UpdLocked? && k < |s.Order()| && s.Order()[k] == s.tasks[t].oldB
    ensures s'.Order() == s.Order()[k := s.tasks[t].newB]
    ensures s.tasks[t].newB in s'.heap && s.tasks[t].oldB in s.heap
    ensures s'.heap[s.tasks[t].newB].book.id == s.heap[s.tasks[t].oldB].book.id == s.tasks[t].id
    ensures s.tasks[t].oldB in s'.heap && !s'.heap[s.tasks[t].oldB].status.Linked?
  {
    assert Replace(s, t, k, s');
    TaskFacts(s, t);
    hide Inv, ReplaceHeap, Spliced, Next;
    ReplaceSplices(s, t, k, s');
    ReplacedIsOff(s, t, k, s');
  }

  lemma ReplacedIsOff(s: State, t: Tid, k: nat, s': State)
    requires Inv(s) && Replace(s, t, k, s')
    ensures s.tasks[t].oldB in s'.heap && !s'.heap[s.tasks[t].oldB].status.Linked?
  {
    hide Inv;
  }

  lemma UnlinkOrder(s: State, t: Tid, k: nat, s': State)
    requires Next(s, UnlinkStep(t, k), s') && s.Sized()
    ensures s'.Sized() && t < |s.tasks| && s.tasks[t].DelHit? && k < |s.Order()| && s.Order()[k] == s.tasks[t].oldB
    ensures |s'.Order()| == |s.Order()| - 1
    ensures forall p :: 0 <= p < |s'.Order()| ==> s'.Order()[p] == s.Order()[if p < k then p else p + 1]
    ensures s.tasks[t].oldB in s'.heap && !s'.heap[s.tasks[t].oldB].status.Linked?
  {
    assert Unlink(s, t, k, s');
    WithoutAt(s.Order(), k);
  }

  // A book in front has been added by one of the steps, with its id.
  lemma {:induction false} FrontWasAdded(states: seq<State>, steps: seq<Step>, l: nat, i: nat, p: nat, id: int) returns (j: nat)
    requires IsRun(states, steps) && l <= i < |states| && p < FrontAdded(steps, l, i) && HasIdAt(states[i], p, id)
    ensures l <= j < i && AddsId(states[j], steps[j], id)
    decreases i
  {
    hide Inv, Next, HasIdAt, AddsId;
    RunInv(states, steps, i - 1);
    RunInv(states, steps, i);
    var s, step, s' := states[i - 1], steps[i - 1], states[i];
    LogNotEmpty(s);
    LogNotEmpty(s');
    assert Next(s, step, s');
    if step.InsertStep? && p == 0 {
      j := i - 1;
      NewestId(s, step.t, s', id);
    } else {
      var q := PositionBefore(s, step, s', p, id);
      assert p < Shift(step, FrontAdded(steps, l, i - 1));
      j := FrontWasAdded(states, steps, l, i - 1, q, id);
    }
  }

  lemma NewestId(s: State, t: Tid, s': State, id: int)
    requires Inv(s) && s.Sized() && Next(s, InsertStep(t), s') && HasIdAt(s', 0, id)
    ensures AddsId(s, InsertStep(t), id)
  {
    hide Inv;
    assert Insert(s, t, s');
  }

  // A book behind the front was on the list at the start, with its id, if at another place.
  lemma {:induction false} BackWasListed(states: seq<State>, steps: seq<Step>, l: nat, i: nat, p: nat, id: int) returns (q: nat)
    requires IsRun(states, steps) && l <= i < |states| && p >= FrontAdded(steps, l, i) && HasIdAt(states[i], p, id)
    ensures HasIdAt(states[l], q, id)
    decreases i
  {
    hide Inv, Next, HasIdAt;
    q := p;
    if l < i {
      RunInv(states, steps, i - 1);
      RunInv(states, steps, i);
      LogNotEmpty(states[i - 1]);
      LogNotEmpty(states[i]);
      assert Next(states[i - 1], steps[i - 1], states[i]);
      var b := PositionBefore(states[i - 1], steps[i - 1], states[i], p, id);
      assert p >= Shift(steps[i - 1], FrontAdded(steps, l, i - 1));
      q := BackWasListed(states, steps, l, i - 1, b, id);
    }
  }

  // ---------- the first match behind the front ----------

  // f is the first node with the id behind the first c nodes of the list, or there is none
  // and f is End.
  ghost predicate Behind(s: State, c: nat, f: Ptr, id: int) {
    s.Sized() && FirstFrom(s.heap, s.Order(), c, f, id)
  }

  // The node of a match behind the front is on the list.
  lemma BehindListed(s: State, c: nat, f: Ptr, id: int)
    requires Inv(s) && Behind(s, c, f, id) && f.To?
    ensures f.at in s.heap && s.heap[f.at].status.Linked?
  {
    hide HistoryOk, FrozenOk, GraceOk, SyncedOk, OwnersOk, LockOk, TasksOk;
    var j :| c <= j < |s.Order()| && s.Order()[j] == f.at;
    assert s.Order()[j] in s.heap;
  }

  lemma FromInserted(heap: Heap, heap': Heap, order: seq<Addr>, n: Addr, c: nat, f: Ptr, id: int)
    requires FirstFrom(heap, order, c, f, id)
    requires forall i :: 0 <= i < |order| ==> order[i] in heap && order[i] in heap' && heap'[order[i]].book == heap[order[i]].book
    ensures FirstFrom(heap', [n] + order, c + 1, f, id)
  {
    var order' := [n] + order;
    assert forall i :: 0 < i < |order'| ==> order'[i] == order[i - 1];
    if f.To? {
      var j :| && c <= j < |order| && order[j] == f.at && forall l :: c <= l < j ==> heap[order[l]].book.id != id;
      assert order'[j + 1] == f.at;
    }
  }

  // A replacement leaves the first match in place, or puts the copy in its place.
  lemma FromReplaced(heap: Heap, heap': Heap, order: seq<Addr>, k: nat, n: Addr, c: nat, f: Ptr, f': Ptr, id: int)
    requires FirstFrom(heap, order, c, f, id) && k < |order| && n in heap' && Distinct(order)
    requires forall i :: 0 <= i < |order| ==> order[i] in heap && order[i] in heap' && heap'[order[i]].book == heap[order[i]].book
    requires heap'[n].book.id == heap[order[k]].book.id
    requires f' == if f == To(order[k]) then To(n) else f
    ensures FirstFrom(heap', order[k := n], c, f', id)
  {
    var order' := order[k := n];
    if f.To? {
      var j :| && c <= j < |order| && order[j] == f.at && forall l :: c <= l < j ==> heap[order[l]].book.id != id;
      assert order'[j] == f'.at;
    }
  }

  // A deletion of another node leaves the first match the first.
  lemma FromUnlinked(heap: Heap, heap': Heap, order: seq<Addr>, order': seq<Addr>, k: nat, c: nat, f: Ptr, id: int)
    requires FirstFrom(heap, order, c, f, id) && k < |order| && f != To(order[k])
    requires forall i :: 0 <= i < |order| ==> order[i] in heap && order[i] in heap' && heap'[order[i]].book == heap[order[i]].book
    requires |order'| == |order| - 1 && forall p :: 0 <= p < |order'| ==> order'[p] == order[if p < k then p else p + 1]
    ensures FirstFrom(heap', order', if k < c then c - 1 else c, f, id)
  {
    if f.To? {
      var j :| && c <= j < |order| && order[j] == f.at && forall l :: c <= l < j ==> heap[order[l]].book.id != id;
      assert order'[if j < k then j else j - 1] == f.at;
    }
  }

  // After the deletion of the first match the next one is the first.
  lemma FromNext(heap: Heap, heap': Heap, order: seq<Addr>, order': seq<Addr>, k: nat, c: nat, f': Ptr, id: int)
    requires k < |order| && FirstFrom(heap, order, c, To(order[k]), id) && Distinct(order) && FirstFrom(heap', order', k, f', id)
    requires forall i :: 0 <= i < |order| ==> order[i] in heap && order[i] in heap' && heap'[order[i]].book == heap[order[i]].book
    requires |order'| == |order| - 1 && forall p :: 0 <= p < |order'| ==> order'[p] == order[if p < k then p else p + 1]
    ensures c <= k && FirstFrom(heap', order', c, f', id)
  {
    var j :| && c <= j < |order| && order[j] == order[k] && forall l :: c <= l < j ==> heap[order[l]].book.id != id;
    assert j == k;
    if f'.To? {
      var i :| && k <= i < |order'| && order'[i] == f'.at && forall l :: k <= l < i ==> heap'[order'[l]].book.id != id;
      assert forall l :: c <= l < i ==> order'[l] in heap' && heap'[order'[l]].book.id != id;
    }
  }

  lemma BooksOfOrder(s: State, s': State)
    requires Inv(s) && s.Sized() && Kept(s.heap, s'.heap, |s.log|)
    ensures Distinct(s.Order())
    ensures forall i :: 0 <= i < |s.Order()| ==>
              s.Order()[i] in s.heap && s.Order()[i] in s'.heap && s'.heap[s.Order()[i]].book == s.heap[s.Order()[i]].book
  {
    hide Inv, Kept;
    OrderPublished(s);
    OrderDistinct(s);
    forall i | 0 <= i < |s.Order()|
      ensures s.Order()[i] in s.heap && s.Order()[i] in s'.heap && s'.heap[s.Order()[i]].book == s.heap[s.Order()[i]].book
    {
      assert s.Order()[i] in s.Order();
      BookStays(s.heap, s'.heap, |s.log|, s.Order()[i]);
    }
  }

  // A match behind the front that is still on the list after a step is still the first.
  lemma StepKeepsBehind(s: State, step: Step, s': State, c: nat, f: Ptr, id: int)
    requires Inv(s) && Inv(s') && s.Sized() && s'.Sized() && Next(s, step, s') && Behind(s, c, f, id)
    requires f.To? ==> f.at in s'.heap && s'.heap[f.at].status.Linked?
    ensures Behind(s', Shift(step, c), f, id)
  {
    hide Inv, Next, FirstFrom, Kept, Distinct;
    StepKeeps(s, step, s');
    BooksOfOrder(s, s');
    if step.InsertStep? {
      InsertOrder(s, step.t, s');
      FromInserted(s.heap, s'.heap, s.Order(), s.tasks[step.t].newB, c, f, id);
    } else if step.ReplaceStep? {
      ReplaceOrder(s, step.t, step.k, s');
      FromReplaced(s.heap, s'.heap, s.Order(), step.k, s.tasks[step.t].newB, c, f, f, id);
    } else if step.UnlinkStep? {
      UnlinkOrder(s, step.t, step.k, s');
      FromUnlinked(s.heap, s'.heap, s.Order(), s'.Order(), step.k, c, f, id);
    } else {
      LogStays(s, step, s');
      FromSame(s.heap, s'.heap, s.Order(), c, f, id);
    }
  }

  lemma FromSame(heap: Heap, heap': Heap, order: seq<Addr>, c: nat, f: Ptr, id: int)
    requires FirstFrom(heap, order, c, f, id)
    requires forall i :: 0 <= i < |order| ==> order[i] in heap && order[i] in heap' && heap'[order[i]].book == heap[order[i]].book
    ensures FirstFrom(heap', order, c, f, id)
  {
    if f.To? {
      var j :| && c <= j < |order| && order[j] == f.at && forall l :: c <= l < j ==> heap[order[l]].book.id != id;
      assert order[j] == f.at;
    }
  }

  // How a step changes the node that a search will meet.
  ghost predicate Succeeds(s: State, step: Step, s': State, f: Ptr, f': Ptr, id: int)
    requires s.Sized() && s'.Sized()
  {
    match step
    case ReplaceStep(t, k) => t < |s.tasks| && s.tasks[t].UpdLocked? && f == To(s.tasks[t].oldB) && f' == To(s.tasks[t].newB)
    case UnlinkStep(t, k) =>
      t < |s.tasks| && s.tasks[t].DelHit? && f == To(s.tasks[t].oldB) && FirstFrom(s'.heap, s'.Order(), k, f', id)
    case _ => false
  }

  lemma StepMeets(s: State, step: Step, s': State, p: Ptr, m: nat, f: Ptr, id: int) returns (m': nat, f': Ptr)
    requires Inv(s) && Inv(s') && s.Sized() && s'.Sized() && Next(s, step, s') && Meets(s.heap, p, m, f, id) && PublishedAt(s.heap, p)
    ensures Meets(s'.heap, p, m', f', id)
    ensures f' == f || Succeeds(s, step, s', f, f', id)
  {
    hide Inv, Meets, PublishedAt, Linking, PublishedLinks, SameLinks, Spliced, Distinct, HistoryOk, FirstFrom;
    MemoryFacts(s);
    m' := m;
    if step.ReplaceStep? {
      f' := ReplaceMeets(s, step.t, step.k, s', p, m, f, id);
    } else if step.UnlinkStep? {
      m', f' := UnlinkMeets(s, step.t, step.k, s', p, m, f, id);
    } else {
      hide Next;
      StepKeepsLinks(s, step, s');
      MeetsSame(s.heap, s'.heap, p, m, f, id);
      f' := f;
    }
  }

  lemma ReplaceMeets(s: State, t: Tid, k: nat, s': State, p: Ptr, m: nat, f: Ptr, id: int) returns (f': Ptr)
    requires Inv(s) && s.Sized() && Next(s, ReplaceStep(t, k), s') && Meets(s.heap, p, m, f, id) && PublishedAt(s.heap, p)
    ensures t < |s.tasks| && s.tasks[t].UpdLocked? && Meets(s'.heap, p, m, f', id)
    ensures f' == f || (f == To(s.tasks[t].oldB) && f' == To(s.tasks[t].newB))
  {
    assert Replace(s, t, k, s');
    hide Inv, Meets, PublishedAt, Linking, PublishedLinks, Spliced, Distinct, HistoryOk, ReplaceHeap, Next;
    MemoryFacts(s);
    ReplaceOrder(s, t, k, s');
    ReplaceSplices(s, t, k, s');
    f' := MeetsReplaced(s.heap, s'.heap, s.Order(), k, s.tasks[t].newB, p, m, f, id);
  }

  lemma UnlinkMeets(s: State, t: Tid, k: nat, s': State, p: Ptr, m: nat, f: Ptr, id: int) returns (m': nat, f': Ptr)
    requires Inv(s) && Inv(s') && s.Sized() && s'.Sized() && Next(s, UnlinkStep(t, k), s')
    requires Meets(s.heap, p, m, f, id) && PublishedAt(s.heap, p)
    ensures t < |s.tasks| && s.tasks[t].DelHit? && Meets(s'.heap, p, m', f', id)
    ensures f' == f || (f == To(s.tasks[t].oldB) && FirstFrom(s'.heap, s'.Order(), k, f', id))
  {
    assert Unlink(s, t, k, s');
    hide Inv, Meets, PublishedAt, Linking, PublishedLinks, Spliced, Distinct, HistoryOk, UnlinkHeap, Next, FirstFrom, Without;
    MemoryFacts(s);
    MemoryFacts(s');
    UnlinkSplices(s, t, k, s');
    m', f' := MeetsUnlinked(s.heap, s'.heap, s.Order(), k, p, m, f, id);
  }

  // The node that takes the place of a first match behind the front is the first there.
  lemma SuccessorBehind(s: State, step: Step, s': State, c: nat, f: Ptr, f': Ptr, id: int)
    requires Inv(s) && Inv(s') && s.Sized() && s'.Sized() && Next(s, step, s') && Behind(s, c, f, id) && Succeeds(s, step, s', f, f', id)
    ensures Behind(s', Shift(step, c), f', id)
  {
    hide Inv, Next, FirstFrom, Kept, Distinct;
    StepKeeps(s, step, s');
    BooksOfOrder(s, s');
    if step.ReplaceStep? {
      ReplaceOrder(s, step.t, step.k, s');
      FromReplaced(s.heap, s'.heap, s.Order(), step.k, s.tasks[step.t].newB, c, f, f', id);
    } else {
      UnlinkOrder(s, step.t, step.k, s');
      FromNext(s.heap, s'.heap, s.Order(), s'.Order(), step.k, c, f', id);
    }
  }

  // ---------- what a search knows of its target ----------

  // f was the first match behind the front in some state since the l-th.
  ghost predicate FirstSince(states: seq<State>, steps: seq<Step>, l: nat, i: nat, f: Ptr, id: int) {
    exists p: nat :: l <= p <= i && p < |states| && p <= |steps| && Behind(states[p], FrontAdded(steps, l, p), f, id)
  }

  // And it still is, unless it has been taken off the list.
  ghost predicate Right(states: seq<State>, steps: seq<Step>, l: nat, i: nat, f: Ptr, id: int) {
    && l <= i < |states| && i <= |steps| && FirstSince(states, steps, l, i, f, id)
    && (f.To? ==> f.at in states[i].heap && !states[i].heap[f.at].status.Fresh?)
    && ((f.To? ==> states[i].heap[f.at].status.Linked?) ==> Behind(states[i], FrontAdded(steps, l, i), f, id))
  }

  ghost predicate RightAhead(states: seq<State>, steps: seq<Step>, l: nat, i: nat, cur: Ptr, id: int) {
    exists m: nat, f: Ptr :: i < |states| && Meets(states[i].heap, cur, m, f, id) && Right(states, steps, l, i, f, id)
  }

  ghost predicate SearchKnows(states: seq<State>, steps: seq<Step>, l: nat, i: nat, pc: Pc) {
    match pc
    case Enter(_, _) => false
    case Walk(_, id, cur) => RightAhead(states, steps, l, i, cur, id)
    case Hit(_, id, oldB) => Right(states, steps, l, i, To(oldB), id)
    case Copied(_, id, oldB, _) => Right(states, steps, l, i, To(oldB), id)
    case UpdLocked(_, id, oldB, _) => Right(states, steps, l, i, To(oldB), id)
    case Leave(_, id, NotFound) => Right(states, steps, l, i, End, id)
    case Leave(_, id, Shown(a, _)) => Right(states, steps, l, i, To(a), id)
    case Leave(_, id, Refused(a, _)) => Right(states, steps, l, i, To(a), id)
    case _ => true
  }

  // A first match now is right.
  lemma RightNowBehind(states: seq<State>, steps: seq<Step>, l: nat, i: nat, f: Ptr, id: int)
    requires l <= i < |states| && i <= |steps| && Inv(states[i]) && Behind(states[i], FrontAdded(steps, l, i), f, id)
    ensures Right(states, steps, l, i, f, id)
  {
    hide Inv, Behind;
    if f.To? {
      BehindListed(states[i], FrontAdded(steps, l, i), f, id);
    }
  }

  // What is right stays right.
  lemma RightStays(states: seq<State>, steps: seq<Step>, l: nat, i: nat, f: Ptr, id: int)
    requires IsRun(states, steps) && i + 1 < |states| && Right(states, steps, l, i, f, id)
    ensures Right(states, steps, l, i + 1, f, id)
  {
    hide Inv, Next, Behind, Kept;
    RunInv(states, steps, i);
    RunInv(states, steps, i + 1);
    LogNotEmpty(states[i]);
    LogNotEmpty(states[i + 1]);
    assert Next(states[i], steps[i], states[i + 1]);
    StepKeeps(states[i], steps[i], states[i + 1]);
    var p: nat :| l <= p <= i && Behind(states[p], FrontAdded(steps, l, p), f, id);
    if f.To? {
      StatusStays(states[i].heap, states[i + 1].heap, |states[i].log|, f.at);
    }
    if f.To? ==> states[i + 1].heap[f.at].status.Linked? {
      StepKeepsBehind(states[i], steps[i], states[i + 1], FrontAdded(steps, l, i), f, id);
    }
  }

  lemma StatusStays(heap: Heap, heap': Heap, now: nat, a: Addr)
    requires Kept(heap, heap', now) && a in heap && !heap[a].status.Fresh?
    ensures a in heap' && !heap'[a].status.Fresh? && (heap'[a].status.Linked? ==> heap[a].status.Linked?)
  {
  }

  // What a search has ahead stays right, for whatever takes its place.
  lemma AheadStays(states: seq<State>, steps: seq<Step>, l: nat, i: nat, cur: Ptr, id: int)
    requires IsRun(states, steps) && i + 1 < |states| && RightAhead(states, steps, l, i, cur, id) && PublishedAt(states[i].heap, cur)
    ensures RightAhead(states, steps, l, i + 1, cur, id)
  {
    hide Inv, Next, Behind, Right, Meets, Succeeds, PublishedAt;
    RunInv(states, steps, i);
    RunInv(states, steps, i + 1);
    LogNotEmpty(states[i]);
    LogNotEmpty(states[i + 1]);
    assert Next(states[i], steps[i], states[i + 1]);
    var m: nat, f: Ptr :| Meets(states[i].heap, cur, m, f, id) && Right(states, steps, l, i, f, id);
    var m', f' := StepMeets(states[i], steps[i], states[i + 1], cur, m, f, id);
    if f' == f {
      RightStays(states, steps, l, i, f, id);
    } else {
      RightMoves(states, steps, l, i, f, f', id);
    }
  }

  lemma RightMoves(states: seq<State>, steps: seq<Step>, l: nat, i: nat, f: Ptr, f': Ptr, id: int)
    requires IsRun(states, steps) && i + 1 < |states| && Right(states, steps, l, i, f, id)
    requires states[i].Sized() && states[i + 1].Sized() && Succeeds(states[i], steps[i], states[i + 1], f, f', id)
    ensures Right(states, steps, l, i + 1, f', id)
  {
    hide Inv, Next, Behind, FirstSince, FirstFrom;
    RunInv(states, steps, i);
    RunInv(states, steps, i + 1);
    assert Next(states[i], steps[i], states[i + 1]);
    TakenIsLinked(states[i], steps[i], states[i + 1], f.at);
    SuccessorBehind(states[i], steps[i], states[i + 1], FrontAdded(steps, l, i), f, f', id);
    RightNowBehind(states, steps, l, i + 1, f', id);
  }

  lemma TakenIsLinked(s: State, step: Step, s': State, a: Addr)
    requires Inv(s) && Next(s, step, s') && (step.ReplaceStep? || step.UnlinkStep?)
    requires step.t < |s.tasks| && (s.tasks[step.t].UpdLocked? || s.tasks[step.t].DelHit?) && s.tasks[step.t].oldB == a
    ensures a in s.heap && s.heap[a].status.Linked?
  {
    hide Inv, ReplaceHeap, UnlinkHeap;
    OnList(s, step.k);
  }

  // ---------- the steps of the searching task ----------

  lemma HeadKnows(states: seq<State>, steps: seq<Step>, l: nat, t: Tid)
    requires IsRun(states, steps) && l < |steps| && LoadHead(states[l], t, states[l + 1]) && states[l].tasks[t].Enter?
    ensures t < |states[l + 1].tasks| && SearchKnows(states, steps, l + 1, l + 1, states[l + 1].tasks[t])
  {
    hide Inv, Next, Meets, FirstFrom, Linking, Right;
    RunInv(states, steps, l);
    RunInv(states, steps, l + 1);
    var s, s' := states[l], states[l + 1];
    OrderLinks(s);
    var id := s.tasks[t].id;
    var f := ListMeets(s.heap, s.Order(), 0, id);
    LogNotEmpty(s');
    assert Behind(s', FrontAdded(steps, l + 1, l + 1), f, id);
    RightNowBehind(states, steps, l + 1, l + 1, f, id);
  }

  // Where a search goes on, or ends.
  lemma MeetsOn(s: State, t: Tid, m: nat, f: Ptr)
    requires Inv(s) && t < |s.tasks| && s.tasks[t].Walk? && Meets(s.heap, s.tasks[t].cur, m, f, s.tasks[t].id)
    ensures var Walk(_, id, cur) := s.tasks[t];
            if cur.To? && cur.at in s.heap && s.heap[cur.at].book.id != id
            then m > 0 && Meets(s.heap, s.heap[cur.at].next, m - 1, f, id) && PublishedAt(s.heap, s.heap[cur.at].next)
            else f == cur
  {
    CursorPublished(s, t);
    OrderLinks(s);
    hide Inv;
  }

  lemma VisitStays(states: seq<State>, steps: seq<Step>, l: nat, i: nat, t: Tid)
    requires IsRun(states, steps) && i < |steps| && Visit(states[i], t, states[i + 1]) && Inv(states[i])
    requires SearchKnows(states, steps, l, i, states[i].tasks[t])
    ensures t < |states[i + 1].tasks| && SearchKnows(states, steps, l, i + 1, states[i + 1].tasks[t])
  {
    hide Inv, Next, Right, Meets, PublishedAt;
    var Walk(op, id, cur) := states[i].tasks[t];
    var m: nat, f: Ptr :| Meets(states[i].heap, cur, m, f, id) && Right(states, steps, l, i, f, id);
    MeetsOn(states[i], t, m, f);
    if cur.To? && states[i].heap[cur.at].book.id != id {
      var next := states[i].heap[cur.at].next;
      assert RightAhead(states, steps, l, i, next, id);
      AheadStays(states, steps, l, i, next, id);
    } else {
      RightStays(states, steps, l, i, f, id);
    }
  }

  // Any other step of the task, within the section.
  lemma OtherStays(states: seq<State>, steps: seq<Step>, l: nat, i: nat, t: Tid)
    requires IsRun(states, steps) && i < |steps| && !steps[i].CallbackStep? && steps[i].t == t && !steps[i].VisitStep?
    requires states[i].Open(t) && states[i + 1].Open(t) && SearchKnows(states, steps, l, i, states[i].tasks[t])
    ensures SearchKnows(states, steps, l, i + 1, states[i + 1].tasks[t])
  {
    hide Inv, Right, RightAhead;
    assert Next(states[i], steps[i], states[i + 1]);
    SameTarget(states[i], steps[i], states[i + 1], t);
    hide Next;
    if Targets(states[i + 1].tasks[t]) {
      var pc := states[i + 1].tasks[t];
      RightStays(states, steps, l, i, To(pc.oldB), pc.id);
    }
  }

  predicate Targets(pc: Pc) {
    pc.Hit? || pc.Copied? || pc.UpdLocked?
  }

  lemma SameTarget(s: State, step: Step, s': State, t: Tid)
    requires Next(s, step, s') && !step.CallbackStep? && step.t == t && !step.VisitStep? && s.Open(t) && s'.Open(t)
    requires !s.tasks[t].Enter?
    ensures !s'.tasks[t].Enter? && Uninformed(s'.tasks[t])
    ensures Targets(s'.tasks[t]) ==>
              Targets(s.tasks[t]) && s'.tasks[t].oldB == s.tasks[t].oldB && s'.tasks[t].id == s.tasks[t].id
  {
    hide ReplaceHeap, UnlinkHeap, Free;
  }

  // A step of another task.
  lemma OthersStay(states: seq<State>, steps: seq<Step>, l: nat, i: nat, t: Tid)
    requires IsRun(states, steps) && i < |steps| && (steps[i].CallbackStep? || steps[i].t != t)
    requires states[i].Open(t) && Inv(states[i]) && SearchKnows(states, steps, l, i, states[i].tasks[t])
    ensures states[i + 1].Open(t) && SearchKnows(states, steps, l, i + 1, states[i + 1].tasks[t])
  {
    hide Inv, Next, Right, RightAhead;
    LogNotEmpty(states[i]);
    assert Next(states[i], steps[i], states[i + 1]);
    OthersMove(states[i], steps[i], states[i + 1], t);
    match states[i].tasks[t]
    case Walk(_, id, cur) =>
      CursorPublished(states[i], t);
      AheadStays(states, steps, l, i, cur, id);
    case Hit(_, id, oldB) => RightStays(states, steps, l, i, To(oldB), id);
    case Copied(_, id, oldB, _) => RightStays(states, steps, l, i, To(oldB), id);
    case UpdLocked(_, id, oldB, _) => RightStays(states, steps, l, i, To(oldB), id);
    case Leave(_, id, NotFound) => RightStays(states, steps, l, i, End, id);
    case Leave(_, id, Shown(a, _)) => RightStays(states, steps, l, i, To(a), id);
    case Leave(_, id, Refused(a, _)) => RightStays(states, steps, l, i, To(a), id);
    case _ =>
  }

  // Task t has loaded the head by step l, in the section in which it still is in state i.
  ghost predicate LoadedBy(states: seq<State>, steps: seq<Step>, l: nat, i: nat, t: Tid) {
    l < i && l < |steps| && steps[l] == LoadHeadStep(t) && SameSection(states, t, l, i)
  }

  lemma {:induction false} SectionKnows(states: seq<State>, steps: seq<Step>, l: nat, i: nat, t: Tid)
    requires IsRun(states, steps) && i < |states| && LoadedBy(states, steps, l, i, t)
    ensures states[i].Open(t) && SearchKnows(states, steps, l + 1, i, states[i].tasks[t])
    decreases i
  {
    hide Inv, Next, SearchKnows;
    RunInv(states, steps, i - 1);
    assert states[i - 1].Open(t) && states[i].Open(t);
    assert Next(states[i - 1], steps[i - 1], states[i]);
    if i == l + 1 {
      HeadOfSection(states[l], t, states[l + 1]);
      HeadKnows(states, steps, l, t);
    } else {
      assert LoadedBy(states, steps, l, i - 1, t);
      SectionKnows(states, steps, l, i - 1, t);
      if steps[i - 1].CallbackStep? || steps[i - 1].t != t {
        OthersStay(states, steps, l + 1, i - 1, t);
      } else if steps[i - 1].VisitStep? {
        VisitOf(states[i - 1], steps[i - 1], states[i]);
        VisitStays(states, steps, l + 1, i - 1, t);
      } else {
        OtherStays(states, steps, l + 1, i - 1, t);
      }
    }
  }

  lemma HeadOfSection(s: State, t: Tid, s': State)
    requires Next(s, LoadHeadStep(t), s') && s.Open(t)
    ensures LoadHead(s, t, s') && s.tasks[t].Enter?
  {
  }

  lemma VisitOf(s: State, step: Step, s': State)
    requires Next(s, step, s') && step.VisitStep?
    ensures Visit(s, step.t, s')
  {
  }

  // Every task that has loaded the head in its section has done so by some step.
  predicate Loaded(pc: Pc) {
    pc.InSection() && !pc.Enter?
  }

  lemma {:induction false} LoadOf(states: seq<State>, steps: seq<Step>, i: nat, t: Tid) returns (l: nat)
    requires IsRun(states, steps) && i < |states| && t < |states[i].tasks| && Loaded(states[i].tasks[t])
    ensures LoadedBy(states, steps, l, i, t)
    decreases i
  {
    hide Next;
    assert i > 0;
    var s, step, s' := states[i - 1], steps[i - 1], states[i];
    assert Next(s, step, s');
    LoadedBefore(s, step, s', t);
    if step == LoadHeadStep(t) && s.tasks[t].Enter? {
      l := i - 1;
    } else {
      l := LoadOf(states, steps, i - 1, t);
    }
    assert SameSection(states, t, l, i);
  }

  lemma LoadedBefore(s: State, step: Step, s': State, t: Tid)
    requires Next(s, step, s') && t < |s'.tasks| && Loaded(s'.tasks[t])
    ensures t < |s.tasks| && s.Open(t) && (Loaded(s.tasks[t]) || (step == LoadHeadStep(t) && s.tasks[t].Enter?))
  {
    if step.CallbackStep? {
      CallbackKeepsTasks(s, step, s');
    } else if step.t != t {
      hide Next;
      MovesOne(s, step, s');
    } else {
      hide ReplaceHeap, UnlinkHeap, Free;
    }
  }

  // ---------- which book an update changes ----------

  // Whether one of the first c books of the list has the id.
  predicate FrontHas(books: seq<Book>, c: nat, id: int) {
    exists p :: 0 <= p < c && p < |books| && books[p].id == id
  }

  // The first match behind the front is the first of all when the front has none.
  lemma FirstBehind(s: State, c: nat, k: nat, id: int)
    requires Inv(s) && k < |Abs(s)| && Behind(s, c, To(s.Order()[k]), id)
    ensures Abs(s)[k].id == id && c <= k
    ensures BookList.First(Abs(s), id) == k <==> !FrontHas(Abs(s), c, id)
  {
    hide Inv;
    OrderPublished(s);
    OrderDistinct(s);
    var order := s.Order();
    var j :| && c <= j < |order| && order[j] == order[k] && s.heap[order[j]].book.id == id
             && forall l :: c <= l < j ==> s.heap[order[l]].book.id != id;
    assert j == k;
    assert forall l :: c <= l < k ==> Abs(s)[l].id != id;
    if !FrontHas(Abs(s), c, id) {
      BookList.FirstIs(Abs(s), id, k);
    }
  }

  // In every run, a replacement by borrow_book or return_book is the sequential operation if
  // and only if no book with the id stands among those that have been added in front since the
  // search loaded the head.
  lemma UpdatesFirstExactly(states: seq<State>, steps: seq<Step>, l: nat, i: nat)
    requires IsRun(states, steps) && i < |steps| && steps[i].ReplaceStep? && LoadedBy(states, steps, l, i, steps[i].t)
    ensures Inv(states[i]) && Inv(states[i + 1])
    ensures steps[i].t < |states[i].tasks| && states[i].tasks[steps[i].t].UpdLocked? && states[i].tasks[steps[i].t].op.Update?
    ensures var pc := states[i].tasks[steps[i].t];
            Abs(states[i + 1]) == BookList.Updated(Abs(states[i]), pc.id, pc.op.want)
            <==> !FrontHas(Abs(states[i]), FrontAdded(steps, l + 1, i), pc.id)
    ensures var pc := states[i].tasks[steps[i].t];
            !FrontHas(Abs(states[i]), FrontAdded(steps, l + 1, i), pc.id) ==>
              BookList.CanUpdate(Abs(states[i]), pc.id, pc.op.want)
  {
    StepOfRun(states, steps, i);
    hide Inv, Next, Abs, IsRun, Right, FrontHas, SameSection;
    EveryStepRefines(states, steps, i);
    var s, t, k := states[i], steps[i].t, steps[i].k;
    LogNotEmpty(s);
    SectionKnows(states, steps, l, i, t);
    ReplaceOrder(s, t, k, states[i + 1]);
    TargetBehind(states, steps, l + 1, i, k);
    FirstBehind(s, FrontAdded(steps, l + 1, i), k, s.tasks[t].id);
    BookList.UpdatedAt(Abs(s), k, s.tasks[t].id, s.tasks[t].op.want);
  }

  lemma StepOfRun(states: seq<State>, steps: seq<Step>, i: nat)
    requires IsRun(states, steps) && i < |steps|
    ensures |states| == |steps| + 1 && Next(states[i], steps[i], states[i + 1])
  {
  }

  // A node that is about to be replaced within the contract is on the list.
  lemma TargetBehind(states: seq<State>, steps: seq<Step>, l: nat, i: nat, k: nat)
    requires l <= i < |states| && i < |steps| && steps[i].ReplaceStep? && Inv(states[i]) && states[i].Sized()
    requires var s := states[i];
             && k < |s.Order()| && steps[i].t < |s.tasks| && s.tasks[steps[i].t].UpdLocked?
             && s.Order()[k] == s.tasks[steps[i].t].oldB && SearchKnows(states, steps, l, i, s.tasks[steps[i].t])
    ensures Behind(states[i], FrontAdded(steps, l, i), To(states[i].Order()[k]), states[i].tasks[steps[i].t].id)
  {
    hide HistoryOk, FrozenOk, GraceOk, SyncedOk, OwnersOk, LockOk, TasksOk, Behind, FirstSince;
    assert states[i].Order()[k] in states[i].heap;
  }

  // No step from the l-th up to the i-th publishes a book with the id.
  ghost predicate NoneAdded(states: seq<State>, steps: seq<Step>, l: nat, i: nat, id: int) {
    forall j :: l <= j < i && j < |states| && j < |steps| ==> !AddsId(states[j], steps[j], id)
  }

  lemma FrontLacks(states: seq<State>, steps: seq<Step>, l: nat, i: nat, id: int)
    requires IsRun(states, steps) && l <= i < |states| && NoneAdded(states, steps, l, i, id) && Inv(states[i])
    ensures !FrontHas(Abs(states[i]), FrontAdded(steps, l, i), id)
  {
    hide Inv, Next, AddsId;
    LogNotEmpty(states[i]);
    OrderPublished(states[i]);
    if FrontHas(Abs(states[i]), FrontAdded(steps, l, i), id) {
      var p: nat :| p < FrontAdded(steps, l, i) && p < |Abs(states[i])| && Abs(states[i])[p].id == id;
      assert states[i].Order()[p] in states[i].Order();
      var j := FrontWasAdded(states, steps, l, i, p, id);
    }
  }

  // In every run, if no book with the id is published between the load of the head and the
  // replacement, the replacement is the sequential operation, whatever else other tasks do.
  lemma UpdatesFirst(states: seq<State>, steps: seq<Step>, l: nat, i: nat)
    requires IsRun(states, steps) && i < |steps| && steps[i].ReplaceStep? && LoadedBy(states, steps, l, i, steps[i].t)
    requires steps[i].t < |states[i].tasks| && states[i].tasks[steps[i].t].UpdLocked?
    requires NoneAdded(states, steps, l + 1, i, states[i].tasks[steps[i].t].id)
    ensures Inv(states[i]) && Inv(states[i + 1]) && states[i].tasks[steps[i].t].op.Update?
    ensures var pc := states[i].tasks[steps[i].t];
            && BookList.CanUpdate(Abs(states[i]), pc.id, pc.op.want)
            && Abs(states[i + 1]) == BookList.Updated(Abs(states[i]), pc.id, pc.op.want)
  {
    UpdatesFirstExactly(states, steps, l, i);
    hide Inv, Next, Abs, FrontHas, NoneAdded;
    FrontLacks(states, steps, l + 1, i, states[i].tasks[steps[i].t].id);
  }

  // A replacement that is not the sequential operation has an add_book of the same id between
  // its search and itself.
  lemma WrongUpdateByAdd(states: seq<State>, steps: seq<Step>, i: nat) returns (l: nat, j: nat)
    requires IsRun(states, steps) && i < |steps| && steps[i].ReplaceStep? && Inv(states[i]) && Inv(states[i + 1])
    requires steps[i].t < |states[i].tasks| && states[i].tasks[steps[i].t].UpdLocked? && states[i].tasks[steps[i].t].op.Update?
    requires var pc := states[i].tasks[steps[i].t]; Abs(states[i + 1]) != BookList.Updated(Abs(states[i]), pc.id, pc.op.want)
    ensures LoadedBy(states, steps, l, i, steps[i].t) && l < j < i
    ensures AddsId(states[j], steps[j], states[i].tasks[steps[i].t].id)
  {
    hide Inv, Next, Abs, AddsId;
    l := LoadOf(states, steps, i, steps[i].t);
    WrongUpdateAdds(states, steps, l, i);
    j :| l + 1 <= j < i && AddsId(states[j], steps[j], states[i].tasks[steps[i].t].id);
  }

  lemma WrongUpdateAdds(states: seq<State>, steps: seq<Step>, l: nat, i: nat)
    requires IsRun(states, steps) && i < |steps| && steps[i].ReplaceStep? && LoadedBy(states, steps, l, i, steps[i].t)
    requires Inv(states[i]) && Inv(states[i + 1])
    requires steps[i].t < |states[i].tasks| && states[i].tasks[steps[i].t].UpdLocked? && states[i].tasks[steps[i].t].op.Update?
    ensures var pc := states[i].tasks[steps[i].t];
            || Abs(states[i + 1]) == BookList.Updated(Abs(states[i]), pc.id, pc.op.want)
            || !NoneAdded(states, steps, l + 1, i, pc.id)
  {
    hide Inv, Next, Abs, NoneAdded;
    if NoneAdded(states, steps, l + 1, i, states[i].tasks[steps[i].t].id) {
      UpdatesFirst(states, steps, l, i);
    }
  }

  // ---------- answers and refusals ----------

  lemma LookupBehind(s: State, c: nat, f: Ptr, id: int, book: Book)
    requires Inv(s) && Behind(s, c, f, id) && !FrontHas(Abs(s), c, id)
    requires f.To? ==> f.at in s.heap && s.heap[f.at].book == book
    ensures if f == End then LookupAnswer(s, id, NotFound)
            else LookupAnswer(s, id, Shown(f.at, book)) && LookupAnswer(s, id, Refused(f.at, book))
  {
    hide Inv;
    OrderPublished(s);
    OrderDistinct(s);
    var order := s.Order();
    if f.To? {
      var j :| c <= j < |order| && order[j] == f.at && forall l :: c <= l < j ==> s.heap[order[l]].book.id != id;
      FirstBehind(s, c, j, id);
    } else {
      forall l | 0 <= l < |Abs(s)| ensures Abs(s)[l].id != id {
        assert order[l] in order;
      }
      BookList.FirstIs(Abs(s), id, |Abs(s)|);
    }
  }

  lemma RightInstant(states: seq<State>, steps: seq<Step>, l: nat, k: nat, f: Ptr, id: int, book: Book) returns (i: nat)
    requires IsRun(states, steps) && k < |states| && Right(states, steps, l, k, f, id) && NoneAdded(states, steps, l, k, id)
    requires f.To? ==> states[k].heap[f.at].book == book
    ensures l <= i <= k && Inv(states[i])
    ensures if f == End then LookupAnswer(states[i], id, NotFound)
            else LookupAnswer(states[i], id, Shown(f.at, book)) && LookupAnswer(states[i], id, Refused(f.at, book))
  {
    hide Inv, Next, Abs, Behind, FrontHas, LookupAnswer, AddsId;
    i :| l <= i <= k && Behind(states[i], FrontAdded(steps, l, i), f, id);
    RunInv(states, steps, i);
    FrontLacks(states, steps, l, i, id);
    if f.To? {
      BehindInOrder(states[i], FrontAdded(steps, l, i), f, id);
      ListedAtInstant(states, steps, i, k);
    }
    LookupBehind(states[i], FrontAdded(steps, l, i), f, id, book);
  }

  lemma BehindInOrder(s: State, c: nat, f: Ptr, id: int)
    requires Behind(s, c, f, id) && f.To?
    ensures s.Sized() && f.at in s.Order()
  {
  }

  // In every run, if no book with the id is published between the load of the head and the
  // answer, the answer of a section is that of first-match lookup at an instant in between.
  lemma AnswersRight(states: seq<State>, steps: seq<Step>, l: nat, k: nat, t: Tid) returns (i: nat)
    requires IsRun(states, steps) && k < |states| && LoadedBy(states, steps, l, k, t)
    requires t < |states[k].tasks| && states[k].tasks[t].Leave? && NoneAdded(states, steps, l + 1, k, states[k].tasks[t].id)
    ensures l < i <= k && SameSection(states, t, i, k) && Inv(states[i])
    ensures LookupAnswer(states[i], states[k].tasks[t].id, states[k].tasks[t].answer)
  {
    hide Inv, Next, NoneAdded, LookupAnswer, Right;
    var Leave(op, id, answer) := states[k].tasks[t];
    SectionKnows(states, steps, l, k, t);
    RunInv(states, steps, k);
    if Found(states[k].tasks[t]) {
      AnsweredBook(states[k], t);
      i := RightInstant(states, steps, l + 1, k, To(answer.at), id, answer.book);
    } else if answer == NotFound {
      i := RightInstant(states, steps, l + 1, k, End, id, Book(0, "", "", false));
    } else {
      i := k;
      MemoryAnswer(states[k], id);
    }
  }

  // And a borrow or return that gives up, other than for want of memory, could not have been
  // applied at that instant.
  lemma RefusalsRight(states: seq<State>, steps: seq<Step>, l: nat, k: nat, t: Tid) returns (i: nat)
    requires IsRun(states, steps) && k < |states| && LoadedBy(states, steps, l, k, t)
    requires t < |states[k].tasks| && states[k].tasks[t].Leave? && NoneAdded(states, steps, l + 1, k, states[k].tasks[t].id)
    requires states[k].tasks[t].op.Update? && states[k].tasks[t].answer != NoMemory
    ensures l < i <= k && SameSection(states, t, i, k) && Inv(states[i])
    ensures !BookList.CanUpdate(Abs(states[i]), states[k].tasks[t].id, states[k].tasks[t].op.want)
  {
    hide Inv, Next, NoneAdded, Abs;
    i := AnswersRight(states, steps, l, k, t);
    RunInv(states, steps, k);
    LeaveKind(states[k], t);
  }

  // borrow_book and return_book show nothing, and refuse a book for its flag.
  lemma LeaveKind(s: State, t: Tid)
    requires Inv(s) && t < |s.tasks| && s.tasks[t].Leave?
    ensures s.tasks[t].answer.Shown? ==> s.tasks[t].op.Print?
    ensures s.tasks[t].answer.Refused? ==> s.tasks[t].op.Update? && s.tasks[t].answer.book.borrowed == s.tasks[t].op.want
  {
    hide Inv;
    TaskFacts(s, t);
  }

  // ---------- add_book between a search and its replacement ----------

  // An answer of a section that is that of first-match lookup at no instant of the section
  // goes back to an add_book of the same id between the search and the replacement of some
  // borrow or return.
  lemma WrongAnswerByAdd(states: seq<State>, steps: seq<Step>, k: nat, t: Tid) returns (l: nat, j: nat, i: nat)
    requires IsRun(states, steps) && k < |states| && t < |states[k].tasks| && Found(states[k].tasks[t]) && states[k].Sized()
    requires var s := states[k]; StayedBehind(s.heap, s.log, s.since[t], s.tasks[t].answer.at, s.tasks[t].id)
    ensures l < j < i < k && SameSection(states, t, i, k) && steps[i].ReplaceStep?
    ensures LoadedBy(states, steps, l, i, steps[i].t) && AddsId(states[j], steps[j], states[k].tasks[t].id)
  {
    hide Inv, Next, Abs, AddsId, StayedBehind;
    i := SpoiledByReplace(states, steps, k, t);
    l, j := WrongUpdateByAdd(states, steps, i);
  }

  // Such an add_book does make a borrow that is not the sequential operation: this run ends
  // with one, which flags the second of two books with the id.
  lemma OverlapUpdatesSecond() returns (run: Run, i: nat)
    ensures run.Valid() && i < |run.steps| && |run.states| == |run.steps| + 1 && run.steps[i].ReplaceStep?
    ensures Inv(run.states[i]) && Inv(run.states[i + 1])
    ensures run.steps[i].t < |run.states[i].tasks| && run.states[i].tasks[run.steps[i].t].UpdLocked?
    ensures var pc := run.states[i].tasks[run.steps[i].t];
            pc.op.Update? && Abs(run.states[i + 1]) != BookList.Updated(Abs(run.states[i]), pc.id, pc.op.want)
  {
    run := BorrowerBehind();
    i := |run.steps|;
    var s := run.Last();
    var s' := s.At(1, Replaced(Update(true, true), 7, 0)).(
      heap := ReplaceHeap(s.heap, s.Order(), 2, 2, Retired(|s.log|, ByTask(1))),
      head := HeadAfter(s.head, 2, To(2)), log := s.log + [s.Order()[2 := 2]]);
    assert Replace(s, 1, 2, s');
    hide Run.Valid;
    run := Then(run, ReplaceStep(1, 2), s');
    SecondFlagged(run, i);
  }

  // Task 1 is about to replace a node that stands behind another book with the id.
  lemma BorrowerBehind() returns (run: Run)
    ensures run.Valid() && var s := run.Last();
            && s.Sized() && s.Order() == [3, 1, 0] && |s.tasks| == 3 && s.tasks[1] == UpdLocked(Update(true, true), 7, 0, 2)
            && {0, 1, 2, 3} <= s.heap.Keys && s.heap[3].book.id == 7
  {
    run := ReaderAndBorrower();
    run := Adds(run, 0, Book(7, "c", "x", false), 3);
    assert run.Last().Order() == [3, 1, 0] by { assert [3] + [1, 0] == [3, 1, 0]; }
    var s := run.Last();
    var s' := s.At(1, UpdLocked(Update(true, true), 7, 0, 2)).(lock := Some(1));
    assert Lock(s, 1, s');
    hide Run.Valid;
    run := Then(run, LockStep(1), s');
  }

  lemma SecondFlagged(run: Run, i: nat)
    requires run.Valid() && i + 1 == |run.steps| && run.steps[i] == ReplaceStep(1, 2)
    requires var s := run.states[i];
             && s.Sized() && s.Order() == [3, 1, 0] && 1 < |s.tasks| && s.tasks[1] == UpdLocked(Update(true, true), 7, 0, 2)
             && 3 in s.heap && s.heap[3].book.id == 7
    ensures Inv(run.states[i]) && Inv(run.states[i + 1])
    ensures Abs(run.states[i + 1]) != BookList.Updated(Abs(run.states[i]), 7, true)
  {
    hide Inv, Next;
    EveryStepRefines(run.states, run.steps, i);
    OrderPublished(run.states[i]);
    var books := Abs(run.states[i]);
    assert books[0].id == 7;
    BookList.UpdatedAt(books, 2, 7, true);
  }
}

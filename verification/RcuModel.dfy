/**
 The RCU-protected list of books as a step system.

 Any number of tasks run any mix of print_book, borrow_book, return_book, add_book and
 delete_book.  A step is one access to shared memory, one lock operation, or one RCU
 operation.  Nodes are identified by allocation: an address is never handed out twice, so an
 access to a freed node is visible as an access to a node whose status is Freed.

 Three parts of the state record history.  `log` holds every order the list has had, oldest
 first; `since` holds, for each task, the index in `log` of the order that was current when
 its read-side section began; and the `gone` and `claim` fields of a node's status record
 which order was the first without the node and who has yet to free it.  The current order,
 the last of `log`, is also how the contracts of list_replace_rcu and list_del_rcu are
 stated: the node they take off is on the list.
 */
module RcuModel {
  import opened Common

  type Addr = nat

  type Tid = nat

  datatype Book = Book(id: int, name: string, author: string, borrowed: bool)

  // End stands for the address of the list head itself, where every traversal stops.
  datatype Ptr = End | To(at: Addr)

  datatype Claim = ByTask(t: Tid) | ByCallback

  datatype Status =
    | Fresh(owner: Tid)
    | Linked
    | Retired(gone: nat, claim: Claim)
    | Freed(gone: nat)
  {
    predicate Unlinked() {
      Retired? || Freed?
    }
  }

  datatype Node = Node(book: Book, next: Ptr, status: Status)

  // Update(true, _) is borrow_book and Update(false, _) is return_book.
  datatype Op = Print | Update(want: bool, async: bool)

  datatype Answer = NotFound | Shown(at: Addr, book: Book) | Refused(at: Addr, book: Book) | NoMemory

  datatype Pc =
    | Idle
    // inside a read-side section
    | Enter(op: Op, id: int)
    | Walk(op: Op, id: int, cur: Ptr)
    | Leave(op: Op, id: int, answer: Answer)
    | Hit(op: Op, id: int, oldB: Addr)
    | Copied(op: Op, id: int, oldB: Addr, newB: Addr)
    | UpdLocked(op: Op, id: int, oldB: Addr, newB: Addr)
    | Replaced(op: Op, id: int, oldB: Addr)
    | UpdUnlocked(op: Op, id: int, oldB: Addr)
    // add_book
    | AddReady(newB: Addr)
    | AddLocked(newB: Addr)
    | Added
    // delete_book
    | DelWant(id: int, async: bool)
    | DelEnter(id: int, async: bool)
    | DelWalk(id: int, async: bool, cur: Ptr)
    | DelHit(id: int, async: bool, oldB: Addr)
    | DelMiss
    | DelDone(async: bool, oldB: Addr)
    // reclaim of an unlinked node
    | Reclaim(async: bool, oldB: Addr)
    | SyncWait(oldB: Addr)
    | SyncDone(oldB: Addr)
  {
    predicate InSection() {
      Enter? || Walk? || Leave? || Hit? || Copied? || UpdLocked? || Replaced? || UpdUnlocked?
    }

    predicate HoldsLock() {
      UpdLocked? || Replaced? || AddLocked? || Added?
      || DelEnter? || DelWalk? || DelHit? || DelMiss? || DelDone?
    }

    // The next step of a task here is spin_lock.
    predicate WantsLock() {
      Copied? || AddReady? || DelWant?
    }

    // The published node that a task inside a section still points at.
    function Held(): Ptr {
      match this
      case Walk(_, _, cur) => cur
      case Hit(_, _, oldB) => To(oldB)
      case Copied(_, _, oldB, _) => To(oldB)
      case UpdLocked(_, _, oldB, _) => To(oldB)
      case Replaced(_, _, oldB) => To(oldB)
      case UpdUnlocked(_, _, oldB) => To(oldB)
      case Leave(_, _, Shown(at, _)) => To(at)
      case Leave(_, _, Refused(at, _)) => To(at)
      case _ => End
    }

    // The node allocated by this task and not yet published.
    function Unpublished(): Ptr {
      match this
      case Copied(_, _, _, n) => To(n)
      case UpdLocked(_, _, _, n) => To(n)
      case AddReady(n) => To(n)
      case AddLocked(n) => To(n)
      case _ => End
    }

    // The node unlinked by this task that this task must still free or hand to call_rcu.
    function MustFree(): Ptr {
      match this
      case Replaced(_, _, oldB) => To(oldB)
      case UpdUnlocked(_, _, oldB) => To(oldB)
      case DelDone(_, oldB) => To(oldB)
      case Reclaim(_, oldB) => To(oldB)
      case SyncWait(oldB) => To(oldB)
      case SyncDone(oldB) => To(oldB)
      case _ => End
    }
  }

  datatype State = State(
    heap: map<Addr, Node>,
    head: Ptr,
    lock: Option<Tid>,
    tasks: seq<Pc>,
    // For each node whose grace period has started, the sections it still waits for.
    graces: map<Addr, set<Tid>>,
    since: seq<nat>,
    log: seq<seq<Addr>>)
  {
    ghost predicate Sized() {
      |since| == |tasks| && |log| > 0
    }

    function Order(): seq<Addr>
      requires |log| > 0
    {
      log[|log| - 1]
    }

    predicate Open(t: Tid) {
      t < |tasks| && tasks[t].InSection()
    }

    function Sections(): set<Tid> {
      set t | 0 <= t < |tasks| && tasks[t].InSection()
    }

    function At(t: Tid, pc: Pc): State
      requires t < |tasks|
    {
      this.(tasks := tasks[t := pc])
    }
  }

  function PtrAt(order: seq<Addr>, i: nat): Ptr {
    if i < |order| then To(order[i]) else End
  }

  ghost predicate Init(s: State) {
    && s.heap == map[] && s.head == End && s.lock == None && s.graces == map[]
    && s.log == [[]] && |s.since| == |s.tasks|
    && forall t :: 0 <= t < |s.tasks| ==> s.tasks[t] == Idle
  }

  // ---------- read-side sections: print_book and the search of borrow_book and return_book ----------

  // rcu_read_lock
  ghost predicate BeginRead(s: State, t: Tid, op: Op, id: int, s': State) {
    && s.Sized() && t < |s.tasks| && s.tasks[t] == Idle
    && s' == s.At(t, Enter(op, id)).(since := s.since[t := |s.log| - 1])
  }

  // Start of the traversal: load the first link.
  ghost predicate LoadHead(s: State, t: Tid, s': State) {
    && t < |s.tasks|
    && match s.tasks[t]
       case Enter(op, id) => s' == s.At(t, Walk(op, id, s.head))
       case DelEnter(id, async) => s' == s.At(t, DelWalk(id, async, s.head))
       case _ => false
  }

  // Where one turn of the search loop of a section leads, given the node it looks at.
  function Visited(op: Op, id: int, a: Addr, n: Node): Pc {
    if n.book.id != id then Walk(op, id, n.next)
    else if op.Print? then Leave(op, id, Shown(a, n.book))
    else if n.book.borrowed == op.want then Leave(op, id, Refused(a, n.book))
    else Hit(op, id, a)
  }

  ghost predicate Visit(s: State, t: Tid, s': State) {
    && t < |s.tasks| && s.tasks[t].Walk?
    && var Walk(op, id, cur) := s.tasks[t];
    && (cur.To? ==> cur.at in s.heap)
    && s' == s.At(t, if cur == End then Leave(op, id, NotFound) else Visited(op, id, cur.at, s.heap[cur.at]))
  }

  // rcu_read_unlock
  ghost predicate EndRead(s: State, t: Tid, s': State) {
    && t < |s.tasks|
    && var graces := map a | a in s.graces :: s.graces[a] - {t};
    && match s.tasks[t]
       case Leave(_, _, _) => s' == s.At(t, Idle).(graces := graces)
       case UpdUnlocked(op, id, oldB) =>
         op.Update? && s' == s.At(t, Reclaim(op.async, oldB)).(graces := graces)
       case _ => false
  }

  // ---------- allocation ----------

  // kzalloc and the copy of the old node, or the failure path of kzalloc.
  ghost predicate AllocCopy(s: State, t: Tid, mem: Option<Addr>, s': State) {
    && t < |s.tasks| && s.tasks[t].Hit?
    && var Hit(op, id, oldB) := s.tasks[t];
    && op.Update? && oldB in s.heap
    && match mem
       case None => s' == s.At(t, Leave(op, id, NoMemory))
       case Some(n) =>
         && n !in s.heap
         && var copy := s.heap[oldB].(book := s.heap[oldB].book.(borrowed := op.want), status := Fresh(t));
         && s' == s.At(t, Copied(op, id, oldB, n)).(heap := s.heap[n := copy])
  }

  // kzalloc and the initialisation in add_book; the failure path leaves the state as it is.
  ghost predicate AddAlloc(s: State, t: Tid, book: Book, n: Addr, s': State) {
    && t < |s.tasks| && s.tasks[t] == Idle && n !in s.heap && !book.borrowed
    && s' == s.At(t, AddReady(n)).(heap := s.heap[n := Node(book, End, Fresh(t))])
  }

  // ---------- books_lock ----------

  ghost predicate DelRequest(s: State, t: Tid, id: int, async: bool, s': State) {
    && t < |s.tasks| && s.tasks[t] == Idle
    && s' == s.At(t, DelWant(id, async))
  }

  ghost predicate Lock(s: State, t: Tid, s': State) {
    && t < |s.tasks| && s.lock == None
    && match s.tasks[t]
       case Copied(op, id, oldB, n) => s' == s.At(t, UpdLocked(op, id, oldB, n)).(lock := Some(t))
       case AddReady(n) => s' == s.At(t, AddLocked(n)).(lock := Some(t))
       case DelWant(id, async) => s' == s.At(t, DelEnter(id, async)).(lock := Some(t))
       case _ => false
  }

  ghost predicate Unlock(s: State, t: Tid, s': State) {
    && t < |s.tasks|
    && match s.tasks[t]
       case Replaced(op, id, oldB) => s' == s.At(t, UpdUnlocked(op, id, oldB)).(lock := None)
       case Added => s' == s.At(t, Idle).(lock := None)
       case DelMiss => s' == s.At(t, Idle).(lock := None)
       case DelDone(async, oldB) => s' == s.At(t, Reclaim(async, oldB)).(lock := None)
       case _ => false
  }

  // ---------- changes of the list, under books_lock ----------

  // The heap after the link at position k of the list is made to point at p.
  function Redirect(heap: map<Addr, Node>, order: seq<Addr>, k: nat, p: Ptr): map<Addr, Node>
    requires k <= |order|
    requires k > 0 ==> order[k - 1] in heap
  {
    if k == 0 then heap else heap[order[k - 1] := heap[order[k - 1]].(next := p)]
  }

  // The heap after node n takes the place of the node at position k, which is retired.
  function ReplaceHeap(heap: map<Addr, Node>, order: seq<Addr>, k: nat, n: Addr, retired: Status): map<Addr, Node>
    requires k < |order| && order[k] in heap && n in heap
    requires k > 0 ==> order[k - 1] in heap
  {
    Redirect(heap, order, k, To(n))
      [n := heap[n].(next := heap[order[k]].next, status := Linked)]
      [order[k] := heap[order[k]].(status := retired)]
  }

  // The heap after the node at position k is taken out of the list; its own link stays.
  function UnlinkHeap(heap: map<Addr, Node>, order: seq<Addr>, k: nat, retired: Status): map<Addr, Node>
    requires k < |order| && order[k] in heap
    requires k > 0 ==> order[k - 1] in heap
  {
    Redirect(heap, order, k, heap[order[k]].next)[order[k] := heap[order[k]].(status := retired)]
  }

  // The heap after node n is published in front of the list.
  function InsertHeap(heap: map<Addr, Node>, head: Ptr, n: Addr): map<Addr, Node>
    requires n in heap
  {
    heap[n := heap[n].(next := head, status := Linked)]
  }

  // The head after the link at position k of the list is made to point at p.
  function HeadAfter(head: Ptr, k: nat, p: Ptr): Ptr {
    if k == 0 then p else head
  }

  function Without(order: seq<Addr>, k: nat): seq<Addr>
    requires k < |order|
  {
    order[..k] + order[k + 1..]
  }

  // list_add_rcu: publish a node at the front.
  ghost predicate Insert(s: State, t: Tid, s': State) {
    && s.Sized() && t < |s.tasks| && s.tasks[t].AddLocked? && s.tasks[t].newB in s.heap
    && var n := s.tasks[t].newB;
    && s' == s.At(t, Added).(
               heap := InsertHeap(s.heap, s.head, n),
               head := To(n),
               log := s.log + [[n] + s.Order()])
  }

  // list_replace_rcu: publish the copy in the place of the old node.  Its contract demands
  // that the old node is still on the list, at some position k.
  ghost predicate Replace(s: State, t: Tid, k: nat, s': State) {
    && s.Sized() && t < |s.tasks| && s.tasks[t].UpdLocked?
    && var UpdLocked(op, id, oldB, n) := s.tasks[t];
    && k < |s.Order()| && s.Order()[k] == oldB && oldB in s.heap && n in s.heap
    && (k > 0 ==> s.Order()[k - 1] in s.heap)
    && s' == s.At(t, Replaced(op, id, oldB)).(
               heap := ReplaceHeap(s.heap, s.Order(), k, n, Retired(|s.log|, ByTask(t))),
               head := HeadAfter(s.head, k, To(n)),
               log := s.log + [s.Order()[k := n]])
  }

  // One turn of the search loop of delete_book, which runs under the lock.
  ghost predicate DelVisit(s: State, t: Tid, s': State) {
    && t < |s.tasks| && s.tasks[t].DelWalk?
    && var DelWalk(id, async, cur) := s.tasks[t];
    && (cur.To? ==> cur.at in s.heap)
    && s' == s.At(t, if cur == End then DelMiss
                     else if s.heap[cur.at].book.id == id then DelHit(id, async, cur.at)
                     else DelWalk(id, async, s.heap[cur.at].next))
  }

  // list_del_rcu: the node's own next link is left as it is.
  ghost predicate Unlink(s: State, t: Tid, k: nat, s': State) {
    && s.Sized() && t < |s.tasks| && s.tasks[t].DelHit?
    && var DelHit(id, async, oldB) := s.tasks[t];
    && k < |s.Order()| && s.Order()[k] == oldB && oldB in s.heap
    && (k > 0 ==> s.Order()[k - 1] in s.heap)
    && s' == s.At(t, DelDone(async, oldB)).(
               heap := UnlinkHeap(s.heap, s.Order(), k, Retired(|s.log|, ByTask(t))),
               head := HeadAfter(s.head, k, s.heap[oldB].next),
               log := s.log + [Without(s.Order(), k)])
  }

  // ---------- reclaim ----------

  // call_rcu: the callback waits for the sections that are open now.
  ghost predicate CallRcu(s: State, t: Tid, s': State) {
    && t < |s.tasks| && s.tasks[t].Reclaim? && s.tasks[t].async && s.tasks[t].oldB in s.heap
    && var oldB := s.tasks[t].oldB;
    && s.heap[oldB].status.Retired?
    && s' == s.At(t, Idle).(
               heap := s.heap[oldB := s.heap[oldB].(status := Retired(s.heap[oldB].status.gone, ByCallback))],
               graces := s.graces[oldB := s.Sections()])
  }

  // synchronize_rcu begins: it waits for the sections that are open now.
  ghost predicate SyncBegin(s: State, t: Tid, s': State) {
    && t < |s.tasks| && s.tasks[t].Reclaim? && !s.tasks[t].async
    && var oldB := s.tasks[t].oldB;
    && s' == s.At(t, SyncWait(oldB)).(graces := s.graces[oldB := s.Sections()])
  }

  ghost predicate SyncEnd(s: State, t: Tid, s': State) {
    && t < |s.tasks| && s.tasks[t].SyncWait?
    && var oldB := s.tasks[t].oldB;
    && oldB in s.graces && s.graces[oldB] == {}
    && s' == s.At(t, SyncDone(oldB)).(graces := s.graces - {oldB})
  }

  function Free(heap: map<Addr, Node>, a: Addr): map<Addr, Node>
    requires a in heap && heap[a].status.Retired?
  {
    heap[a := heap[a].(status := Freed(heap[a].status.gone))]
  }

  // kfree after synchronize_rcu
  ghost predicate Kfree(s: State, t: Tid, s': State) {
    && t < |s.tasks| && s.tasks[t].SyncDone?
    && var oldB := s.tasks[t].oldB;
    && oldB in s.heap && s.heap[oldB].status.Retired?
    && s' == s.At(t, Idle).(heap := Free(s.heap, oldB))
  }

  // book_reclaim_callback
  ghost predicate Callback(s: State, a: Addr, s': State) {
    && a in s.graces && s.graces[a] == {} && a in s.heap
    && s.heap[a].status.Retired? && s.heap[a].status.claim == ByCallback
    && s' == s.(heap := Free(s.heap, a), graces := s.graces - {a})
  }

  // ---------- runs ----------

  datatype Step =
    | BeginReadStep(t: Tid, op: Op, id: int)
    | LoadHeadStep(t: Tid)
    | VisitStep(t: Tid)
    | EndReadStep(t: Tid)
    | AllocCopyStep(t: Tid, mem: Option<Addr>)
    | AddAllocStep(t: Tid, book: Book, n: Addr)
    | DelRequestStep(t: Tid, id: int, async: bool)
    | LockStep(t: Tid)
    | UnlockStep(t: Tid)
    | InsertStep(t: Tid)
    | ReplaceStep(t: Tid, k: nat)
    | DelVisitStep(t: Tid)
    | UnlinkStep(t: Tid, k: nat)
    | CallRcuStep(t: Tid)
    | SyncBeginStep(t: Tid)
    | SyncEndStep(t: Tid)
    | KfreeStep(t: Tid)
    | CallbackStep(a: Addr)

  ghost predicate Next(s: State, step: Step, s': State) {
    match step
    case BeginReadStep(t, op, id) => BeginRead(s, t, op, id, s')
    case LoadHeadStep(t) => LoadHead(s, t, s')
    case VisitStep(t) => Visit(s, t, s')
    case EndReadStep(t) => EndRead(s, t, s')
    case AllocCopyStep(t, mem) => AllocCopy(s, t, mem, s')
    case AddAllocStep(t, book, n) => AddAlloc(s, t, book, n, s')
    case DelRequestStep(t, id, async) => DelRequest(s, t, id, async, s')
    case LockStep(t) => Lock(s, t, s')
    case UnlockStep(t) => Unlock(s, t, s')
    case InsertStep(t) => Insert(s, t, s')
    case ReplaceStep(t, k) => Replace(s, t, k, s')
    case DelVisitStep(t) => DelVisit(s, t, s')
    case UnlinkStep(t, k) => Unlink(s, t, k, s')
    case CallRcuStep(t) => CallRcu(s, t, s')
    case SyncBeginStep(t) => SyncBegin(s, t, s')
    case SyncEndStep(t) => SyncEnd(s, t, s')
    case KfreeStep(t) => Kfree(s, t, s')
    case CallbackStep(a) => Callback(s, a, s')
  }

  ghost predicate IsRun(states: seq<State>, steps: seq<Step>) {
    && |states| == |steps| + 1
    && Init(states[0])
    && forall i :: 0 <= i < |steps| ==> Next(states[i], steps[i], states[i + 1])
  }
}

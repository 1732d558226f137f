/**
 The invariant of the RCU book list.  The heart of it is a fact about times along pointer
 chains: the link of an unlinked node leads to a node that was unlinked later or is still on
 the list, so a section that began before a node was unlinked can only walk to nodes that
 were on the list at some instant after the section began.
 */
module RcuInvariant {
  import opened Common
  import opened RcuModel

  type Heap = map<Addr, Node>

  type Log = seq<seq<Addr>>

  // The links of the nodes spell out the order.
  ghost predicate Linking(heap: Heap, order: seq<Addr>) {
    forall i {:trigger heap[order[i]]} {:trigger order[i] in heap} :: 0 <= i < |order| ==>
      order[i] in heap && heap[order[i]].status.Linked? && heap[order[i]].next == PtrAt(order, i + 1)
  }

  // The list is the given order, and exactly its nodes are Linked.
  ghost predicate ListOk(heap: Heap, head: Ptr, order: seq<Addr>) {
    && Distinct(order) && head == PtrAt(order, 0) && Linking(heap, order)
    && forall a :: a in heap && heap[a].status.Linked? ==> a in order
  }

  // Node b is on the list now, or was unlinked after order number `version` came about.
  ghost predicate Later(heap: Heap, b: Addr, version: nat) {
    && b in heap && !heap[b].status.Fresh?
    && (heap[b].status.Unlinked() ==> version < heap[b].status.gone)
  }

  ghost predicate Published(heap: Heap, order: seq<Addr>) {
    forall a :: a in order ==> a in heap && !heap[a].status.Fresh?
  }

  ghost predicate HistoryOk(heap: Heap, log: Log) {
    && (forall v :: 0 <= v < |log| ==> Published(heap, log[v]))
    && (forall a :: a in heap && heap[a].status.Unlinked() ==>
          0 < heap[a].status.gone < |log| && a in log[heap[a].status.gone - 1])
  }

  // The frozen link of an unlinked node leads to something unlinked later, if at all.
  ghost predicate FrozenOk(heap: Heap) {
    forall a :: a in heap && heap[a].status.Unlinked() && heap[a].next.To? ==>
      Later(heap, heap[a].next.at, heap[a].status.gone)
  }

  // Every open section began after node a was unlinked.
  ghost predicate Elapsed(heap: Heap, open: set<Tid>, since: seq<nat>, a: Addr) {
    && a in heap && heap[a].status.Unlinked()
    && forall t :: t in open && t < |since| ==> heap[a].status.gone <= since[t]
  }

  ghost predicate GraceOk(heap: Heap, graces: map<Addr, set<Tid>>, open: set<Tid>, since: seq<nat>, now: nat) {
    && (forall t :: t in open ==> t < |since| && since[t] < now)
    && (forall a :: a in graces ==> a in heap && heap[a].status.Retired? && graces[a] <= open)
    && (forall a, t :: a in graces && t in open && t !in graces[a] ==> heap[a].status.gone <= since[t])
    && (forall a :: a in heap && heap[a].status.Freed? ==> Elapsed(heap, open, since, a))
  }

  // A task that has returned from synchronize_rcu may free its node.
  ghost predicate SyncedOk(heap: Heap, tasks: seq<Pc>, open: set<Tid>, since: seq<nat>) {
    forall t :: 0 <= t < |tasks| && tasks[t].SyncDone? ==> Elapsed(heap, open, since, tasks[t].oldB)
  }

  // A task's unpublished node and the node it must free are its own.
  ghost predicate OwnsOk(heap: Heap, t: Tid, pc: Pc) {
    && (pc.Unpublished().To? ==>
          pc.Unpublished().at in heap && heap[pc.Unpublished().at].status == Fresh(t))
    && (pc.MustFree().To? ==>
          && pc.MustFree().at in heap && heap[pc.MustFree().at].status.Retired?
          && heap[pc.MustFree().at].status.claim == ByTask(t))
  }

  // Node a, if unpublished or awaiting its free, has the owner that its status names.
  ghost predicate OwnedOk(heap: Heap, tasks: seq<Pc>, graces: map<Addr, set<Tid>>, a: Addr)
    requires a in heap
  {
    match heap[a].status
    case Fresh(t) => t < |tasks| && tasks[t].Unpublished() == To(a)
    case Retired(_, ByTask(t)) =>
      t < |tasks| && tasks[t].MustFree() == To(a) && (a in graces <==> tasks[t].SyncWait?)
    case Retired(_, ByCallback) => a in graces
    case _ => true
  }

  ghost predicate OwnersOk(heap: Heap, tasks: seq<Pc>, graces: map<Addr, set<Tid>>) {
    && (forall t :: 0 <= t < |tasks| ==> OwnsOk(heap, t, tasks[t]))
    && (forall a :: a in heap ==> OwnedOk(heap, tasks, graces, a))
  }

  ghost predicate LockOk(lock: Option<Tid>, tasks: seq<Pc>) {
    && (lock.Some? ==> lock.value < |tasks| && tasks[lock.value].HoldsLock())
    && (forall t :: 0 <= t < |tasks| && tasks[t].HoldsLock() ==> lock == Some(t))
  }

  // ---------- what a task knows ----------

  ghost predicate NoneHas(heap: Heap, order: seq<Addr>, id: int) {
    forall i :: 0 <= i < |order| && order[i] in heap ==> heap[order[i]].book.id != id
  }

  // At some instant since order number `version`, no book on the list had this id.
  ghost predicate AbsentSince(heap: Heap, log: Log, version: nat, id: int) {
    exists v :: version <= v < |log| && NoneHas(heap, log[v], id)
  }

  // p is a chain of links from c whose last node has the given id.
  ghost predicate Leads(heap: Heap, c: Addr, p: seq<Addr>, id: int)
    decreases |p|
  {
    && |p| > 0 && p[0] == c && c in heap
    && if |p| == 1 then heap[c].book.id == id
       else heap[c].next == To(p[1]) && Leads(heap, p[1], p[1..], id)
  }

  ghost predicate Ahead(heap: Heap, p: Ptr, id: int) {
    p.To? && exists path :: Leads(heap, p.at, path, id)
  }

  // A search at cur will still meet the id, unless the id was absent at some instant.
  ghost predicate SearchOk(heap: Heap, log: Log, version: nat, cur: Ptr, id: int) {
    AbsentSince(heap, log, version, id) || Ahead(heap, cur, id)
  }

  ghost predicate HasBook(heap: Heap, a: Addr, book: Book) {
    a in heap && !heap[a].status.Fresh? && heap[a].book == book
  }

  ghost predicate AnswerOk(heap: Heap, log: Log, version: nat, op: Op, id: int, answer: Answer) {
    match answer
    case NotFound => AbsentSince(heap, log, version, id)
    case Shown(a, book) => HasBook(heap, a, book) && book.id == id && op.Print?
    case Refused(a, book) => HasBook(heap, a, book) && book.id == id && op.Update? && book.borrowed == op.want
    case NoMemory => op.Update?
  }

  ghost predicate HitOk(heap: Heap, op: Op, id: int, oldB: Addr) {
    op.Update? && oldB in heap && heap[oldB].book.id == id && heap[oldB].book.borrowed != op.want
  }

  ghost predicate CopyOk(heap: Heap, op: Op, id: int, oldB: Addr, newB: Addr) {
    && HitOk(heap, op, id, oldB) && newB in heap
    && heap[newB].book == heap[oldB].book.(borrowed := op.want)
  }

  // No book before position k of the order has the id.
  ghost predicate NoneBefore(heap: Heap, order: seq<Addr>, k: nat, id: int) {
    k <= |order| && NoneHas(heap, order[..k], id)
  }

  ghost predicate DelWalkOk(heap: Heap, order: seq<Addr>, cur: Ptr, id: int) {
    exists k: nat :: cur == PtrAt(order, k) && NoneBefore(heap, order, k, id)
  }

  ghost predicate DelHitOk(heap: Heap, order: seq<Addr>, oldB: Addr, id: int) {
    && oldB in heap && heap[oldB].book.id == id
    && exists k: nat :: k < |order| && order[k] == oldB && NoneBefore(heap, order, k, id)
  }

  ghost predicate KnowsOk(heap: Heap, log: Log, version: nat, pc: Pc)
    requires |log| > 0
  {
    match pc
    case Walk(_, id, cur) => SearchOk(heap, log, version, cur, id)
    case Leave(op, id, answer) => AnswerOk(heap, log, version, op, id, answer)
    case Hit(op, id, oldB) => HitOk(heap, op, id, oldB)
    case Copied(op, id, oldB, newB) => CopyOk(heap, op, id, oldB, newB)
    case UpdLocked(op, id, oldB, newB) => CopyOk(heap, op, id, oldB, newB)
    case Replaced(op, _, _) => op.Update?
    case UpdUnlocked(op, _, _) => op.Update?
    case DelWalk(id, _, cur) => DelWalkOk(heap, log[|log| - 1], cur, id)
    case DelHit(id, _, oldB) => DelHitOk(heap, log[|log| - 1], oldB, id)
    case _ => true
  }

  // A node a section points at was on the list at some instant of that section.
  ghost predicate HeldOk(heap: Heap, version: nat, pc: Pc) {
    pc.Held().To? ==> Later(heap, pc.Held().at, version)
  }

  ghost predicate TasksOk(heap: Heap, log: Log, tasks: seq<Pc>, since: seq<nat>)
    requires |log| > 0 && |tasks| == |since|
  {
    forall t :: 0 <= t < |tasks| ==> HeldOk(heap, since[t], tasks[t]) && KnowsOk(heap, log, since[t], tasks[t])
  }

  // The part of the invariant that only speaks about the memory.
  ghost predicate MemoryOk(s: State) {
    && |s.log| > 0 && ListOk(s.heap, s.head, s.Order())
    && HistoryOk(s.heap, s.log) && FrozenOk(s.heap)
  }

  ghost predicate Inv(s: State) {
    && s.Sized() && MemoryOk(s)
    && GraceOk(s.heap, s.graces, s.Sections(), s.since, |s.log|)
    && SyncedOk(s.heap, s.tasks, s.Sections(), s.since)
    && OwnersOk(s.heap, s.tasks, s.graces)
    && LockOk(s.lock, s.tasks)
    && TasksOk(s.heap, s.log, s.tasks, s.since)
  }

  lemma InitInv(s: State)
    requires Init(s)
    ensures Inv(s)
  {
  }

  // ---------- facts about chains ----------

  // The list itself is a path to every book on it.
  lemma {:induction false} OrderLeads(heap: Heap, order: seq<Addr>, i: nat, j: nat)
    requires i <= j < |order| && Linking(heap, order)
    ensures Leads(heap, order[i], order[i..j + 1], heap[order[j]].book.id)
    decreases j - i
  {
    if i < j {
      OrderLeads(heap, order, i + 1, j);
      assert order[i..j + 1][1..] == order[i + 1..j + 1];
    }
  }

  // Links of published nodes lead to published nodes, and never back in time.
  lemma NextIsLater(s: State, a: Addr, version: nat)
    requires MemoryOk(s) && Later(s.heap, a, version) && s.heap[a].next.To?
    ensures Later(s.heap, s.heap[a].next.at, version)
  {
    if s.heap[a].status.Linked? {
      var order := s.Order();
      var i :| 0 <= i < |order| && order[i] == a;
      assert s.heap[a].next == PtrAt(order, i + 1);
      assert s.heap[order[i + 1]].status.Linked?;
    }
  }

  // ---------- one task moves: each part of the invariant on its own ----------

  lemma OwnersMove(heap: Heap, tasks: seq<Pc>, graces: map<Addr, set<Tid>>, t: Tid, pc: Pc, graces': map<Addr, set<Tid>>)
    requires OwnersOk(heap, tasks, graces) && t < |tasks|
    requires pc.Unpublished() == tasks[t].Unpublished() && pc.MustFree() == tasks[t].MustFree()
    requires forall a :: a in heap && To(a) != pc.MustFree() ==> (a in graces <==> a in graces')
    requires pc.MustFree().To? ==> (pc.MustFree().at in graces' <==> pc.SyncWait?)
    ensures OwnersOk(heap, tasks[t := pc], graces')
  {
    forall a | a in heap ensures OwnedOk(heap, tasks[t := pc], graces', a) {
      assert OwnedOk(heap, tasks, graces, a);
    }
  }

  lemma TasksMove(heap: Heap, log: Log, tasks: seq<Pc>, since: seq<nat>, t: Tid, pc: Pc, version: nat)
    requires |log| > 0 && |tasks| == |since| && TasksOk(heap, log, tasks, since) && t < |tasks|
    requires HeldOk(heap, version, pc) && KnowsOk(heap, log, version, pc)
    ensures TasksOk(heap, log, tasks[t := pc], since[t := version])
  {
  }

  lemma SyncedMove(heap: Heap, tasks: seq<Pc>, open: set<Tid>, since: seq<nat>, t: Tid, pc: Pc)
    requires SyncedOk(heap, tasks, open, since) && t < |tasks|
    requires pc.SyncDone? ==> Elapsed(heap, open, since, pc.oldB)
    ensures SyncedOk(heap, tasks[t := pc], open, since)
  {
  }

  lemma LockMove(lock: Option<Tid>, tasks: seq<Pc>, t: Tid, pc: Pc)
    requires LockOk(lock, tasks) && t < |tasks| && pc.HoldsLock() == tasks[t].HoldsLock()
    ensures LockOk(lock, tasks[t := pc])
  {
  }

  lemma LockTake(tasks: seq<Pc>, t: Tid, pc: Pc)
    requires LockOk(None, tasks) && t < |tasks| && pc.HoldsLock()
    ensures LockOk(Some(t), tasks[t := pc])
  {
  }

  lemma LockRelease(lock: Option<Tid>, tasks: seq<Pc>, t: Tid, pc: Pc)
    requires LockOk(lock, tasks) && t < |tasks| && tasks[t].HoldsLock() && !pc.HoldsLock()
    ensures LockOk(None, tasks[t := pc])
  {
  }

  // A new section begins after everything that has been unlinked.
  lemma SectionOpens(heap: Heap, log: Log, tasks: seq<Pc>, graces: map<Addr, set<Tid>>, open: set<Tid>, since: seq<nat>, t: Tid)
    requires |log| > 0 && HistoryOk(heap, log) && t < |since| && t !in open
    requires GraceOk(heap, graces, open, since, |log|) && SyncedOk(heap, tasks, open, since)
    ensures GraceOk(heap, graces, open + {t}, since[t := |log| - 1], |log|)
    ensures SyncedOk(heap, tasks, open + {t}, since[t := |log| - 1])
  {
  }

  // A section that closes leaves every grace period.
  lemma SectionCloses(heap: Heap, tasks: seq<Pc>, graces: map<Addr, set<Tid>>, open: set<Tid>, since: seq<nat>, now: nat, t: Tid)
    requires GraceOk(heap, graces, open, since, now) && SyncedOk(heap, tasks, open, since)
    ensures GraceOk(heap, map a | a in graces :: graces[a] - {t}, open - {t}, since, now)
    ensures SyncedOk(heap, tasks, open - {t}, since)
  {
  }

  // A grace period that starts waits for every open section.
  lemma GraceStarts(heap: Heap, graces: map<Addr, set<Tid>>, open: set<Tid>, since: seq<nat>, now: nat, a: Addr)
    requires GraceOk(heap, graces, open, since, now) && a in heap && heap[a].status.Retired?
    ensures GraceOk(heap, graces[a := open], open, since, now)
  {
  }

  lemma GraceEnds(heap: Heap, graces: map<Addr, set<Tid>>, open: set<Tid>, since: seq<nat>, now: nat, a: Addr)
    requires GraceOk(heap, graces, open, since, now) && a in graces && graces[a] == {}
    ensures GraceOk(heap, graces - {a}, open, since, now) && Elapsed(heap, open, since, a)
  {
  }

  // ---------- steps that leave the memory as it is ----------

  lemma SectionsMove(s: State, t: Tid, pc: Pc)
    requires t < |s.tasks| && pc.InSection() == s.tasks[t].InSection()
    ensures s.At(t, pc).Sections() == s.Sections()
  {
  }

  // A task that keeps what it owns keeps the parts of the invariant about tasks and owners.
  lemma QuietMove(s: State, t: Tid, pc: Pc, graces: map<Addr, set<Tid>>)
    requires Inv(s) && t < |s.tasks|
    requires pc.Unpublished() == s.tasks[t].Unpublished() && pc.MustFree() == s.tasks[t].MustFree()
    requires forall a :: a in s.heap && To(a) != pc.MustFree() ==> (a in s.graces <==> a in graces)
    requires pc.MustFree().To? ==> (pc.MustFree().at in graces <==> pc.SyncWait?)
    requires HeldOk(s.heap, s.since[t], pc) && KnowsOk(s.heap, s.log, s.since[t], pc)
    ensures OwnersOk(s.heap, s.tasks[t := pc], graces)
    ensures TasksOk(s.heap, s.log, s.tasks[t := pc], s.since)
  {
    OwnersMove(s.heap, s.tasks, s.graces, t, pc, graces);
    TasksMove(s.heap, s.log, s.tasks, s.since, t, pc, s.since[t]);
    assert s.since == s.since[t := s.since[t]];
  }

  // What the invariant says of one task.
  lemma TaskFacts(s: State, t: Tid)
    requires Inv(s) && t < |s.tasks|
    ensures HeldOk(s.heap, s.since[t], s.tasks[t]) && KnowsOk(s.heap, s.log, s.since[t], s.tasks[t])
    ensures OwnsOk(s.heap, t, s.tasks[t])
    ensures s.tasks[t].MustFree().To? ==> (s.tasks[t].MustFree().at in s.graces <==> s.tasks[t].SyncWait?)
  {
    if s.tasks[t].MustFree().To? {
      assert OwnsOk(s.heap, t, s.tasks[t]);
      assert OwnedOk(s.heap, s.tasks, s.graces, s.tasks[t].MustFree().at);
    }
  }

  // A step that only moves one task keeps the invariant when the task keeps what it owns.
  lemma MoveKeepsInv(s: State, t: Tid, pc: Pc)
    requires Inv(s) && t < |s.tasks|
    requires pc.InSection() == s.tasks[t].InSection() && pc.HoldsLock() == s.tasks[t].HoldsLock()
    requires pc.Unpublished() == End == s.tasks[t].Unpublished() && pc.MustFree() == End == s.tasks[t].MustFree()
    requires HeldOk(s.heap, s.since[t], pc) && KnowsOk(s.heap, s.log, s.since[t], pc)
    ensures Inv(s.At(t, pc))
  {
    hide ListOk, HistoryOk, FrozenOk, GraceOk, SyncedOk, OwnersOk, LockOk, TasksOk;
    SectionsMove(s, t, pc);
    QuietMove(s, t, pc, s.graces);
    SyncedMove(s.heap, s.tasks, s.Sections(), s.since, t, pc);
    LockMove(s.lock, s.tasks, t, pc);
  }

  lemma LoadHeadKeepsInv(s: State, t: Tid, s': State)
    requires Inv(s) && LoadHead(s, t, s')
    ensures Inv(s')
  {
    var order := s.Order();
    if s.tasks[t].Enter? {
      var id := s.tasks[t].id;
      assert t in s.Sections();
      if NoneHas(s.heap, order, id) {
        assert s.log[|s.log| - 1] == order;
      } else {
        var j :| 0 <= j < |order| && order[j] in s.heap && s.heap[order[j]].book.id == id;
        OrderLeads(s.heap, order, 0, j);
        assert Ahead(s.heap, s.head, id);
      }
      MoveKeepsInv(s, t, Walk(s.tasks[t].op, id, s.head));
    } else {
      var DelEnter(id, async) := s.tasks[t];
      assert s.head == PtrAt(order, 0) && NoneBefore(s.heap, order, 0, id);
      MoveKeepsInv(s, t, DelWalk(id, async, s.head));
    }
  }

  // One turn of the loop moves the search along a path that still leads to the id.
  lemma VisitKnows(s: State, t: Tid)
    requires Inv(s) && t < |s.tasks| && s.tasks[t].Walk? && s.tasks[t].cur.To?
    ensures var Walk(op, id, cur) := s.tasks[t];
            && Later(s.heap, cur.at, s.since[t])
            && var pc := Visited(op, id, cur.at, s.heap[cur.at]);
            HeldOk(s.heap, s.since[t], pc) && KnowsOk(s.heap, s.log, s.since[t], pc)
  {
    var Walk(op, id, cur) := s.tasks[t];
    assert HeldOk(s.heap, s.since[t], s.tasks[t]) && SearchOk(s.heap, s.log, s.since[t], cur, id);
    var n := s.heap[cur.at];
    if n.book.id != id {
      if n.next.To? {
        NextIsLater(s, cur.at, s.since[t]);
      }
      if !AbsentSince(s.heap, s.log, s.since[t], id) {
        var path :| Leads(s.heap, cur.at, path, id);
        assert Leads(s.heap, path[1], path[1..], id);
      }
    }
  }

  lemma VisitKeepsInv(s: State, t: Tid, s': State)
    requires Inv(s) && Visit(s, t, s')
    ensures Inv(s')
  {
    var Walk(op, id, cur) := s.tasks[t];
    if cur == End {
      assert SearchOk(s.heap, s.log, s.since[t], cur, id);
      MoveKeepsInv(s, t, Leave(op, id, NotFound));
    } else {
      hide ListOk, HistoryOk, FrozenOk, GraceOk, SyncedOk, OwnersOk, LockOk, TasksOk;
      VisitKnows(s, t);
      MoveKeepsInv(s, t, Visited(op, id, cur.at, s.heap[cur.at]));
    }
  }

  // One turn of the loop of delete_book keeps the searched prefix free of the id.
  lemma DelVisitKnows(heap: Heap, order: seq<Addr>, cur: Addr, id: int)
    requires DelWalkOk(heap, order, To(cur), id) && Linking(heap, order)
    ensures cur in heap
    ensures heap[cur].book.id == id ==> DelHitOk(heap, order, cur, id)
    ensures heap[cur].book.id != id ==> DelWalkOk(heap, order, heap[cur].next, id)
  {
    var k: nat :| To(cur) == PtrAt(order, k) && NoneBefore(heap, order, k, id);
    assert order[k] == cur;
    if heap[cur].book.id != id {
      assert order[..k + 1] == order[..k] + [cur];
      assert heap[cur].next == PtrAt(order, k + 1) && NoneBefore(heap, order, k + 1, id);
    }
  }

  lemma DelVisitKeepsInv(s: State, t: Tid, s': State)
    requires Inv(s) && DelVisit(s, t, s')
    ensures Inv(s')
  {
    var DelWalk(id, async, cur) := s.tasks[t];
    assert Linking(s.heap, s.Order());
    assert DelWalkOk(s.heap, s.Order(), cur, id);
    hide ListOk, HistoryOk, FrozenOk, GraceOk, SyncedOk, OwnersOk, LockOk, TasksOk, Linking;
    if cur == End {
      MoveKeepsInv(s, t, DelMiss);
    } else {
      DelVisitKnows(s.heap, s.Order(), cur.at, id);
      if s.heap[cur.at].book.id == id {
        MoveKeepsInv(s, t, DelHit(id, async, cur.at));
      } else {
        MoveKeepsInv(s, t, DelWalk(id, async, s.heap[cur.at].next));
      }
    }
  }

  lemma DelRequestKeepsInv(s: State, t: Tid, id: int, async: bool, s': State)
    requires Inv(s) && DelRequest(s, t, id, async, s')
    ensures Inv(s')
  {
    MoveKeepsInv(s, t, DelWant(id, async));
  }

  lemma BeginReadKeepsInv(s: State, t: Tid, op: Op, id: int, s': State)
    requires Inv(s) && BeginRead(s, t, op, id, s')
    ensures Inv(s')
  {
    hide ListOk, HistoryOk, FrozenOk, GraceOk, SyncedOk, OwnersOk, LockOk, TasksOk;
    var pc := Enter(op, id);
    assert s'.Sections() == s.Sections() + {t};
    SectionOpens(s.heap, s.log, s.tasks, s.graces, s.Sections(), s.since, t);
    OwnersMove(s.heap, s.tasks, s.graces, t, pc, s.graces);
    TasksMove(s.heap, s.log, s.tasks, s.since, t, pc, |s.log| - 1);
    SyncedMove(s.heap, s.tasks, s'.Sections(), s'.since, t, pc);
    LockMove(s.lock, s.tasks, t, pc);
  }

  lemma EndReadKeepsGraces(s: State, t: Tid, s': State)
    requires Inv(s) && EndRead(s, t, s')
    ensures GraceOk(s'.heap, s'.graces, s'.Sections(), s'.since, |s'.log|)
    ensures SyncedOk(s'.heap, s'.tasks, s'.Sections(), s'.since)
  {
    assert s'.Sections() == s.Sections() - {t};
    SectionCloses(s.heap, s.tasks, s.graces, s.Sections(), s.since, |s.log|, t);
    SyncedMove(s.heap, s.tasks, s'.Sections(), s.since, t, s'.tasks[t]);
  }

  lemma EndReadKeepsInv(s: State, t: Tid, s': State)
    requires Inv(s) && EndRead(s, t, s')
    ensures Inv(s')
  {
    hide ListOk, HistoryOk, FrozenOk, GraceOk, SyncedOk, OwnersOk, LockOk, TasksOk;
    EndReadKeepsGraces(s, t, s');
    TaskFacts(s, t);
    QuietMove(s, t, s'.tasks[t], s'.graces);
    LockMove(s.lock, s.tasks, t, s'.tasks[t]);
  }

  // Taking or releasing the lock changes nothing else about a task.
  lemma LockMoveKeepsInv(s: State, t: Tid, pc: Pc, lock: Option<Tid>)
    requires Inv(s) && t < |s.tasks| && LockOk(lock, s.tasks[t := pc])
    requires pc.InSection() == s.tasks[t].InSection()
    requires pc.Unpublished() == s.tasks[t].Unpublished() && pc.MustFree() == s.tasks[t].MustFree()
    requires !pc.SyncWait? && !s.tasks[t].SyncWait? && !pc.SyncDone?
    requires HeldOk(s.heap, s.since[t], pc) && KnowsOk(s.heap, s.log, s.since[t], pc)
    ensures Inv(s.At(t, pc).(lock := lock))
  {
    hide ListOk, HistoryOk, FrozenOk, GraceOk, SyncedOk, OwnersOk, LockOk, TasksOk;
    SectionsMove(s, t, pc);
    TaskFacts(s, t);
    QuietMove(s, t, pc, s.graces);
    SyncedMove(s.heap, s.tasks, s.Sections(), s.since, t, pc);
  }

  lemma LockKeepsInv(s: State, t: Tid, s': State)
    requires Inv(s) && Lock(s, t, s')
    ensures Inv(s')
  {
    hide ListOk, HistoryOk, FrozenOk, GraceOk, SyncedOk, OwnersOk, LockOk, TasksOk;
    var pc := s'.tasks[t];
    LockTake(s.tasks, t, pc);
    TaskFacts(s, t);
    LockMoveKeepsInv(s, t, pc, Some(t));
  }

  lemma UnlockKeepsInv(s: State, t: Tid, s': State)
    requires Inv(s) && Unlock(s, t, s')
    ensures Inv(s')
  {
    hide ListOk, HistoryOk, FrozenOk, GraceOk, SyncedOk, OwnersOk, LockOk, TasksOk;
    var pc := s'.tasks[t];
    LockRelease(s.lock, s.tasks, t, pc);
    TaskFacts(s, t);
    LockMoveKeepsInv(s, t, pc, None);
  }

  lemma SyncBeginKeepsInv(s: State, t: Tid, s': State)
    requires Inv(s) && SyncBegin(s, t, s')
    ensures Inv(s')
  {
    hide ListOk, HistoryOk, FrozenOk, GraceOk, SyncedOk, OwnersOk, LockOk, TasksOk;
    var pc := SyncWait(s.tasks[t].oldB);
    SectionsMove(s, t, pc);
    TaskFacts(s, t);
    GraceStarts(s.heap, s.graces, s.Sections(), s.since, |s.log|, pc.oldB);
    QuietMove(s, t, pc, s'.graces);
    SyncedMove(s.heap, s.tasks, s.Sections(), s.since, t, pc);
    LockMove(s.lock, s.tasks, t, pc);
  }

  lemma SyncEndKeepsInv(s: State, t: Tid, s': State)
    requires Inv(s) && SyncEnd(s, t, s')
    ensures Inv(s')
  {
    hide ListOk, HistoryOk, FrozenOk, GraceOk, SyncedOk, OwnersOk, LockOk, TasksOk;
    var pc := SyncDone(s.tasks[t].oldB);
    SectionsMove(s, t, pc);
    TaskFacts(s, t);
    GraceEnds(s.heap, s.graces, s.Sections(), s.since, |s.log|, pc.oldB);
    QuietMove(s, t, pc, s'.graces);
    SyncedMove(s.heap, s.tasks, s.Sections(), s.since, t, pc);
    LockMove(s.lock, s.tasks, t, pc);
  }
}

/**
 The steps of the RCU book list that change the memory keep the invariant.
 */
module RcuSteps {
  import opened Common
  import opened RcuModel
  import opened RcuInvariant

  // ---------- what every step keeps of the memory ----------

  // Books never change, published nodes stay published, unlink times are fixed once they
  // are set, and a node unlinked by this step gets the time `now`.
  ghost predicate Kept(heap: Heap, heap': Heap, now: nat) {
    forall a :: a in heap ==>
      && a in heap' && heap'[a].book == heap[a].book
      && (!heap[a].status.Fresh? ==>
            && !heap'[a].status.Fresh?
            && (heap[a].status.Unlinked() ==> heap'[a].status.Unlinked() && heap'[a].status.gone == heap[a].status.gone)
            && (heap'[a].status.Unlinked() && !heap[a].status.Unlinked() ==> now <= heap'[a].status.gone))
  }

  // Links of published nodes lead to published nodes.
  ghost predicate PublishedLinks(heap: Heap) {
    forall a :: a in heap && !heap[a].status.Fresh? && heap[a].next.To? ==>
      heap[a].next.at in heap && !heap[heap[a].next.at].status.Fresh?
  }

  // The links of published nodes stay as they are.
  ghost predicate SameLinks(heap: Heap, heap': Heap) {
    forall a :: a in heap && !heap[a].status.Fresh? ==>
      a in heap' && heap'[a].next == heap[a].next && heap'[a].book == heap[a].book
  }

  lemma LinksArePublished(s: State)
    requires MemoryOk(s)
    ensures PublishedLinks(s.heap)
  {
    forall a | a in s.heap && !s.heap[a].status.Fresh? && s.heap[a].next.To?
      ensures s.heap[a].next.at in s.heap && !s.heap[s.heap[a].next.at].status.Fresh?
    {
      if s.heap[a].status.Linked? {
        NextIsLater(s, a, 0);
      } else {
        assert Later(s.heap, s.heap[a].next.at, s.heap[a].status.gone);
      }
    }
  }

  lemma {:induction false} LeadsKept(heap: Heap, heap': Heap, c: Addr, p: seq<Addr>, id: int)
    requires PublishedLinks(heap) && SameLinks(heap, heap')
    requires Leads(heap, c, p, id) && !heap[c].status.Fresh?
    ensures Leads(heap', c, p, id)
    decreases |p|
  {
    if |p| > 1 {
      LeadsKept(heap, heap', p[1], p[1..], id);
    }
  }

  lemma AheadKept(heap: Heap, heap': Heap, cur: Ptr, version: nat, id: int)
    requires PublishedLinks(heap) && SameLinks(heap, heap')
    requires Ahead(heap, cur, id) && Later(heap, cur.at, version)
    ensures Ahead(heap', cur, id)
  {
    var p :| Leads(heap, cur.at, p, id);
    LeadsKept(heap, heap', cur.at, p, id);
  }

  lemma LaterKept(heap: Heap, heap': Heap, now: nat, b: Addr, version: nat)
    requires Kept(heap, heap', now) && version < now && Later(heap, b, version)
    ensures Later(heap', b, version)
  {
  }

  lemma AbsentKept(heap: Heap, heap': Heap, log: Log, log': Log, version: nat, id: int)
    requires Kept(heap, heap', |log|) && HistoryOk(heap, log) && log <= log'
    requires AbsentSince(heap, log, version, id)
    ensures AbsentSince(heap', log', version, id)
  {
    var v :| version <= v < |log| && NoneHas(heap, log[v], id);
    assert Published(heap, log[v]);
    assert NoneHas(heap', log'[v], id);
  }

  // What a task knows survives a step, given that its search does.
  lemma KnowsKept(heap: Heap, heap': Heap, log: Log, log': Log, version: nat, pc: Pc)
    requires |log| > 0 && log <= log' && Kept(heap, heap', |log|) && HistoryOk(heap, log)
    requires KnowsOk(heap, log, version, pc)
    requires pc.DelWalk? || pc.DelHit? ==> log == log'
    requires pc.Walk? && Ahead(heap, pc.cur, pc.id) ==> SearchOk(heap', log', version, pc.cur, pc.id)
    ensures KnowsOk(heap', log', version, pc)
  {
    hide Leads, HistoryOk;
    match pc
    case Walk(_, id, _) =>
      if AbsentSince(heap, log, version, id) {
        AbsentKept(heap, heap', log, log', version, id);
      }
    case Leave(_, id, NotFound) =>
      AbsentKept(heap, heap', log, log', version, id);
    case DelWalk(id, _, cur) =>
      DelWalkKept(heap, heap', log, cur, id);
    case DelHit(id, _, oldB) =>
      DelHitKept(heap, heap', log, oldB, id);
    case _ =>
  }

  lemma NoneHasKept(heap: Heap, heap': Heap, log: Log, k: nat, id: int)
    requires |log| > 0 && Kept(heap, heap', |log|) && HistoryOk(heap, log)
    requires NoneBefore(heap, log[|log| - 1], k, id)
    ensures NoneBefore(heap', log[|log| - 1], k, id)
  {
    var order := log[|log| - 1];
    assert Published(heap, order);
    forall i | 0 <= i < k ensures heap'[order[..k][i]].book.id != id {
      assert order[..k][i] == order[i] && order[i] in order;
    }
  }

  lemma DelWalkKept(heap: Heap, heap': Heap, log: Log, cur: Ptr, id: int)
    requires |log| > 0 && Kept(heap, heap', |log|) && HistoryOk(heap, log)
    requires DelWalkOk(heap, log[|log| - 1], cur, id)
    ensures DelWalkOk(heap', log[|log| - 1], cur, id)
  {
    var k: nat :| cur == PtrAt(log[|log| - 1], k) && NoneBefore(heap, log[|log| - 1], k, id);
    NoneHasKept(heap, heap', log, k, id);
  }

  lemma DelHitKept(heap: Heap, heap': Heap, log: Log, oldB: Addr, id: int)
    requires |log| > 0 && Kept(heap, heap', |log|) && HistoryOk(heap, log)
    requires DelHitOk(heap, log[|log| - 1], oldB, id)
    ensures DelHitOk(heap', log[|log| - 1], oldB, id)
  {
    var order := log[|log| - 1];
    var k: nat :| k < |order| && order[k] == oldB && NoneBefore(heap, order, k, id);
    NoneHasKept(heap, heap', log, k, id);
  }

  // Every search of a state survives a step into the given memory.
  ghost predicate SearchesKept(s: State, heap': Heap, log': Log)
    requires s.Sized()
  {
    forall t :: 0 <= t < |s.tasks| && s.tasks[t].Walk? && Ahead(s.heap, s.tasks[t].cur, s.tasks[t].id) ==>
      SearchOk(heap', log', s.since[t], s.tasks[t].cur, s.tasks[t].id)
  }

  // A change of the memory by task t keeps what the others know.
  lemma TasksKept(s: State, heap': Heap, log': Log, t: Tid, pc: Pc)
    requires Inv(s) && t < |s.tasks| && s.log <= log' && Kept(s.heap, heap', |s.log|)
    requires SearchesKept(s, heap', log')
    requires s.log != log' ==> s.tasks[t].HoldsLock()
    requires HeldOk(heap', s.since[t], pc) && KnowsOk(heap', log', s.since[t], pc)
    ensures TasksOk(heap', log', s.tasks[t := pc], s.since)
  {
    forall u | 0 <= u < |s.tasks| && u != t
      ensures HeldOk(heap', s.since[u], s.tasks[u]) && KnowsOk(heap', log', s.since[u], s.tasks[u])
    {
      TaskFacts(s, u);
      if s.tasks[u].Held().To? {
        assert u in s.Sections();
        LaterKept(s.heap, heap', |s.log|, s.tasks[u].Held().at, s.since[u]);
      }
      KnowsKept(s.heap, heap', s.log, log', s.since[u], s.tasks[u]);
    }
  }

  // Searches survive when no link of a published node changes.
  lemma SearchesSameLinks(s: State, heap': Heap, log': Log)
    requires Inv(s) && SameLinks(s.heap, heap')
    ensures SearchesKept(s, heap', log')
  {
    LinksArePublished(s);
    forall t | 0 <= t < |s.tasks| && s.tasks[t].Walk? && Ahead(s.heap, s.tasks[t].cur, s.tasks[t].id)
      ensures SearchOk(heap', log', s.since[t], s.tasks[t].cur, s.tasks[t].id)
    {
      TaskFacts(s, t);
      AheadKept(s.heap, heap', s.tasks[t].cur, s.since[t], s.tasks[t].id);
    }
  }

  // ---------- what every step keeps of the history ----------

  lemma PublishedKept(heap: Heap, heap': Heap, now: nat, order: seq<Addr>)
    requires Kept(heap, heap', now) && Published(heap, order)
    ensures Published(heap', order)
  {
  }

  // A node unlinked by a step was in the last order before it.
  lemma HistoryKept(heap: Heap, heap': Heap, log: Log, log': Log)
    requires |log| > 0 && log <= log' && HistoryOk(heap, log) && Kept(heap, heap', |log|)
    requires forall v :: |log| <= v < |log'| ==> Published(heap', log'[v])
    requires forall a :: a in heap' && heap'[a].status.Unlinked() ==>
               && a in heap && !heap[a].status.Fresh?
               && (heap[a].status.Unlinked() ||
                   (heap'[a].status.gone == |log| < |log'| && a in log[|log| - 1]))
    ensures HistoryOk(heap', log')
  {
    forall v | 0 <= v < |log'| ensures Published(heap', log'[v]) {
      if v < |log| {
        PublishedKept(heap, heap', |log|, log[v]);
      }
    }
    forall a | a in heap' && heap'[a].status.Unlinked()
      ensures 0 < heap'[a].status.gone < |log'| && a in log'[heap'[a].status.gone - 1]
    {
    }
  }

  // Frozen links stay frozen, and the link of a newly unlinked node leads onto the list.
  lemma FrozenKept(heap: Heap, heap': Heap, now: nat)
    requires FrozenOk(heap) && Kept(heap, heap', now)
    requires forall a :: a in heap' && heap'[a].status.Unlinked() && heap'[a].next.To? ==>
               && a in heap && heap'[a].next == heap[a].next
               && if heap[a].status.Unlinked() then heap[a].status.gone < now
                  else heap'[a].status.gone == now && Later(heap', heap'[a].next.at, now)
    ensures FrozenOk(heap')
  {
    forall a | a in heap' && heap'[a].status.Unlinked() && heap'[a].next.To?
      ensures Later(heap', heap'[a].next.at, heap'[a].status.gone)
    {
      if heap[a].status.Unlinked() {
        LaterKept(heap, heap', now, heap[a].next.at, heap[a].status.gone);
      }
    }
  }

  // ---------- allocation ----------

  lemma AllocMemory(s: State, n: Addr, node: Node)
    requires MemoryOk(s) && n !in s.heap && node.status.Fresh?
    ensures var heap' := s.heap[n := node];
            && MemoryOk(s.(heap := heap')) && Kept(s.heap, heap', |s.log|) && SameLinks(s.heap, heap')
  {
    var heap' := s.heap[n := node];
    assert Kept(s.heap, heap', |s.log|);
    HistoryKept(s.heap, heap', s.log, s.log);
    FrozenKept(s.heap, heap', |s.log|);
  }

  lemma AllocOwners(heap: Heap, tasks: seq<Pc>, graces: map<Addr, set<Tid>>, t: Tid, n: Addr, node: Node, pc: Pc)
    requires OwnersOk(heap, tasks, graces) && t < |tasks| && n !in heap && node.status == Fresh(t)
    requires pc.Unpublished() == To(n) && tasks[t].Unpublished() == End
    requires pc.MustFree() == End == tasks[t].MustFree()
    ensures OwnersOk(heap[n := node], tasks[t := pc], graces)
  {
    var heap', tasks' := heap[n := node], tasks[t := pc];
    forall u | 0 <= u < |tasks| ensures OwnsOk(heap', u, tasks'[u]) {
      assert OwnsOk(heap, u, tasks[u]);
    }
    forall a | a in heap' ensures OwnedOk(heap', tasks', graces, a) {
      assert a in heap ==> OwnedOk(heap, tasks, graces, a);
    }
  }

  lemma AllocGraces(s: State, t: Tid, n: Addr, node: Node, pc: Pc)
    requires Inv(s) && t < |s.tasks| && n !in s.heap && node.status.Fresh? && !pc.SyncDone?
    ensures GraceOk(s.heap[n := node], s.graces, s.Sections(), s.since, |s.log|)
    ensures SyncedOk(s.heap[n := node], s.tasks[t := pc], s.Sections(), s.since)
  {
    hide ListOk, HistoryOk, FrozenOk, OwnersOk, LockOk, TasksOk;
    var open := s.Sections();
    forall a | a in s.heap && Elapsed(s.heap, open, s.since, a)
      ensures Elapsed(s.heap[n := node], open, s.since, a)
    {
    }
  }

  lemma AllocKeepsInv(s: State, t: Tid, n: Addr, node: Node, pc: Pc)
    requires Inv(s) && t < |s.tasks| && n !in s.heap && node.status == Fresh(t)
    requires pc.Unpublished() == To(n) && s.tasks[t].Unpublished() == End
    requires pc.MustFree() == End == s.tasks[t].MustFree()
    requires pc.InSection() == s.tasks[t].InSection() && pc.HoldsLock() == s.tasks[t].HoldsLock()
    requires HeldOk(s.heap[n := node], s.since[t], pc) && KnowsOk(s.heap[n := node], s.log, s.since[t], pc)
    ensures Inv(s.At(t, pc).(heap := s.heap[n := node]))
  {
    hide ListOk, HistoryOk, FrozenOk, GraceOk, SyncedOk, OwnersOk, LockOk, TasksOk;
    SectionsMove(s, t, pc);
    AllocMemory(s, n, node);
    AllocOwners(s.heap, s.tasks, s.graces, t, n, node, pc);
    AllocGraces(s, t, n, node, pc);
    SearchesSameLinks(s, s.heap[n := node], s.log);
    TasksKept(s, s.heap[n := node], s.log, t, pc);
    LockMove(s.lock, s.tasks, t, pc);
  }

  lemma AllocCopyKeepsInv(s: State, t: Tid, mem: Option<Addr>, s': State)
    requires Inv(s) && AllocCopy(s, t, mem, s')
    ensures Inv(s')
  {
    hide ListOk, HistoryOk, FrozenOk, GraceOk, SyncedOk, OwnersOk, LockOk, TasksOk;
    TaskFacts(s, t);
    var Hit(op, id, oldB) := s.tasks[t];
    match mem
    case None => MoveKeepsInv(s, t, Leave(op, id, NoMemory));
    case Some(n) => AllocKeepsInv(s, t, n, s'.heap[n], Copied(op, id, oldB, n));
  }

  lemma AddAllocKeepsInv(s: State, t: Tid, book: Book, n: Addr, s': State)
    requires Inv(s) && AddAlloc(s, t, book, n, s')
    ensures Inv(s')
  {
    hide ListOk, HistoryOk, FrozenOk, GraceOk, SyncedOk, OwnersOk, LockOk, TasksOk;
    AllocKeepsInv(s, t, n, Node(book, End, Fresh(t)), AddReady(n));
  }

  // ---------- list changes: the parts that do not depend on the links ----------

  // Between heap and heap', at most the node n is published and at most the node oldB is
  // unlinked, by task t at time now.
  ghost predicate Relinked(heap: Heap, heap': Heap, now: nat, t: Tid, n: Ptr, oldB: Ptr) {
    && n != oldB
    && (n.To? ==> n.at in heap && heap[n.at].status == Fresh(t) && n.at in heap' && heap'[n.at].status == Linked)
    && (oldB.To? ==>
          && oldB.at in heap && heap[oldB.at].status.Linked?
          && oldB.at in heap' && heap'[oldB.at].status == Retired(now, ByTask(t)))
    && heap'.Keys == heap.Keys
    && (forall a :: a in heap ==> a in heap' && heap'[a].book == heap[a].book)
    && (forall a :: a in heap && To(a) != n && To(a) != oldB ==> heap'[a].status == heap[a].status)
  }

  lemma RelinkedKept(heap: Heap, heap': Heap, now: nat, t: Tid, n: Ptr, oldB: Ptr)
    requires Relinked(heap, heap', now, t, n, oldB)
    ensures Kept(heap, heap', now)
  {
  }

  lemma RelinkGraces(heap: Heap, heap': Heap, graces: map<Addr, set<Tid>>, open: set<Tid>, since: seq<nat>, now: nat,
                     t: Tid, n: Ptr, oldB: Ptr)
    requires Relinked(heap, heap', now, t, n, oldB) && GraceOk(heap, graces, open, since, now)
    ensures GraceOk(heap', graces, open, since, now + 1)
  {
    forall a | a in heap' && heap'[a].status.Freed? ensures Elapsed(heap', open, since, a) {
      assert heap[a].status.Freed? && Elapsed(heap, open, since, a);
    }
  }

  lemma RelinkSynced(heap: Heap, heap': Heap, tasks: seq<Pc>, open: set<Tid>, since: seq<nat>, now: nat,
                     t: Tid, n: Ptr, oldB: Ptr, pc: Pc)
    requires Relinked(heap, heap', now, t, n, oldB) && SyncedOk(heap, tasks, open, since)
    requires t < |tasks| && !pc.SyncDone?
    ensures SyncedOk(heap', tasks[t := pc], open, since)
  {
    forall u | 0 <= u < |tasks| && u != t && tasks[u].SyncDone?
      ensures Elapsed(heap', open, since, tasks[u].oldB)
    {
      assert Elapsed(heap, open, since, tasks[u].oldB);
    }
  }

  lemma RelinkOwners(heap: Heap, heap': Heap, tasks: seq<Pc>, graces: map<Addr, set<Tid>>, now: nat,
                     t: Tid, n: Ptr, oldB: Ptr, pc: Pc)
    requires Relinked(heap, heap', now, t, n, oldB) && OwnersOk(heap, tasks, graces) && t < |tasks|
    requires tasks[t].Unpublished() == n && tasks[t].MustFree() == End
    requires pc.Unpublished() == End && pc.MustFree() == oldB && !pc.SyncWait?
    requires oldB.To? ==> oldB.at !in graces
    ensures OwnersOk(heap', tasks[t := pc], graces)
  {
    var tasks' := tasks[t := pc];
    forall u | 0 <= u < |tasks| ensures OwnsOk(heap', u, tasks'[u]) {
      assert OwnsOk(heap, u, tasks[u]);
    }
    forall a | a in heap' ensures OwnedOk(heap', tasks', graces, a) {
      assert OwnedOk(heap, tasks, graces, a);
    }
  }

  // A list change moves the lock holder t to pc and otherwise changes only the memory.
  ghost predicate RelinkFrame(s: State, s': State, t: Tid, n: Ptr, oldB: Ptr, pc: Pc)
    requires s.Sized() && t < |s.tasks|
  {
    && s.tasks[t].HoldsLock() && pc.HoldsLock() && pc.InSection() == s.tasks[t].InSection()
    && s'.tasks == s.tasks[t := pc] && s'.since == s.since && s'.graces == s.graces && s'.lock == s.lock
    && |s'.log| == |s.log| + 1 && s.log <= s'.log
    && s.tasks[t].Unpublished() == n && s.tasks[t].MustFree() == End
    && pc.Unpublished() == End && pc.MustFree() == oldB && !pc.SyncWait? && !pc.SyncDone?
    && (oldB.To? ==> oldB.at !in s.graces)
    && HeldOk(s'.heap, s.since[t], pc) && KnowsOk(s'.heap, s'.log, s.since[t], pc)
  }

  // A list change keeps the invariant once its effect on the links is known.
  lemma RelinkKeepsInv(s: State, s': State, t: Tid, n: Ptr, oldB: Ptr, pc: Pc)
    requires Inv(s) && t < |s.tasks| && RelinkFrame(s, s', t, n, oldB, pc)
    requires Relinked(s.heap, s'.heap, |s.log|, t, n, oldB) && MemoryOk(s')
    requires SearchesKept(s, s'.heap, s'.log)
    ensures Inv(s')
  {
    hide ListOk, HistoryOk, FrozenOk, GraceOk, SyncedOk, OwnersOk, LockOk, TasksOk, Relinked, SearchesKept;
    SectionsMove(s, t, pc);
    assert s'.Sections() == s.At(t, pc).Sections();
    RelinkedKept(s.heap, s'.heap, |s.log|, t, n, oldB);
    RelinkGraces(s.heap, s'.heap, s.graces, s.Sections(), s.since, |s.log|, t, n, oldB);
    RelinkSynced(s.heap, s'.heap, s.tasks, s.Sections(), s.since, |s.log|, t, n, oldB, pc);
    RelinkOwners(s.heap, s'.heap, s.tasks, s.graces, |s.log|, t, n, oldB, pc);
    LockMove(s.lock, s.tasks, t, pc);
    TasksKept(s, s'.heap, s'.log, t, pc);
  }

  // Nodes on the list are Linked and have no grace period.
  lemma OnList(s: State, k: nat)
    requires Inv(s) && k < |s.Order()|
    ensures s.Order()[k] in s.heap && s.heap[s.Order()[k]].status.Linked? && s.Order()[k] !in s.graces
  {
    hide HistoryOk, FrozenOk, SyncedOk, OwnersOk, LockOk, TasksOk;
  }

  lemma SinceIsPast(s: State, t: Tid)
    requires Inv(s) && s.Open(t)
    ensures s.since[t] < |s.log|
  {
    hide ListOk, HistoryOk, FrozenOk, SyncedOk, OwnersOk, LockOk, TasksOk;
    assert t in s.Sections();
  }

  // What follows for the history, given the new list.
  lemma RelinkHistory(heap: Heap, heap': Heap, log: Log, order': seq<Addr>, t: Tid, n: Ptr, oldB: Ptr)
    requires |log| > 0 && HistoryOk(heap, log) && Relinked(heap, heap', |log|, t, n, oldB)
    requires oldB.To? ==> oldB.at in log[|log| - 1]
    requires Linking(heap', order')
    ensures HistoryOk(heap', log + [order'])
  {
    RelinkedKept(heap, heap', |log|, t, n, oldB);
    assert Published(heap', order');
    HistoryKept(heap, heap', log, log + [order']);
  }

  // ---------- list_add_rcu ----------

  lemma InsertRelinks(heap: Heap, head: Ptr, n: Addr, now: nat, t: Tid)
    requires n in heap && heap[n].status == Fresh(t)
    ensures Relinked(heap, InsertHeap(heap, head, n), now, t, To(n), End)
    ensures SameLinks(heap, InsertHeap(heap, head, n))
  {
  }

  lemma InsertList(heap: Heap, head: Ptr, order: seq<Addr>, n: Addr)
    requires ListOk(heap, head, order) && n in heap && heap[n].status.Fresh?
    ensures ListOk(InsertHeap(heap, head, n), To(n), [n] + order)
  {
    var heap', order' := InsertHeap(heap, head, n), [n] + order;
    assert n !in order;
    forall i | 0 <= i < |order'|
      ensures order'[i] in heap' && heap'[order'[i]].status.Linked? && heap'[order'[i]].next == PtrAt(order', i + 1)
    {
      if i > 0 {
        assert order[i - 1] in heap;
      }
    }
  }

  lemma InsertFrozen(heap: Heap, log: Log, head: Ptr, n: Addr, t: Tid)
    requires FrozenOk(heap) && HistoryOk(heap, log) && n in heap && heap[n].status == Fresh(t)
    ensures FrozenOk(InsertHeap(heap, head, n))
  {
    InsertRelinks(heap, head, n, |log|, t);
    RelinkedKept(heap, InsertHeap(heap, head, n), |log|, t, To(n), End);
    FrozenKept(heap, InsertHeap(heap, head, n), |log|);
  }

  lemma InsertMemory(s: State, t: Tid, s': State)
    requires MemoryOk(s) && Insert(s, t, s') && s.heap[s.tasks[t].newB].status == Fresh(t)
    ensures MemoryOk(s') && SameLinks(s.heap, s'.heap)
    ensures Relinked(s.heap, s'.heap, |s.log|, t, To(s.tasks[t].newB), End)
  {
    var n := s.tasks[t].newB;
    InsertList(s.heap, s.head, s.Order(), n);
    assert Linking(s'.heap, s'.Order());
    hide ListOk, HistoryOk, FrozenOk, Relinked, SameLinks, Linking;
    InsertRelinks(s.heap, s.head, n, |s.log|, t);
    RelinkHistory(s.heap, s'.heap, s.log, s'.Order(), t, To(n), End);
    InsertFrozen(s.heap, s.log, s.head, n, t);
  }

  lemma InsertKeepsInv(s: State, t: Tid, s': State)
    requires Inv(s) && Insert(s, t, s')
    ensures Inv(s')
  {
    hide ListOk, HistoryOk, FrozenOk, GraceOk, SyncedOk, OwnersOk, LockOk, TasksOk;
    TaskFacts(s, t);
    InsertMemory(s, t, s');
    SearchesSameLinks(s, s'.heap, s'.log);
    RelinkKeepsInv(s, s', t, To(s.tasks[t].newB), End, Added);
  }

  // ---------- list_replace_rcu ----------

  // Among the published nodes, only the link at position k of the list changes, to p.
  ghost predicate Spliced(heap: Heap, heap': Heap, order: seq<Addr>, k: nat, p: Ptr)
    requires k < |order|
  {
    forall a :: a in heap && !heap[a].status.Fresh? ==>
      && a in heap' && heap'[a].book == heap[a].book
      && heap'[a].next == if k > 0 && a == order[k - 1] then p else heap[a].next
  }

  lemma ReplaceHeapRelinks(heap: Heap, order: seq<Addr>, k: nat, n: Addr, now: nat, t: Tid)
    requires k < |order| && Distinct(order) && Linking(heap, order) && n in heap && heap[n].status == Fresh(t)
    ensures var heap' := ReplaceHeap(heap, order, k, n, Retired(now, ByTask(t)));
            && Relinked(heap, heap', now, t, To(n), To(order[k]))
            && Spliced(heap, heap', order, k, To(n))
            && heap'[n].next == heap[order[k]].next && heap'[n].book == heap[n].book
  {
  }

  lemma ReplaceRelinks(s: State, t: Tid, k: nat, s': State)
    requires MemoryOk(s) && Replace(s, t, k, s') && s.heap[s.tasks[t].newB].status == Fresh(t)
    ensures Relinked(s.heap, s'.heap, |s.log|, t, To(s.tasks[t].newB), To(s.tasks[t].oldB))
    ensures Spliced(s.heap, s'.heap, s.Order(), k, To(s.tasks[t].newB))
    ensures s'.heap[s.tasks[t].newB].next == s.heap[s.tasks[t].oldB].next
    ensures s'.heap[s.tasks[t].newB].book == s.heap[s.tasks[t].newB].book
  {
    assert Linking(s.heap, s.Order()) && Distinct(s.Order());
    hide ListOk, HistoryOk, FrozenOk, Linking, Distinct, Relinked, Spliced, ReplaceHeap;
    ReplaceHeapRelinks(s.heap, s.Order(), k, s.tasks[t].newB, |s.log|, t);
  }

  lemma ReplaceLinking(heap: Heap, heap': Heap, order: seq<Addr>, k: nat, now: nat, t: Tid, n: Addr)
    requires Distinct(order) && Linking(heap, order) && k < |order| && n !in order
    requires Relinked(heap, heap', now, t, To(n), To(order[k])) && Spliced(heap, heap', order, k, To(n))
    requires heap'[n].next == heap[order[k]].next
    ensures Distinct(order[k := n]) && Linking(heap', order[k := n])
  {
    var order' := order[k := n];
    forall i | 0 <= i < |order'|
      ensures order'[i] in heap' && heap'[order'[i]].status.Linked? && heap'[order'[i]].next == PtrAt(order', i + 1)
    {
      assert heap[order[i]].next == PtrAt(order, i + 1);
    }
  }

  lemma ReplaceList(heap: Heap, heap': Heap, head: Ptr, order: seq<Addr>, k: nat, now: nat, t: Tid, n: Addr)
    requires ListOk(heap, head, order) && k < |order|
    requires Relinked(heap, heap', now, t, To(n), To(order[k])) && Spliced(heap, heap', order, k, To(n))
    requires heap'[n].next == heap[order[k]].next
    ensures ListOk(heap', HeadAfter(head, k, To(n)), order[k := n])
  {
    var order' := order[k := n];
    assert n !in order;
    ReplaceLinking(heap, heap', order, k, now, t, n);
    forall a | a in heap' && heap'[a].status.Linked? ensures a in order' {
      if a != n {
        var i :| 0 <= i < |order| && order[i] == a;
        assert order'[i] == a;
      } else {
        assert order'[k] == n;
      }
    }
  }

  lemma RelinkFrozen(heap: Heap, heap': Heap, log: Log, k: nat, t: Tid, n: Ptr, p: Ptr)
    requires |log| > 0 && k < |log[|log| - 1]| && FrozenOk(heap) && HistoryOk(heap, log)
    requires Linking(heap, log[|log| - 1]) && Distinct(log[|log| - 1])
    requires Relinked(heap, heap', |log|, t, n, To(log[|log| - 1][k]))
    requires Spliced(heap, heap', log[|log| - 1], k, p)
    ensures FrozenOk(heap')
  {
    var order := log[|log| - 1];
    RelinkedKept(heap, heap', |log|, t, n, To(order[k]));
    assert heap[order[k]].next == PtrAt(order, k + 1);
    FrozenKept(heap, heap', |log|);
  }

  lemma ReplaceMemory(s: State, t: Tid, k: nat, s': State)
    requires MemoryOk(s) && Replace(s, t, k, s') && s.heap[s.tasks[t].newB].status == Fresh(t)
    ensures MemoryOk(s')
    ensures Relinked(s.heap, s'.heap, |s.log|, t, To(s.tasks[t].newB), To(s.tasks[t].oldB))
    ensures Spliced(s.heap, s'.heap, s.Order(), k, To(s.tasks[t].newB))
    ensures s'.heap[s.tasks[t].newB].next == s.heap[s.tasks[t].oldB].next
  {
    var UpdLocked(_, _, oldB, n) := s.tasks[t];
    ReplaceRelinks(s, t, k, s');
    assert Linking(s.heap, s.Order()) && Distinct(s.Order());
    ReplaceList(s.heap, s'.heap, s.head, s.Order(), k, |s.log|, t, n);
    assert Linking(s'.heap, s'.Order());
    hide ListOk, HistoryOk, FrozenOk, Relinked, Spliced, Linking;
    RelinkHistory(s.heap, s'.heap, s.log, s'.Order(), t, To(n), To(oldB));
    RelinkFrozen(s.heap, s'.heap, s.log, k, t, To(n), To(n));
  }

  // A chain of links to an id survives the replacement of one of its nodes.
  lemma {:induction false} ReplaceLeads(heap: Heap, heap': Heap, order: seq<Addr>, k: nat, n: Addr, c: Addr, p: seq<Addr>, id: int)
      returns (p': seq<Addr>)
    requires PublishedLinks(heap) && Linking(heap, order) && Distinct(order)
    requires k < |order| && Spliced(heap, heap', order, k, To(n))
    requires n in heap' && heap'[n].next == heap[order[k]].next && heap'[n].book.id == heap[order[k]].book.id
    requires Leads(heap, c, p, id) && !heap[c].status.Fresh?
    ensures Leads(heap', c, p', id)
    decreases |p|
  {
    if |p| == 1 {
      p' := [c];
    } else {
      var q := ReplaceLeads(heap, heap', order, k, n, p[1], p[1..], id);
      if k > 0 && c == order[k - 1] {
        assert p[1] == order[k];
        var r := [n] + q[1..];
        assert r[1..] == q[1..];
        assert Leads(heap', n, r, id);
        p' := [c] + r;
        assert p'[1..] == r;
      } else {
        p' := [c] + q;
        assert p'[1..] == q;
      }
    }
  }

  lemma ReplaceSearches(s: State, t: Tid, k: nat, s': State)
    requires Inv(s) && Replace(s, t, k, s')
    ensures SearchesKept(s, s'.heap, s'.log)
  {
    LinksArePublished(s);
    TaskFacts(s, t);
    assert Linking(s.heap, s.Order()) && Distinct(s.Order());
    ReplaceRelinks(s, t, k, s');
    hide ListOk, HistoryOk, FrozenOk, GraceOk, SyncedOk, OwnersOk, LockOk, TasksOk, Linking, Distinct, PublishedLinks;
    forall u | 0 <= u < |s.tasks| && s.tasks[u].Walk? && Ahead(s.heap, s.tasks[u].cur, s.tasks[u].id)
      ensures SearchOk(s'.heap, s'.log, s.since[u], s.tasks[u].cur, s.tasks[u].id)
    {
      TaskFacts(s, u);
      var Walk(_, id, cur) := s.tasks[u];
      var p :| Leads(s.heap, cur.at, p, id);
      var p' := ReplaceLeads(s.heap, s'.heap, s.Order(), k, s.tasks[t].newB, cur.at, p, id);
    }
  }

  lemma ReplaceFrame(s: State, t: Tid, k: nat, s': State)
    requires Inv(s) && Replace(s, t, k, s')
    ensures s.heap[s.tasks[t].newB].status == Fresh(t)
    ensures var UpdLocked(op, id, oldB, n) := s.tasks[t];
            RelinkFrame(s, s', t, To(n), To(oldB), Replaced(op, id, oldB))
  {
    hide ListOk, HistoryOk, FrozenOk, GraceOk, SyncedOk, OwnersOk, LockOk, TasksOk;
    OnList(s, k);
    SinceIsPast(s, t);
    TaskFacts(s, t);
  }

  lemma ReplaceKeepsInv(s: State, t: Tid, k: nat, s': State)
    requires Inv(s) && Replace(s, t, k, s')
    ensures Inv(s')
  {
    hide ListOk, HistoryOk, FrozenOk, GraceOk, SyncedOk, OwnersOk, LockOk, TasksOk;
    hide ReplaceHeap, Relinked, Spliced, SearchesKept, RelinkFrame;
    var UpdLocked(op, id, oldB, n) := s.tasks[t];
    ReplaceFrame(s, t, k, s');
    ReplaceMemory(s, t, k, s');
    ReplaceSearches(s, t, k, s');
    RelinkKeepsInv(s, s', t, To(n), To(oldB), Replaced(op, id, oldB));
  }

  // ---------- list_del_rcu ----------

  lemma UnlinkHeapRelinks(heap: Heap, order: seq<Addr>, k: nat, now: nat, t: Tid)
    requires k < |order| && Distinct(order) && Linking(heap, order)
    ensures var heap' := UnlinkHeap(heap, order, k, Retired(now, ByTask(t)));
            && Relinked(heap, heap', now, t, End, To(order[k]))
            && Spliced(heap, heap', order, k, heap[order[k]].next)
  {
  }

  lemma UnlinkRelinks(s: State, t: Tid, k: nat, s': State)
    requires MemoryOk(s) && Unlink(s, t, k, s')
    ensures Relinked(s.heap, s'.heap, |s.log|, t, End, To(s.tasks[t].oldB))
    ensures Spliced(s.heap, s'.heap, s.Order(), k, s.heap[s.tasks[t].oldB].next)
  {
    assert Linking(s.heap, s.Order()) && Distinct(s.Order());
    hide ListOk, HistoryOk, FrozenOk, Linking, Distinct, Relinked, Spliced, UnlinkHeap;
    UnlinkHeapRelinks(s.heap, s.Order(), k, |s.log|, t);
  }

  lemma WithoutAt(order: seq<Addr>, k: nat)
    requires k < |order|
    ensures |Without(order, k)| == |order| - 1
    ensures forall i :: 0 <= i < |order| - 1 ==> Without(order, k)[i] == order[if i < k then i else i + 1]
  {
  }

  lemma WithoutDistinct(order: seq<Addr>, k: nat)
    requires k < |order| && Distinct(order)
    ensures Distinct(Without(order, k))
  {
  }

  lemma UnlinkLinkAt(heap: Heap, heap': Heap, order: seq<Addr>, k: nat, j: nat)
    requires Distinct(order) && Linking(heap, order) && k < |order| && j < |order| && j != k
    requires Spliced(heap, heap', order, k, heap[order[k]].next)
    ensures order[j] in heap' && heap'[order[j]].next == if j == k - 1 then PtrAt(order, k + 1) else PtrAt(order, j + 1)
  {
    assert heap[order[j]].next == PtrAt(order, j + 1) && heap[order[k]].next == PtrAt(order, k + 1);
  }

  // Where the link after position i of the shorter list leads.
  lemma WithoutNext(order: seq<Addr>, k: nat, i: nat)
    requires k < |order| && i < |order| - 1
    ensures var j := if i < k then i else i + 1;
            && Without(order, k)[i] == order[j]
            && PtrAt(Without(order, k), i + 1) == if j == k - 1 then PtrAt(order, k + 1) else PtrAt(order, j + 1)
  {
  }

  lemma UnlinkLinking(heap: Heap, heap': Heap, order: seq<Addr>, k: nat, now: nat, t: Tid)
    requires Distinct(order) && Linking(heap, order) && k < |order|
    requires Relinked(heap, heap', now, t, End, To(order[k])) && Spliced(heap, heap', order, k, heap[order[k]].next)
    ensures Linking(heap', Without(order, k))
  {
    var order' := Without(order, k);
    forall i | 0 <= i < |order'|
      ensures order'[i] in heap' && heap'[order'[i]].status.Linked? && heap'[order'[i]].next == PtrAt(order', i + 1)
    {
      hide Without, Spliced, PtrAt;
      var j := if i < k then i else i + 1;
      WithoutNext(order, k, i);
      assert order[j] in heap && order[j] != order[k];
      UnlinkLinkAt(heap, heap', order, k, j);
    }
  }

  lemma WithoutKeeps(order: seq<Addr>, k: nat, a: Addr)
    requires k < |order| && a in order && a != order[k]
    ensures a in Without(order, k)
  {
    WithoutAt(order, k);
    var i :| 0 <= i < |order| && order[i] == a;
    assert Without(order, k)[if i < k then i else i - 1] == a;
  }

  lemma UnlinkList(heap: Heap, heap': Heap, head: Ptr, order: seq<Addr>, k: nat, now: nat, t: Tid)
    requires ListOk(heap, head, order) && k < |order|
    requires Relinked(heap, heap', now, t, End, To(order[k])) && Spliced(heap, heap', order, k, heap[order[k]].next)
    ensures ListOk(heap', HeadAfter(head, k, heap[order[k]].next), Without(order, k))
  {
    assert heap[order[k]].next == PtrAt(order, k + 1);
    forall a | a in heap' && heap'[a].status.Linked? ensures a in Without(order, k) {
      assert a in heap && heap[a].status.Linked? && a != order[k];
      WithoutKeeps(order, k, a);
    }
    hide Linking, Distinct, Relinked, Spliced;
    UnlinkLinking(heap, heap', order, k, now, t);
    WithoutDistinct(order, k);
    WithoutAt(order, k);
  }

  lemma UnlinkMemory(s: State, t: Tid, k: nat, s': State)
    requires MemoryOk(s) && Unlink(s, t, k, s')
    ensures MemoryOk(s')
    ensures Relinked(s.heap, s'.heap, |s.log|, t, End, To(s.tasks[t].oldB))
    ensures Spliced(s.heap, s'.heap, s.Order(), k, s.heap[s.tasks[t].oldB].next)
  {
    var oldB := s.tasks[t].oldB;
    UnlinkRelinks(s, t, k, s');
    assert Linking(s.heap, s.Order()) && Distinct(s.Order());
    UnlinkList(s.heap, s'.heap, s.head, s.Order(), k, |s.log|, t);
    assert Linking(s'.heap, s'.Order());
    hide ListOk, HistoryOk, FrozenOk, Relinked, Spliced, Linking;
    RelinkHistory(s.heap, s'.heap, s.log, s'.Order(), t, End, To(oldB));
    RelinkFrozen(s.heap, s'.heap, s.log, k, t, End, s.heap[oldB].next);
  }

  // Past a deleted book with the id, the list leads on to a later book with the id.
  lemma UnlinkSkip(heap': Heap, order: seq<Addr>, k: nat, j: nat)
    requires k < j < |order| && Linking(heap', Without(order, k)) && order[j] in heap'
    ensures j <= |Without(order, k)|
    ensures Leads(heap', order[k + 1], Without(order, k)[k..j], heap'[order[j]].book.id)
  {
    WithoutAt(order, k);
    OrderLeads(heap', Without(order, k), k, j - 1);
  }

  // A chain of links to an id survives the deletion of a book, as long as a later book on
  // the list has the id that the chain led to.
  lemma {:induction false} UnlinkLeads(heap: Heap, heap': Heap, order: seq<Addr>, k: nat, j: nat, c: Addr, p: seq<Addr>, id: int)
      returns (p': seq<Addr>)
    requires PublishedLinks(heap) && k < |order| && Linking(heap, order)
    requires Spliced(heap, heap', order, k, heap[order[k]].next) && Linking(heap', Without(order, k))
    requires heap[order[k]].book.id == id ==> k < j < |order| && heap[order[j]].book.id == id
    requires Leads(heap, c, p, id) && !heap[c].status.Fresh?
    ensures Leads(heap', c, p', id)
    decreases |p|
  {
    hide Without;
    if |p| == 1 {
      p' := [c];
    } else {
      var q := UnlinkLeads(heap, heap', order, k, j, p[1], p[1..], id);
      var r := q;
      if k > 0 && c == order[k - 1] {
        assert p[1] == order[k];
        r := q[1..];
        if |q| == 1 {
          UnlinkSkip(heap', order, k, j);
          r := Without(order, k)[k..j];
        }
      }
      p' := [c] + r;
      assert p'[1..] == r;
    }
  }

  // A search goes on to meet the id after the first book with some id is deleted, or the
  // deletion itself is an instant at which the id is absent.
  lemma UnlinkSearch(heap: Heap, heap': Heap, log: Log, k: nat, del: int, cur: Ptr, version: nat, id: int)
    requires |log| > 0 && version < |log| && PublishedLinks(heap)
    requires k < |log[|log| - 1]| && Linking(heap, log[|log| - 1])
    requires Spliced(heap, heap', log[|log| - 1], k, heap[log[|log| - 1][k]].next)
    requires Linking(heap', Without(log[|log| - 1], k))
    requires NoneBefore(heap, log[|log| - 1], k, del) && heap[log[|log| - 1][k]].book.id == del
    requires Ahead(heap, cur, id) && Later(heap, cur.at, version)
    ensures SearchOk(heap', log + [Without(log[|log| - 1], k)], version, cur, id)
  {
    var order := log[|log| - 1];
    var order' := Without(order, k);
    WithoutAt(order, k);
    hide Without;
    if NoneHas(heap', order', id) {
      assert (log + [order'])[|log|] == order';
    } else {
      var i :| 0 <= i < |order'| && order'[i] in heap' && heap'[order'[i]].book.id == id;
      var j := if i < k then i else i + 1;
      assert order[j] == order'[i] && heap[order[j]].book.id == id;
      assert j < k ==> order[..k][j] == order[j];
      var p :| Leads(heap, cur.at, p, id);
      hide NoneHas, NoneBefore, Linking;
      var p' := UnlinkLeads(heap, heap', order, k, j, cur.at, p, id);
    }
  }

  lemma UnlinkSearches(s: State, t: Tid, k: nat, s': State)
    requires Inv(s) && MemoryOk(s') && Unlink(s, t, k, s')
    ensures SearchesKept(s, s'.heap, s'.log)
  {
    assert Linking(s.heap, s.Order()) && Distinct(s.Order()) && Linking(s'.heap, s'.Order());
    hide ListOk, HistoryOk, FrozenOk, GraceOk, SyncedOk, OwnersOk, LockOk, TasksOk;
    hide Linking, PublishedLinks, Spliced, Relinked, Leads, UnlinkHeap, Without;
    LinksArePublished(s);
    TaskFacts(s, t);
    assert NoneBefore(s.heap, s.Order(), k, s.tasks[t].id);
    UnlinkRelinks(s, t, k, s');
    forall u | 0 <= u < |s.tasks| && s.tasks[u].Walk? && Ahead(s.heap, s.tasks[u].cur, s.tasks[u].id)
      ensures SearchOk(s'.heap, s'.log, s.since[u], s.tasks[u].cur, s.tasks[u].id)
    {
      SinceIsPast(s, u);
      TaskFacts(s, u);
      UnlinkSearch(s.heap, s'.heap, s.log, k, s.tasks[t].id, s.tasks[u].cur, s.since[u], s.tasks[u].id);
    }
  }

  lemma UnlinkFrame(s: State, t: Tid, k: nat, s': State)
    requires Inv(s) && Unlink(s, t, k, s')
    ensures RelinkFrame(s, s', t, End, To(s.tasks[t].oldB), DelDone(s.tasks[t].async, s.tasks[t].oldB))
  {
    hide ListOk, HistoryOk, FrozenOk, GraceOk, SyncedOk, OwnersOk, LockOk, TasksOk;
    OnList(s, k);
  }

  lemma UnlinkKeepsInv(s: State, t: Tid, k: nat, s': State)
    requires Inv(s) && Unlink(s, t, k, s')
    ensures Inv(s')
  {
    hide ListOk, HistoryOk, FrozenOk, GraceOk, SyncedOk, OwnersOk, LockOk, TasksOk;
    hide UnlinkHeap, Without, Relinked, Spliced, SearchesKept, RelinkFrame;
    UnlinkFrame(s, t, k, s');
    UnlinkMemory(s, t, k, s');
    UnlinkSearches(s, t, k, s');
    RelinkKeepsInv(s, s', t, End, To(s.tasks[t].oldB), DelDone(s.tasks[t].async, s.tasks[t].oldB));
  }

  // ---------- reclaim ----------

  // A retired node a gets status st with the same unlink time.
  ghost predicate Restatus(heap: Heap, a: Addr, st: Status) {
    a in heap && heap[a].status.Retired? && st.Unlinked() && st.gone == heap[a].status.gone
  }

  function WithStatus(heap: Heap, a: Addr, st: Status): Heap
    requires a in heap
  {
    heap[a := heap[a].(status := st)]
  }

  lemma RestatusKept(heap: Heap, a: Addr, st: Status, now: nat)
    requires Restatus(heap, a, st)
    ensures Kept(heap, WithStatus(heap, a, st), now) && SameLinks(heap, WithStatus(heap, a, st))
  {
  }

  lemma RestatusList(heap: Heap, head: Ptr, order: seq<Addr>, a: Addr, st: Status)
    requires ListOk(heap, head, order) && Restatus(heap, a, st)
    ensures ListOk(WithStatus(heap, a, st), head, order)
  {
  }

  lemma RestatusHistory(heap: Heap, log: Log, a: Addr, st: Status)
    requires |log| > 0 && HistoryOk(heap, log) && FrozenOk(heap) && Restatus(heap, a, st)
    ensures HistoryOk(WithStatus(heap, a, st), log) && FrozenOk(WithStatus(heap, a, st))
  {
    var heap' := WithStatus(heap, a, st);
    RestatusKept(heap, a, st, |log|);
    HistoryKept(heap, heap', log, log);
    FrozenKept(heap, heap', |log|);
  }

  lemma RestatusMemory(s: State, a: Addr, st: Status)
    requires MemoryOk(s) && Restatus(s.heap, a, st)
    ensures MemoryOk(s.(heap := WithStatus(s.heap, a, st)))
    ensures Kept(s.heap, WithStatus(s.heap, a, st), |s.log|) && SameLinks(s.heap, WithStatus(s.heap, a, st))
  {
    hide ListOk, HistoryOk, FrozenOk, Kept, SameLinks, Restatus;
    RestatusKept(s.heap, a, st, |s.log|);
    RestatusList(s.heap, s.head, s.Order(), a, st);
    RestatusHistory(s.heap, s.log, a, st);
  }

  lemma RestatusGraces(heap: Heap, graces: map<Addr, set<Tid>>, open: set<Tid>, since: seq<nat>, now: nat, a: Addr, st: Status)
    requires Restatus(heap, a, st) && GraceOk(heap, graces, open, since, now)
    requires st.Freed? ==> a !in graces && Elapsed(heap, open, since, a)
    ensures GraceOk(WithStatus(heap, a, st), graces, open, since, now)
  {
    var heap' := WithStatus(heap, a, st);
    forall b | b in heap' && heap'[b].status.Freed? ensures Elapsed(heap', open, since, b) {
      assert Elapsed(heap, open, since, b);
    }
  }

  lemma RestatusSynced(heap: Heap, tasks: seq<Pc>, open: set<Tid>, since: seq<nat>, a: Addr, st: Status)
    requires Restatus(heap, a, st) && SyncedOk(heap, tasks, open, since)
    ensures SyncedOk(WithStatus(heap, a, st), tasks, open, since)
  {
    forall u | 0 <= u < |tasks| && tasks[u].SyncDone?
      ensures Elapsed(WithStatus(heap, a, st), open, since, tasks[u].oldB)
    {
      assert Elapsed(heap, open, since, tasks[u].oldB);
    }
  }

  // Task t gives up the node that it had to free.
  lemma RestatusOwners(heap: Heap, tasks: seq<Pc>, graces: map<Addr, set<Tid>>, t: Tid, a: Addr, st: Status, graces': map<Addr, set<Tid>>)
    requires Restatus(heap, a, st) && OwnersOk(heap, tasks, graces) && t < |tasks|
    requires tasks[t].MustFree() == To(a) && tasks[t].Unpublished() == End
    requires st.Freed? || (st.claim == ByCallback && a in graces')
    requires forall b :: b in heap && b != a ==> (b in graces <==> b in graces')
    ensures OwnersOk(WithStatus(heap, a, st), tasks[t := Idle], graces')
  {
    var heap', tasks' := WithStatus(heap, a, st), tasks[t := Idle];
    assert OwnsOk(heap, t, tasks[t]);
    forall u | 0 <= u < |tasks| ensures OwnsOk(heap', u, tasks'[u]) {
      assert OwnsOk(heap, u, tasks[u]);
    }
    forall b | b in heap' ensures OwnedOk(heap', tasks', graces', b) {
      assert OwnedOk(heap, tasks, graces, b);
    }
  }

  lemma RestatusTasks(s: State, t: Tid, a: Addr, st: Status)
    requires Inv(s) && t < |s.tasks| && Restatus(s.heap, a, st)
    ensures TasksOk(WithStatus(s.heap, a, st), s.log, s.tasks[t := Idle], s.since)
    ensures TasksOk(WithStatus(s.heap, a, st), s.log, s.tasks, s.since)
  {
    hide ListOk, HistoryOk, FrozenOk, GraceOk, SyncedOk, OwnersOk, LockOk, TasksOk;
    var heap' := WithStatus(s.heap, a, st);
    RestatusMemory(s, a, st);
    SearchesSameLinks(s, heap', s.log);
    TasksKept(s, heap', s.log, t, Idle);
    TaskFacts(s, t);
    if s.tasks[t].Held().To? {
      SinceIsPast(s, t);
      LaterKept(s.heap, heap', |s.log|, s.tasks[t].Held().at, s.since[t]);
    }
    KnowsKept(s.heap, heap', s.log, s.log, s.since[t], s.tasks[t]);
    TasksKept(s, heap', s.log, t, s.tasks[t]);
    assert s.tasks[t := s.tasks[t]] == s.tasks;
  }

  lemma CallRcuKeepsInv(s: State, t: Tid, s': State)
    requires Inv(s) && CallRcu(s, t, s')
    ensures Inv(s')
  {
    hide ListOk, HistoryOk, FrozenOk, GraceOk, SyncedOk, OwnersOk, LockOk, TasksOk;
    var a, st := s.tasks[t].oldB, Retired(s.heap[s.tasks[t].oldB].status.gone, ByCallback);
    SectionsMove(s, t, Idle);
    RestatusMemory(s, a, st);
    RestatusGraces(s.heap, s.graces, s.Sections(), s.since, |s.log|, a, st);
    GraceStarts(s'.heap, s.graces, s.Sections(), s.since, |s.log|, a);
    RestatusSynced(s.heap, s.tasks, s.Sections(), s.since, a, st);
    SyncedMove(s'.heap, s.tasks, s.Sections(), s.since, t, Idle);
    RestatusOwners(s.heap, s.tasks, s.graces, t, a, st, s'.graces);
    RestatusTasks(s, t, a, st);
    LockMove(s.lock, s.tasks, t, Idle);
  }

  lemma SyncedElapsed(s: State, t: Tid)
    requires Inv(s) && t < |s.tasks| && s.tasks[t].SyncDone?
    ensures Elapsed(s.heap, s.Sections(), s.since, s.tasks[t].oldB)
  {
    hide ListOk, HistoryOk, FrozenOk, GraceOk, OwnersOk, LockOk, TasksOk;
  }

  lemma KfreeKeepsInv(s: State, t: Tid, s': State)
    requires Inv(s) && Kfree(s, t, s')
    ensures Inv(s')
  {
    hide ListOk, HistoryOk, FrozenOk, GraceOk, SyncedOk, OwnersOk, LockOk, TasksOk;
    var a, st := s.tasks[t].oldB, Freed(s.heap[s.tasks[t].oldB].status.gone);
    SectionsMove(s, t, Idle);
    TaskFacts(s, t);
    SyncedElapsed(s, t);
    RestatusMemory(s, a, st);
    RestatusGraces(s.heap, s.graces, s.Sections(), s.since, |s.log|, a, st);
    RestatusSynced(s.heap, s.tasks, s.Sections(), s.since, a, st);
    SyncedMove(s'.heap, s.tasks, s.Sections(), s.since, t, Idle);
    RestatusOwners(s.heap, s.tasks, s.graces, t, a, st, s'.graces);
    RestatusTasks(s, t, a, st);
    LockMove(s.lock, s.tasks, t, Idle);
  }

  lemma CallbackOwners(heap: Heap, tasks: seq<Pc>, graces: map<Addr, set<Tid>>, a: Addr, st: Status)
    requires Restatus(heap, a, st) && OwnersOk(heap, tasks, graces)
    requires st.Freed? && heap[a].status.claim == ByCallback
    ensures OwnersOk(WithStatus(heap, a, st), tasks, graces - {a})
  {
    var heap' := WithStatus(heap, a, st);
    forall u | 0 <= u < |tasks| ensures OwnsOk(heap', u, tasks[u]) {
      assert OwnsOk(heap, u, tasks[u]);
    }
    forall b | b in heap' ensures OwnedOk(heap', tasks, graces - {a}, b) {
      assert OwnedOk(heap, tasks, graces, b);
    }
  }

  lemma CallbackKeepsInv(s: State, a: Addr, s': State)
    requires Inv(s) && Callback(s, a, s')
    ensures Inv(s')
  {
    hide ListOk, HistoryOk, FrozenOk, GraceOk, SyncedOk, OwnersOk, LockOk, TasksOk;
    var st := Freed(s.heap[a].status.gone);
    assert s'.Sections() == s.Sections();
    RestatusMemory(s, a, st);
    GraceEnds(s.heap, s.graces, s.Sections(), s.since, |s.log|, a);
    RestatusGraces(s.heap, s'.graces, s.Sections(), s.since, |s.log|, a, st);
    RestatusSynced(s.heap, s.tasks, s.Sections(), s.since, a, st);
    CallbackOwners(s.heap, s.tasks, s.graces, a, st);
    if |s.tasks| > 0 {
      RestatusTasks(s, 0, a, st);
    } else {
      assert TasksOk(s'.heap, s'.log, s'.tasks, s'.since) by { NoTasks(s'); }
    }
  }

  lemma NoTasks(s: State)
    requires s.Sized() && |s.tasks| == 0
    ensures TasksOk(s.heap, s.log, s.tasks, s.since)
  {
  }

  // ---------- every step, every run ----------

  lemma NextKeepsInv(s: State, step: Step, s': State)
    requires Inv(s) && Next(s, step, s')
    ensures Inv(s')
  {
    hide Inv;
    match step
    case BeginReadStep(t, op, id) => BeginReadKeepsInv(s, t, op, id, s');
    case LoadHeadStep(t) => LoadHeadKeepsInv(s, t, s');
    case VisitStep(t) => VisitKeepsInv(s, t, s');
    case EndReadStep(t) => EndReadKeepsInv(s, t, s');
    case AllocCopyStep(t, mem) => AllocCopyKeepsInv(s, t, mem, s');
    case AddAllocStep(t, book, n) => AddAllocKeepsInv(s, t, book, n, s');
    case DelRequestStep(t, id, async) => DelRequestKeepsInv(s, t, id, async, s');
    case LockStep(t) => LockKeepsInv(s, t, s');
    case UnlockStep(t) => UnlockKeepsInv(s, t, s');
    case InsertStep(t) => InsertKeepsInv(s, t, s');
    case ReplaceStep(t, k) => ReplaceKeepsInv(s, t, k, s');
    case DelVisitStep(t) => DelVisitKeepsInv(s, t, s');
    case UnlinkStep(t, k) => UnlinkKeepsInv(s, t, k, s');
    case CallRcuStep(t) => CallRcuKeepsInv(s, t, s');
    case SyncBeginStep(t) => SyncBeginKeepsInv(s, t, s');
    case SyncEndStep(t) => SyncEndKeepsInv(s, t, s');
    case KfreeStep(t) => KfreeKeepsInv(s, t, s');
    case CallbackStep(a) => CallbackKeepsInv(s, a, s');
  }

  lemma {:induction false} RunInv(states: seq<State>, steps: seq<Step>, i: nat)
    requires IsRun(states, steps) && i < |states|
    ensures Inv(states[i])
  {
    hide Inv, Next;
    if i == 0 {
      InitInv(states[0]);
    } else {
      RunInv(states, steps, i - 1);
      NextKeepsInv(states[i - 1], steps[i - 1], states[i]);
    }
  }
}

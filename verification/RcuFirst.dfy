/**
 Readers against first-match lookup.  In every run, the book a section answers with was, at an
 instant of the section, the first on the list that had the id, unless a replacement put it on
 the list during the section behind another book with the id.
 */
module RcuFirst {
  import opened Common
  import opened RcuModel
  import opened RcuInvariant
  import opened RcuSteps
  import opened RcuTheorems
  import opened RcuContract
  import opened RcuRefinement
  import opened RcuBound
  import opened RcuMeets
  import opened RcuRuns
  import BookList

  // ---------- what a section knows ----------

  // Node a was the first with the id at some instant since order number `version`.
  ghost predicate WasFirst(heap: Heap, log: Log, version: nat, a: Addr, id: int) {
    exists v :: version <= v < |log| && DelHitOk(heap, log[v], a, id)
  }

  // Node a came onto the list with order number v.
  predicate Entered(log: Log, v: nat, a: Addr) {
    0 < v < |log| && a in log[v] && a !in log[v - 1]
  }

  // Node a came onto the list since order number `version`, and not as the first with the id.
  ghost predicate Misplaced(heap: Heap, log: Log, version: nat, a: Addr, id: int) {
    exists v: nat :: version < v < |log| && Entered(log, v, a) && !DelHitOk(heap, log[v], a, id)
  }

  ghost predicate RightEnd(heap: Heap, log: Log, version: nat, f: Ptr, id: int) {
    if f == End then AbsentSince(heap, log, version, id)
    else WasFirst(heap, log, version, f.at, id) || Misplaced(heap, log, version, f.at, id)
  }

  // The search at cur will end rightly, or at a misplaced node.
  ghost predicate MeetsRight(heap: Heap, log: Log, version: nat, cur: Ptr, id: int) {
    exists m: nat, f: Ptr :: Meets(heap, cur, m, f, id) && RightEnd(heap, log, version, f, id)
  }

  ghost predicate ReaderKnows(heap: Heap, log: Log, version: nat, pc: Pc) {
    match pc
    case Walk(_, id, cur) => MeetsRight(heap, log, version, cur, id)
    case Leave(_, id, NotFound) => RightEnd(heap, log, version, End, id)
    case Leave(_, id, Shown(a, _)) => RightEnd(heap, log, version, To(a), id)
    case Leave(_, id, Refused(a, _)) => RightEnd(heap, log, version, To(a), id)
    case _ => true
  }

  ghost predicate ReadersKnow(s: State)
    requires s.Sized()
  {
    forall t :: 0 <= t < |s.tasks| ==> ReaderKnows(s.heap, s.log, s.since[t], s.tasks[t])
  }

  // What was true of an order stays true of it, and nothing else becomes true.
  lemma HitKept(heap: Heap, heap': Heap, now: nat, order: seq<Addr>, a: Addr, id: int)
    requires Kept(heap, heap', now) && Published(heap, order)
    ensures DelHitOk(heap, order, a, id) <==> DelHitOk(heap', order, a, id)
    ensures NoneHas(heap, order, id) ==> NoneHas(heap', order, id)
  {
    forall i | 0 <= i < |order| ensures order[i] in heap && order[i] in heap' && heap'[order[i]].book == heap[order[i]].book {
      assert order[i] in order;
    }
    if k: nat :| k < |order| && order[k] == a {
      PrefixIds(heap, heap', order, id);
    }
  }

  lemma PrefixIds(heap: Heap, heap': Heap, order: seq<Addr>, id: int)
    requires forall i :: 0 <= i < |order| ==>
               order[i] in heap && order[i] in heap' && heap'[order[i]].book == heap[order[i]].book
    ensures forall k :: 0 <= k <= |order| ==> (NoneBefore(heap, order, k, id) <==> NoneBefore(heap', order, k, id))
  {
    forall k | 0 <= k <= |order| ensures NoneBefore(heap, order, k, id) <==> NoneBefore(heap', order, k, id) {
      assert forall i :: 0 <= i < k ==> order[..k][i] == order[i];
    }
  }

  lemma EndKept(heap: Heap, heap': Heap, log: Log, log': Log, version: nat, f: Ptr, id: int)
    requires Kept(heap, heap', |log|) && HistoryOk(heap, log) && log <= log'
    requires RightEnd(heap, log, version, f, id)
    ensures RightEnd(heap', log', version, f, id)
  {
    hide Kept, DelHitOk, NoneHas, Published;
    if f == End {
      var v :| version <= v < |log| && NoneHas(heap, log[v], id);
      HitKept(heap, heap', |log|, log[v], 0, id);
      assert log'[v] == log[v];
    } else if WasFirst(heap, log, version, f.at, id) {
      var v :| version <= v < |log| && DelHitOk(heap, log[v], f.at, id);
      HitKept(heap, heap', |log|, log[v], f.at, id);
      assert log'[v] == log[v];
    } else {
      var v: nat :| version < v < |log| && Entered(log, v, f.at) && !DelHitOk(heap, log[v], f.at, id);
      HitKept(heap, heap', |log|, log[v], f.at, id);
      assert log'[v] == log[v] && log'[v - 1] == log[v - 1];
      assert Entered(log', v, f.at);
    }
  }

  // A task that is not searching keeps what it knows.
  lemma AnswerKept(heap: Heap, heap': Heap, log: Log, log': Log, version: nat, pc: Pc)
    requires Kept(heap, heap', |log|) && HistoryOk(heap, log) && log <= log'
    requires ReaderKnows(heap, log, version, pc) && !pc.Walk?
    ensures ReaderKnows(heap', log', version, pc)
  {
    hide Kept, HistoryOk, RightEnd;
    match pc
    case Leave(_, id, NotFound) => EndKept(heap, heap', log, log', version, End, id);
    case Leave(_, id, Shown(a, _)) => EndKept(heap, heap', log, log', version, To(a), id);
    case Leave(_, id, Refused(a, _)) => EndKept(heap, heap', log, log', version, To(a), id);
    case _ =>
  }

  // A first match from position k on is the first of all when there is none before.
  lemma FirstOfAll(heap: Heap, order: seq<Addr>, k: nat, f: Ptr, id: int)
    requires k <= |order| && NoneBefore(heap, order, k, id) && FirstFrom(heap, order, k, f, id)
    ensures if f == End then NoneHas(heap, order, id) else DelHitOk(heap, order, f.at, id)
  {
    forall i | 0 <= i < k && order[i] in heap ensures heap[order[i]].book.id != id {
      assert order[..k][i] == order[i];
    }
    if f.To? {
      var j :| && k <= j < |order| && order[j] == f.at
               && forall l :: k <= l < j ==> order[l] in heap && heap[order[l]].book.id != id;
      forall i | 0 <= i < j && order[..j][i] in heap ensures heap[order[..j][i]].book.id != id {
        assert order[..j][i] == order[i];
      }
      assert NoneBefore(heap, order, j, id);
    }
  }

  // A right end in the newest order.
  lemma RightNow(heap: Heap, log: Log, order: seq<Addr>, version: nat, f: Ptr, id: int)
    requires version <= |log|
    requires if f == End then NoneHas(heap, order, id) else DelHitOk(heap, order, f.at, id)
    ensures RightEnd(heap, log + [order], version, f, id)
  {
    assert (log + [order])[|log|] == order;
  }

  // A misplaced node on the newest order.
  lemma MisplacedNow(heap: Heap, log: Log, order: seq<Addr>, version: nat, a: Addr, id: int)
    requires |log| > 0 && version < |log| && a in order && a !in log[|log| - 1] && !DelHitOk(heap, order, a, id)
    ensures RightEnd(heap, log + [order], version, To(a), id)
  {
    hide DelHitOk;
    var log' := log + [order];
    assert log'[|log|] == order && log'[|log| - 1] == log[|log| - 1];
    assert Entered(log', |log|, a);
  }

  // The position of a first match in a list without repetitions.
  lemma NoneBeforeHit(heap: Heap, order: seq<Addr>, k: nat, id: int)
    requires Distinct(order) && k < |order| && DelHitOk(heap, order, order[k], id)
    ensures NoneBefore(heap, order, k, id)
  {
    var i: nat :| i < |order| && order[i] == order[k] && NoneBefore(heap, order, i, id);
    assert i == k;
  }

  lemma PrefixKept(heap: Heap, heap': Heap, now: nat, order: seq<Addr>, order': seq<Addr>, k: nat, id: int)
    requires Kept(heap, heap', now) && Published(heap, order) && NoneBefore(heap, order, k, id)
    requires k <= |order'| && order'[..k] == order[..k]
    ensures NoneBefore(heap', order', k, id)
  {
    forall i | 0 <= i < k ensures heap'[order'[..k][i]].book.id != id {
      assert order[..k][i] == order[i] && order[i] in order;
      assert order[i] in heap;
    }
  }

  // A replacement keeps every search right, or misplaces the copy that it will meet.
  lemma ReplaceRight(heap: Heap, heap': Heap, log: Log, k: nat, n: Addr, cur: Ptr, version: nat, id: int)
    requires |log| > 0 && version < |log| && Kept(heap, heap', |log|) && HistoryOk(heap, log) && PublishedLinks(heap)
    requires Linking(heap, log[|log| - 1]) && Distinct(log[|log| - 1]) && k < |log[|log| - 1]|
    requires Spliced(heap, heap', log[|log| - 1], k, To(n)) && log[|log| - 1][k] in heap && n in heap'
    requires var a := log[|log| - 1][k]; heap'[n].next == heap[a].next && heap'[n].book.id == heap[a].book.id
    requires n !in log[|log| - 1]
    requires MeetsRight(heap, log, version, cur, id) && PublishedAt(heap, cur)
    ensures MeetsRight(heap', log + [log[|log| - 1][k := n]], version, cur, id)
  {
    var order := log[|log| - 1];
    var order' := order[k := n];
    var m: nat, f: Ptr :| Meets(heap, cur, m, f, id) && RightEnd(heap, log, version, f, id);
    hide Linking, PublishedLinks, Spliced, RightEnd, HistoryOk, Meets, Distinct, DelHitOk;
    var f' := MeetsReplaced(heap, heap', order, k, n, cur, m, f, id);
    if f' == f {
      EndKept(heap, heap', log, log + [order'], version, f, id);
    } else if DelHitOk(heap', order', n, id) {
      RightNow(heap', log, order', version, f', id);
    } else {
      assert order'[k] == n;
      MisplacedNow(heap', log, order', version, n, id);
    }
  }

  // A deletion of the first match of its id keeps every search right.
  lemma UnlinkRight(heap: Heap, heap': Heap, log: Log, k: nat, cur: Ptr, version: nat, id: int)
    requires |log| > 0 && version < |log| && Kept(heap, heap', |log|) && HistoryOk(heap, log) && PublishedLinks(heap)
    requires Linking(heap, log[|log| - 1]) && Distinct(log[|log| - 1]) && k < |log[|log| - 1]| && log[|log| - 1][k] in heap
    requires Spliced(heap, heap', log[|log| - 1], k, heap[log[|log| - 1][k]].next)
    requires Linking(heap', Without(log[|log| - 1], k))
    requires var a := log[|log| - 1][k]; DelHitOk(heap, log[|log| - 1], a, heap[a].book.id)
    requires MeetsRight(heap, log, version, cur, id) && PublishedAt(heap, cur)
    ensures MeetsRight(heap', log + [Without(log[|log| - 1], k)], version, cur, id)
  {
    var order := log[|log| - 1];
    var order' := Without(order, k);
    var m: nat, f: Ptr :| Meets(heap, cur, m, f, id) && RightEnd(heap, log, version, f, id);
    MeetsMatch(heap, cur, m, f, id);
    NoneBeforeHit(heap, order, k, heap[order[k]].book.id);
    assert Published(heap, order);
    WithoutAt(order, k);
    assert order'[..k] == order[..k];
    hide Linking, PublishedLinks, Spliced, RightEnd, HistoryOk, Meets, Distinct, Without, FirstFrom, NoneBefore;
    var m', f' := MeetsUnlinked(heap, heap', order, k, cur, m, f, id);
    if f' == f {
      EndKept(heap, heap', log, log + [order'], version, f, id);
    } else {
      PrefixKept(heap, heap', |log|, order, order', k, id);
      FirstOfAll(heap', order', k, f', id);
      RightNow(heap', log, order', version, f', id);
    }
  }

  lemma SameRight(heap: Heap, heap': Heap, log: Log, log': Log, cur: Ptr, version: nat, id: int)
    requires Kept(heap, heap', |log|) && HistoryOk(heap, log) && PublishedLinks(heap) && SameLinks(heap, heap') && log <= log'
    requires MeetsRight(heap, log, version, cur, id) && PublishedAt(heap, cur)
    ensures MeetsRight(heap', log', version, cur, id)
  {
    var m: nat, f: Ptr :| Meets(heap, cur, m, f, id) && RightEnd(heap, log, version, f, id);
    hide Kept, HistoryOk, PublishedLinks, SameLinks, Meets, RightEnd;
    MeetsSame(heap, heap', cur, m, f, id);
    EndKept(heap, heap', log, log', version, f, id);
  }

  // ---------- steps ----------

  lemma MemoryFacts(s: State)
    requires Inv(s)
    ensures s.Sized() && Linking(s.heap, s.Order()) && Distinct(s.Order()) && HistoryOk(s.heap, s.log)
    ensures PublishedLinks(s.heap)
  {
    LinksArePublished(s);
  }

  // An unpublished node has never been on the list.
  lemma CopyIsNew(s: State, n: Addr)
    requires Inv(s) && n in s.heap && s.heap[n].status.Fresh?
    ensures forall v :: 0 <= v < |s.log| ==> n !in s.log[v]
    ensures n !in s.Order()
  {
    hide ListOk, FrozenOk, GraceOk, SyncedOk, OwnersOk, LockOk, TasksOk;
  }

  // The search of another task stays right.
  lemma OthersStayRight(s: State, step: Step, s': State, u: Tid)
    requires Inv(s) && Inv(s') && Next(s, step, s')
    requires u < |s.tasks| && s.tasks[u].Walk? && MeetsRight(s.heap, s.log, s.since[u], s.tasks[u].cur, s.tasks[u].id)
    ensures MeetsRight(s'.heap, s'.log, s.since[u], s.tasks[u].cur, s.tasks[u].id)
  {
    hide Inv, Kept, Linking, Distinct, HistoryOk, PublishedLinks, PublishedAt, MeetsRight, SameLinks, Spliced;
    MemoryFacts(s);
    CursorPublished(s, u);
    StepKeeps(s, step, s');
    SinceIsPast(s, u);
    if step.ReplaceStep? {
      ReplaceStaysRight(s, step.t, step.k, s', u);
    } else if step.UnlinkStep? {
      UnlinkStaysRight(s, step.t, step.k, s', u);
    } else {
      hide Next;
      StepKeepsLinks(s, step, s');
      SameRight(s.heap, s'.heap, s.log, s'.log, s.tasks[u].cur, s.since[u], s.tasks[u].id);
    }
  }

  lemma ReplaceStaysRight(s: State, t: Tid, k: nat, s': State, u: Tid)
    requires Inv(s) && Replace(s, t, k, s')
    requires u < |s.tasks| && s.tasks[u].Walk? && MeetsRight(s.heap, s.log, s.since[u], s.tasks[u].cur, s.tasks[u].id)
    requires s.since[u] < |s.log| && Kept(s.heap, s'.heap, |s.log|) && PublishedAt(s.heap, s.tasks[u].cur)
    ensures MeetsRight(s'.heap, s'.log, s.since[u], s.tasks[u].cur, s.tasks[u].id)
  {
    hide Inv, Kept, Linking, Distinct, HistoryOk, PublishedLinks, PublishedAt, MeetsRight, Spliced, ReplaceHeap;
    MemoryFacts(s);
    ReplaceSplices(s, t, k, s');
    TaskFacts(s, t);
    CopyIsNew(s, s.tasks[t].newB);
    ReplaceRight(s.heap, s'.heap, s.log, k, s.tasks[t].newB, s.tasks[u].cur, s.since[u], s.tasks[u].id);
  }

  lemma UnlinkStaysRight(s: State, t: Tid, k: nat, s': State, u: Tid)
    requires Inv(s) && Inv(s') && Unlink(s, t, k, s')
    requires u < |s.tasks| && s.tasks[u].Walk? && MeetsRight(s.heap, s.log, s.since[u], s.tasks[u].cur, s.tasks[u].id)
    requires s.since[u] < |s.log| && Kept(s.heap, s'.heap, |s.log|) && PublishedAt(s.heap, s.tasks[u].cur)
    ensures MeetsRight(s'.heap, s'.log, s.since[u], s.tasks[u].cur, s.tasks[u].id)
  {
    hide Inv, Kept, Linking, Distinct, HistoryOk, PublishedLinks, PublishedAt, MeetsRight, Spliced, UnlinkHeap, Without;
    MemoryFacts(s);
    MemoryFacts(s');
    UnlinkSplices(s, t, k, s');
    TaskFacts(s, t);
    UnlinkRight(s.heap, s'.heap, s.log, k, s.tasks[u].cur, s.since[u], s.tasks[u].id);
  }

  lemma LoadHeadRight(s: State, t: Tid, s': State)
    requires Inv(s) && LoadHead(s, t, s') && s.tasks[t].Enter?
    ensures ReaderKnows(s'.heap, s'.log, s'.since[t], s'.tasks[t])
  {
    hide Inv, Linking, PublishedLinks;
    OrderLinks(s);
    SinceIsPast(s, t);
    var id := s.tasks[t].id;
    var f := ListMeets(s.heap, s.Order(), 0, id);
    FirstOfAll(s.heap, s.Order(), 0, f, id);
    RightNow(s.heap, s.log[..|s.log| - 1], s.Order(), s.since[t], f, id);
    assert s.log[..|s.log| - 1] + [s.Order()] == s.log;
  }

  lemma VisitRight(s: State, t: Tid, s': State)
    requires s.Sized() && Visit(s, t, s') && ReaderKnows(s.heap, s.log, s.since[t], s.tasks[t])
    ensures ReaderKnows(s'.heap, s'.log, s.since[t], s'.tasks[t])
  {
    var Walk(op, id, cur) := s.tasks[t];
    var m: nat, f: Ptr :| Meets(s.heap, cur, m, f, id) && RightEnd(s.heap, s.log, s.since[t], f, id);
    hide RightEnd;
    if cur.To? && s.heap[cur.at].book.id != id {
      assert Meets(s.heap, s.heap[cur.at].next, m - 1, f, id);
    }
  }

  predicate Uninformed(pc: Pc) {
    !pc.Walk? && (pc.Leave? ==> pc.answer == NoMemory)
  }

  // Other steps leave their task with nothing to know.
  lemma NothingToKnow(s: State, step: Step, s': State)
    requires Next(s, step, s') && !step.CallbackStep? && !step.VisitStep? && step.t < |s'.tasks|
    requires step.LoadHeadStep? ==> !s.tasks[step.t].Enter?
    ensures Uninformed(s'.tasks[step.t])
  {
    if step.BeginReadStep? || step.EndReadStep? || step.LockStep? || step.UnlockStep? {
      hide Next;
      ControlKnowsNothing(s, step, s');
    } else {
      hide ReplaceHeap, UnlinkHeap, Free;
    }
  }

  lemma ControlKnowsNothing(s: State, step: Step, s': State)
    requires Next(s, step, s') && !step.CallbackStep? && step.t < |s'.tasks|
    requires step.BeginReadStep? || step.EndReadStep? || step.LockStep? || step.UnlockStep?
    ensures Uninformed(s'.tasks[step.t])
  {
  }

  lemma OwnStepRight(s: State, step: Step, s': State)
    requires Inv(s) && Next(s, step, s') && !step.CallbackStep? && step.t < |s.tasks| == |s'.tasks| == |s'.since|
    requires ReaderKnows(s.heap, s.log, s.since[step.t], s.tasks[step.t])
    ensures ReaderKnows(s'.heap, s'.log, s'.since[step.t], s'.tasks[step.t])
  {
    hide Inv, RightEnd, MeetsRight;
    LogNotEmpty(s);
    if step.VisitStep? {
      VisitRight(s, step.t, s');
    } else if step.LoadHeadStep? && s.tasks[step.t].Enter? {
      LoadHeadRight(s, step.t, s');
    } else {
      hide Next;
      NothingToKnow(s, step, s');
    }
  }

  lemma StepKeepsReaders(s: State, step: Step, s': State)
    requires Inv(s) && Inv(s') && s.Sized() && s'.Sized() && Next(s, step, s') && ReadersKnow(s)
    ensures ReadersKnow(s')
  {
    hide Inv, Next, ReaderKnows;
    StepKeeps(s, step, s');
    forall u | 0 <= u < |s'.tasks| ensures ReaderKnows(s'.heap, s'.log, s'.since[u], s'.tasks[u]) {
      assert ReaderKnows(s.heap, s.log, s.since[u], s.tasks[u]);
      if !step.CallbackStep? && step.t == u {
        OwnStepRight(s, step, s');
      } else {
        OtherKept(s, step, s', u);
      }
    }
  }

  lemma OtherKept(s: State, step: Step, s': State, u: Tid)
    requires Inv(s) && Inv(s') && s.Sized() && s'.Sized() && Next(s, step, s')
    requires u < |s.tasks| == |s'.tasks| && (step.CallbackStep? || step.t != u)
    requires ReaderKnows(s.heap, s.log, s.since[u], s.tasks[u])
    ensures ReaderKnows(s'.heap, s'.log, s'.since[u], s'.tasks[u])
  {
    hide Inv, MeetsRight, RightEnd, HistoryOk, Kept;
    OthersMove(s, step, s', u);
    hide Next;
    StepKeeps(s, step, s');
    if s.tasks[u].Walk? {
      OthersStayRight(s, step, s', u);
    } else {
      MemoryFacts(s);
      AnswerKept(s.heap, s'.heap, s.log, s'.log, s.since[u], s.tasks[u]);
    }
  }

  lemma OthersMove(s: State, step: Step, s': State, u: Tid)
    requires s.Sized() && Next(s, step, s') && u < |s.tasks| && (step.CallbackStep? || step.t != u)
    ensures u < |s'.tasks| && u < |s'.since| && s'.tasks[u] == s.tasks[u] && s'.since[u] == s.since[u]
  {
    if step.BeginReadStep? {
      assert BeginRead(s, step.t, step.op, step.id, s');
    } else if step.CallbackStep? {
      assert Callback(s, step.a, s');
    } else {
      hide Next;
      MovesOne(s, step, s');
      SinceStays(s, step, s');
    }
  }

  // Every section knows this in every run.
  lemma {:induction false} RunReaders(states: seq<State>, steps: seq<Step>, k: nat)
    requires IsRun(states, steps) && k < |states|
    ensures states[k].Sized() && ReadersKnow(states[k])
  {
    hide Inv, Next;
    RunInv(states, steps, k);
    LogNotEmpty(states[k]);
    if k > 0 {
      hide ReadersKnow;
      RunReaders(states, steps, k - 1);
      RunInv(states, steps, k - 1);
      assert Next(states[k - 1], steps[k - 1], states[k]);
      StepKeepsReaders(states[k - 1], steps[k - 1], states[k]);
    }
  }

  // ---------- readers see the first match ----------

  // The answer is that of first-match lookup in the list as it is in state s.
  ghost predicate LookupAnswer(s: State, id: int, answer: Answer)
    requires Inv(s)
  {
    var i := BookList.First(Abs(s), id);
    match answer
    case NotFound => i == |Abs(s)|
    case Shown(a, book) => i < |Abs(s)| && Abs(s)[i] == book && s.Order()[i] == a
    case Refused(a, book) => i < |Abs(s)| && Abs(s)[i] == book && s.Order()[i] == a
    case NoMemory => true
  }

  lemma FoundAtInstant(states: seq<State>, steps: seq<Step>, i: nat, k: nat, a: Addr, book: Book, id: int)
    requires IsRun(states, steps) && i <= k < |states| && |states[i].log| > 0 && Inv(states[i])
    requires DelHitOk(states[k].heap, states[i].Order(), a, id) && states[k].heap[a].book == book
    ensures LookupAnswer(states[i], id, Shown(a, book)) && LookupAnswer(states[i], id, Refused(a, book))
  {
    hide Inv, Next, Abs;
    ListedAtInstant(states, steps, i, k);
    LogNotEmpty(states[i]);
    var order := states[i].Order();
    var j: nat :| j < |order| && order[j] == a && NoneBefore(states[k].heap, order, j, id);
    forall l | 0 <= l < j && order[..j][l] in states[i].heap ensures states[i].heap[order[..j][l]].book.id != id {
      assert order[..j][l] == order[l] && order[l] in order;
    }
    assert NoneBefore(states[i].heap, order, j, id);
    var first := HitIsFirst(states[i], a, id);
  }

  lemma MissedAtInstant(states: seq<State>, steps: seq<Step>, i: nat, k: nat, id: int)
    requires IsRun(states, steps) && i <= k < |states| && |states[i].log| > 0 && Inv(states[i])
    requires NoneHas(states[k].heap, states[i].Order(), id)
    ensures LookupAnswer(states[i], id, NotFound)
  {
    hide Inv, Next, Abs;
    ListedAtInstant(states, steps, i, k);
    LogNotEmpty(states[i]);
    var order := states[i].Order();
    forall l | 0 <= l < |order| ensures order[l] in states[i].heap && states[i].heap[order[l]].book.id != id {
      assert order[l] in order;
    }
    AbsentFirst(states[i], id);
  }

  lemma MemoryAnswer(s: State, id: int)
    requires Inv(s)
    ensures LookupAnswer(s, id, NoMemory)
  {
  }

  lemma AnsweredBook(s: State, t: Tid)
    requires Inv(s) && t < |s.tasks| && s.tasks[t].Leave? && (s.tasks[t].answer.Shown? || s.tasks[t].answer.Refused?)
    ensures s.tasks[t].answer.at in s.heap && s.heap[s.tasks[t].answer.at].book == s.tasks[t].answer.book
    ensures s.tasks[t].answer.book.id == s.tasks[t].id
  {
    hide Inv;
    TaskFacts(s, t);
  }

  // A book that first-match lookup gives at an instant of a section was the first then.
  lemma LookupMeansFirst(states: seq<State>, steps: seq<Step>, i: nat, k: nat, t: Tid, id: int, a: Addr, book: Book)
    requires IsRun(states, steps) && k < |states| && SameSection(states, t, i, k) && Inv(states[i])
    requires LookupAnswer(states[i], id, Shown(a, book))
    ensures states[k].Sized() && WasFirst(states[k].heap, states[k].log, states[k].since[t], a, id)
  {
    hide Inv, Next, Kept, DelHitOk;
    assert states[i].Open(t);
    SinceOfSection(states, steps, i, k, t);
    SinceIsPast(states[i], t);
    LogOfRun(states, steps, i, k);
    FirstHit(states[i], id, a, book);
    OrderPublished(states[i]);
    var v := |states[i].log| - 1;
    HitKept(states[i].heap, states[k].heap, |states[i].log|, states[i].Order(), a, id);
    assert states[k].log[v] == states[i].Order();
  }

  lemma FirstHit(s: State, id: int, a: Addr, book: Book)
    requires Inv(s) && s.Sized() && LookupAnswer(s, id, Shown(a, book))
    ensures DelHitOk(s.heap, s.Order(), a, id)
  {
    hide Inv;
    OrderPublished(s);
    var order, j := s.Order(), BookList.First(Abs(s), id);
    forall l | 0 <= l < j && order[..j][l] in s.heap ensures s.heap[order[..j][l]].book.id != id {
      assert order[..j][l] == order[l] && Abs(s)[l] == s.heap[order[l]].book;
    }
    assert NoneBefore(s.heap, order, j, id) && order[j] in order;
  }

  // ---------- nodes enter the list once ----------

  ghost predicate EntersOnce(log: Log) {
    forall v, u, a :: 0 <= u < v < |log| && Entered(log, v, a) ==> a !in log[u]
  }

  // A node that a step brings onto the list was unpublished until then.
  lemma NewcomerIsNew(s: State, step: Step, s': State, a: Addr)
    requires Inv(s) && Next(s, step, s') && |s.log| > 0 && |s'.log| == |s.log| + 1 && a in s'.Order() && a !in s.Order()
    ensures step.InsertStep? || step.ReplaceStep?
    ensures step.t < |s.tasks| && s.tasks[step.t].Unpublished() == To(a) && a in s.heap && s.heap[a].status.Fresh?
  {
    if step.InsertStep? {
      assert Insert(s, step.t, s');
      hide Inv;
      TaskFacts(s, step.t);
    } else if step.ReplaceStep? {
      assert Replace(s, step.t, step.k, s');
      hide Inv, ReplaceHeap;
      TaskFacts(s, step.t);
    } else {
      hide Inv, Next;
      NoNewcomer(s, step, s');
    }
  }

  // Steps other than those of add_book and of an updater bring nothing onto the list.
  lemma NoNewcomer(s: State, step: Step, s': State)
    requires Next(s, step, s') && |s.log| > 0 && |s'.log| > 0 && !step.InsertStep? && !step.ReplaceStep?
    ensures forall a :: a in s'.Order() ==> a in s.Order()
  {
    if step.UnlinkStep? {
      assert Unlink(s, step.t, step.k, s');
    } else {
      hide Next;
      LogStays(s, step, s');
    }
  }

  lemma StepEntersOnce(s: State, step: Step, s': State)
    requires Inv(s) && s.Sized() && s'.Sized() && Next(s, step, s') && EntersOnce(s.log)
    ensures EntersOnce(s'.log)
  {
    hide Inv, Next;
    StepExtendsLog(s, step, s');
    LastIsNew(s, step, s');
    forall v, u, a | 0 <= u < v < |s'.log| && Entered(s'.log, v, a) ensures a !in s'.log[u] {
      if v < |s.log| {
        assert Entered(s.log, v, a);
      } else {
        NewcomerIsNew(s, step, s', a);
        CopyIsNew(s, a);
      }
    }
  }

  lemma {:induction false} RunEntersOnce(states: seq<State>, steps: seq<Step>, k: nat)
    requires IsRun(states, steps) && k < |states|
    ensures EntersOnce(states[k].log)
  {
    hide Inv, Next;
    if k > 0 {
      hide EntersOnce;
      RunEntersOnce(states, steps, k - 1);
      RunInv(states, steps, k - 1);
      RunInv(states, steps, k);
      LogNotEmpty(states[k - 1]);
      LogNotEmpty(states[k]);
      assert Next(states[k - 1], steps[k - 1], states[k]);
      StepEntersOnce(states[k - 1], steps[k - 1], states[k]);
    }
  }

  // ---------- exactly when an answer is right ----------

  // Node a came onto the list since order number `version` behind another book with the id,
  // and has had one before it ever since.
  ghost predicate StayedBehind(heap: Heap, log: Log, version: nat, a: Addr, id: int) {
    exists v: nat :: && version < v < |log| && Entered(log, v, a)
                     && forall w :: v <= w < |log| ==> !DelHitOk(heap, log[w], a, id)
  }

  lemma FirstOrBehind(heap: Heap, log: Log, version: nat, a: Addr, id: int)
    requires EntersOnce(log) && RightEnd(heap, log, version, To(a), id)
    ensures WasFirst(heap, log, version, a, id) <==> !StayedBehind(heap, log, version, a, id)
  {
    if StayedBehind(heap, log, version, a, id) {
      BehindNeverFirst(heap, log, version, a, id);
    }
    if !WasFirst(heap, log, version, a, id) {
      hide DelHitOk;
    }
  }

  lemma BehindNeverFirst(heap: Heap, log: Log, version: nat, a: Addr, id: int)
    requires EntersOnce(log) && StayedBehind(heap, log, version, a, id)
    ensures !WasFirst(heap, log, version, a, id)
  {
    var v: nat :| && version < v < |log| && Entered(log, v, a)
                  && forall w :: v <= w < |log| ==> !DelHitOk(heap, log[w], a, id);
    forall w | version <= w < |log| ensures !DelHitOk(heap, log[w], a, id) {
      if w < v {
        assert a !in log[w];
      }
    }
  }

  predicate Found(pc: Pc) {
    pc.Leave? && (pc.answer.Shown? || pc.answer.Refused?)
  }

  // In every run, the book that a section answers with is that of first-match lookup at some
  // instant of the section, unless it came onto the list during the section behind another
  // book with the id and has stayed behind one; and then it is at none.
  lemma ReadsSeeFirstExactly(states: seq<State>, steps: seq<Step>, k: nat, t: Tid)
    requires IsRun(states, steps) && k < |states| && t < |states[k].tasks| && Found(states[k].tasks[t])
    ensures states[k].Sized()
    ensures var s := states[k]; var Leave(_, id, answer) := s.tasks[t];
            (exists i: nat :: SameSection(states, t, i, k) && Inv(states[i]) && LookupAnswer(states[i], id, answer))
            <==> !StayedBehind(s.heap, s.log, s.since[t], answer.at, id)
  {
    var s := states[k];
    var Leave(_, id, answer) := s.tasks[t];
    hide Inv, Next, WasFirst, StayedBehind, LookupAnswer, EntersOnce;
    RunReaders(states, steps, k);
    RunEntersOnce(states, steps, k);
    assert ReaderKnows(s.heap, s.log, s.since[t], s.tasks[t]);
    FirstOrBehind(s.heap, s.log, s.since[t], answer.at, id);
    if WasFirst(s.heap, s.log, s.since[t], answer.at, id) {
      var i := FirstAtInstant(states, steps, k, t);
    }
    forall i: nat | SameSection(states, t, i, k) && Inv(states[i]) && LookupAnswer(states[i], id, answer)
      ensures WasFirst(s.heap, s.log, s.since[t], answer.at, id)
    {
      SameLookup(states[i], id, answer);
      LookupMeansFirst(states, steps, i, k, t, id, answer.at, answer.book);
    }
  }

  lemma SameLookup(s: State, id: int, answer: Answer)
    requires Inv(s) && (answer.Shown? || answer.Refused?)
    ensures LookupAnswer(s, id, answer) <==> LookupAnswer(s, id, Shown(answer.at, answer.book))
  {
  }

  // The instant at which the book found was the first.
  lemma FirstAtInstant(states: seq<State>, steps: seq<Step>, k: nat, t: Tid) returns (i: nat)
    requires IsRun(states, steps) && k < |states| && t < |states[k].tasks| && Found(states[k].tasks[t]) && states[k].Sized()
    requires WasFirst(states[k].heap, states[k].log, states[k].since[t], states[k].tasks[t].answer.at, states[k].tasks[t].id)
    ensures SameSection(states, t, i, k) && Inv(states[i])
    ensures LookupAnswer(states[i], states[k].tasks[t].id, states[k].tasks[t].answer)
  {
    var s := states[k];
    var Leave(_, id, answer) := s.tasks[t];
    hide Inv, Next, DelHitOk, LookupAnswer;
    var v :| s.since[t] <= v < |s.log| && DelHitOk(s.heap, s.log[v], answer.at, id);
    RunInv(states, steps, k);
    AnsweredBook(s, t);
    i := InstantOfSection(states, steps, k, t, v);
    RunInv(states, steps, i);
    FoundAtInstant(states, steps, i, k, answer.at, answer.book, id);
  }

  // In every run, an id reported missing was missing at some instant of the section.
  lemma MissesAreRight(states: seq<State>, steps: seq<Step>, k: nat, t: Tid) returns (i: nat)
    requires IsRun(states, steps) && k < |states| && t < |states[k].tasks|
    requires states[k].tasks[t].Leave? && states[k].tasks[t].answer == NotFound
    ensures SameSection(states, t, i, k) && Inv(states[i]) && LookupAnswer(states[i], states[k].tasks[t].id, NotFound)
  {
    var s := states[k];
    var id := s.tasks[t].id;
    hide Inv, Next, NoneHas, LookupAnswer;
    RunInv(states, steps, k);
    RunReaders(states, steps, k);
    assert ReaderKnows(s.heap, s.log, s.since[t], s.tasks[t]);
    var v :| s.since[t] <= v < |s.log| && NoneHas(s.heap, s.log[v], id);
    i := InstantOfSection(states, steps, k, t, v);
    RunInv(states, steps, i);
    MissedAtInstant(states, steps, i, k, id);
  }

  // ---------- what puts a node behind ----------

  // The step that made order number v.
  lemma {:induction false} LogInstant(states: seq<State>, steps: seq<Step>, k: nat, v: nat) returns (j: nat)
    requires IsRun(states, steps) && k < |states| && 0 < v < |states[k].log|
    ensures j < k && |states[j].log| == v && |states[j + 1].log| == v + 1
  {
    hide Inv, Next;
    assert k > 0;
    RunInv(states, steps, k - 1);
    LogNotEmpty(states[k - 1]);
    assert Next(states[k - 1], steps[k - 1], states[k]);
    LastIsNew(states[k - 1], steps[k - 1], states[k]);
    if v < |states[k - 1].log| {
      j := LogInstant(states, steps, k - 1, v);
    } else {
      j := k - 1;
    }
  }

  // A newcomer with the id that is not the first match has come by a replacement that is not
  // the sequential update.
  lemma MisplacedByReplace(s: State, step: Step, s': State, a: Addr, id: int)
    requires Inv(s) && Inv(s') && Next(s, step, s') && s.Sized() && |s'.log| == |s.log| + 1
    requires a in s'.Order() && a !in s.Order() && a in s'.heap && s'.heap[a].book.id == id
    requires !DelHitOk(s'.heap, s'.Order(), a, id) && Refines(s, step, Abs(s), Abs(s'))
    ensures step.ReplaceStep? && step.t < |s.tasks| && s.tasks[step.t].UpdLocked? && s.tasks[step.t].newB == a
    ensures var pc := s.tasks[step.t];
            pc.op.Update? && pc.id == id && Abs(s') != BookList.Updated(Abs(s), id, pc.op.want)
  {
    NewcomerIsNew(s, step, s', a);
    if step.InsertStep? {
      InsertedIsFirst(s, step.t, s', id);
    } else {
      var k := step.k;
      assert Replace(s, step.t, k, s');
      hide Next, DelHitOk;
      ReplacedBook(s, step.t, k, s', id);
      BookList.UpdatedAt(Abs(s), k, id, s.tasks[step.t].op.want);
      if BookList.First(Abs(s), id) == k {
        CopyOfFirst(s, step.t, k, s', id);
      }
    }
  }

  lemma InsertedIsFirst(s: State, t: Tid, s': State, id: int)
    requires Insert(s, t, s') && s.tasks[t].newB in s'.heap && s'.heap[s.tasks[t].newB].book.id == id
    ensures DelHitOk(s'.heap, s'.Order(), s.tasks[t].newB, id)
  {
    assert NoneBefore(s'.heap, s'.Order(), 0, id);
    assert s'.Order()[0] == s.tasks[t].newB;
  }

  // A replacement copies the id.
  lemma ReplacedBook(s: State, t: Tid, k: nat, s': State, id: int)
    requires Inv(s) && Inv(s') && Replace(s, t, k, s') && Refines(s, ReplaceStep(t, k), Abs(s), Abs(s'))
    requires s.tasks[t].newB in s'.heap && s'.heap[s.tasks[t].newB].book.id == id
    ensures s.tasks[t].id == id && k < |Abs(s)| && Abs(s)[k].id == id
  {
    hide Inv, ReplaceHeap;
    OrderPublished(s');
    assert s'.Order()[k] == s.tasks[t].newB;
    assert Abs(s')[k].id == Abs(s)[k].id;
  }

  // The copy of a first match is the first match.
  lemma CopyOfFirst(s: State, t: Tid, k: nat, s': State, id: int)
    requires Inv(s) && Inv(s') && Replace(s, t, k, s') && Refines(s, ReplaceStep(t, k), Abs(s), Abs(s'))
    requires BookList.First(Abs(s), id) == k < |Abs(s)| && s.tasks[t].newB in s'.heap
    ensures DelHitOk(s'.heap, s'.Order(), s.tasks[t].newB, id)
  {
    hide Inv, ReplaceHeap;
    OrderPublished(s');
    var order := s'.Order();
    assert order[k] == s.tasks[t].newB;
    forall i | 0 <= i < k && order[..k][i] in s'.heap ensures s'.heap[order[..k][i]].book.id != id {
      assert order[..k][i] == order[i] && Abs(s')[i] == Abs(s)[i];
    }
    assert NoneBefore(s'.heap, order, k, id);
    assert Abs(s')[k].id == id;
  }

  // An answer that is right at no instant of its section is a copy that some borrow or return
  // has put on the list during the section in the place of a book that was not the first.
  lemma SpoiledByReplace(states: seq<State>, steps: seq<Step>, k: nat, t: Tid) returns (j: nat)
    requires IsRun(states, steps) && k < |states| && t < |states[k].tasks| && Found(states[k].tasks[t]) && states[k].Sized()
    requires var s := states[k]; StayedBehind(s.heap, s.log, s.since[t], s.tasks[t].answer.at, s.tasks[t].id)
    ensures j < k && SameSection(states, t, j, k) && Inv(states[j]) && Inv(states[j + 1])
    ensures steps[j].ReplaceStep? && steps[j].t < |states[j].tasks|
    ensures var pc := states[j].tasks[steps[j].t];
            && pc.UpdLocked? && pc.op.Update? && pc.newB == states[k].tasks[t].answer.at && pc.id == states[k].tasks[t].id
            && Abs(states[j + 1]) != BookList.Updated(Abs(states[j]), pc.id, pc.op.want)
  {
    var s := states[k];
    var Leave(_, id, answer) := s.tasks[t];
    var v: nat :| s.since[t] < v < |s.log| && Entered(s.log, v, answer.at) && !DelHitOk(s.heap, s.log[v], answer.at, id);
    hide Inv, Next, DelHitOk, StayedBehind, Abs, IsRun, Entered, SameSection;
    RunInv(states, steps, k);
    AnsweredBook(s, t);
    j := SpoilingStep(states, steps, k, v, answer.at, id);
    SpoiledInSection(states, steps, j, k, t);
  }

  lemma SpoilingStep(states: seq<State>, steps: seq<Step>, k: nat, v: nat, a: Addr, id: int) returns (j: nat)
    requires IsRun(states, steps) && k < |states| && Entered(states[k].log, v, a) && !DelHitOk(states[k].heap, states[k].log[v], a, id)
    requires a in states[k].heap && states[k].heap[a].book.id == id
    ensures j < k && j < |steps| && Inv(states[j]) && Inv(states[j + 1]) && Next(states[j], steps[j], states[j + 1])
    ensures |states[j].log| == v && |states[j + 1].log| == v + 1
    ensures steps[j].ReplaceStep? && steps[j].t < |states[j].tasks|
    ensures var pc := states[j].tasks[steps[j].t];
            && pc.UpdLocked? && pc.op.Update? && pc.newB == a && pc.id == id
            && Abs(states[j + 1]) != BookList.Updated(Abs(states[j]), pc.id, pc.op.want)
  {
    hide Inv, Next, DelHitOk, Refines, Kept, Abs, IsRun, Entered;
    j := EnteredAt(states, steps, k, v, a);
    EnteredBook(states[j + 1], states[k], a, id);
    MisplacedByReplace(states[j], steps[j], states[j + 1], a, id);
  }

  lemma SpoiledInSection(states: seq<State>, steps: seq<Step>, j: nat, k: nat, t: Tid)
    requires IsRun(states, steps) && j < k < |states| && j < |steps| && states[k].Open(t) && states[k].Sized()
    requires Next(states[j], steps[j], states[j + 1]) && steps[j].ReplaceStep?
    requires states[k].since[t] < |states[j].log| < |states[j + 1].log|
    ensures SameSection(states, t, j, k)
  {
    hide Next, IsRun;
    OpenEverSince(states, steps, j, k, t);
    assert states[j + 1].Open(t);
    OpenBefore(states[j], steps[j], states[j + 1], t);
  }

  // The step with which a node came onto the list.
  lemma EnteredAt(states: seq<State>, steps: seq<Step>, k: nat, v: nat, a: Addr) returns (j: nat)
    requires IsRun(states, steps) && k < |states| && Entered(states[k].log, v, a)
    ensures j < k && j < |steps| && Inv(states[j]) && Inv(states[j + 1]) && Next(states[j], steps[j], states[j + 1])
    ensures Refines(states[j], steps[j], Abs(states[j]), Abs(states[j + 1]))
    ensures states[j].Sized() && |states[j].log| == v && |states[j + 1].log| == v + 1
    ensures a !in states[j].Order() && a in states[j + 1].Order() && states[j + 1].Order() == states[k].log[v]
    ensures Kept(states[j + 1].heap, states[k].heap, v + 1)
  {
    hide Inv, Next, Refines, Kept, Abs;
    j := LogInstant(states, steps, k, v);
    EveryStepRefines(states, steps, j);
    LogNotEmpty(states[j]);
    LogOfRun(states, steps, j, k);
    LogOfRun(states, steps, j + 1, k);
    assert states[j].Order() == states[k].log[v - 1];
  }

  lemma EnteredBook(s': State, s: State, a: Addr, id: int)
    requires Inv(s') && |s'.log| > 0 && a in s'.Order() && Kept(s'.heap, s.heap, |s'.log|)
    requires a in s.heap && s.heap[a].book.id == id
    ensures a in s'.heap && s'.heap[a].book.id == id
    ensures DelHitOk(s.heap, s'.Order(), a, id) <==> DelHitOk(s'.heap, s'.Order(), a, id)
  {
    hide Inv, DelHitOk;
    OrderPublished(s');
    HitKept(s'.heap, s.heap, |s'.log|, s'.Order(), a, id);
  }

  lemma OpenBefore(s: State, step: Step, s': State, t: Tid)
    requires Next(s, step, s') && step.ReplaceStep? && s'.Open(t)
    ensures s.Open(t)
  {
    hide Next;
    MovesOne(s, step, s');
    StaysOpen(s, step, s');
  }

  // ---------- a misplaced answer ----------

  lemma TwoBooks() returns (run: Run)
    ensures run.Valid() && var s := run.Last();
            && s.Sized() && s.lock == None && s.head == To(1) && s.tasks == [Idle, Idle, Idle] && s.log == [[], [0], [1, 0]]
            && s.heap == map[0 := Node(Book(7, "a", "x", false), End, Linked), 1 := Node(Book(3, "b", "x", false), To(0), Linked)]
  {
    run := NoSteps(3);
    run := Adds(run, 0, Book(7, "a", "x", false), 0);
    assert run.Last().log == [[], [0]] && run.Last().Order() == [0] by { assert [0] + [] == [0]; }
    run := Adds(run, 0, Book(3, "b", "x", false), 1);
    assert run.Last().log == [[], [0], [1, 0]] by { assert [1] + [0] == [1, 0]; }
  }

  // Task 1 has chosen the only book with the id, behind another book, and copied it; task 2
  // has started to look for it.
  lemma ReaderAndBorrower() returns (run: Run)
    ensures run.Valid() && var s := run.Last();
            && s.Sized() && s.lock == None && s.head == To(1)
            && s.tasks == [Idle, Copied(Update(true, true), 7, 0, 2), Walk(Print, 7, To(1))]
            && s.log == [[], [0], [1, 0]] && s.since[2] == 2
            && s.heap == map[0 := Node(Book(7, "a", "x", false), End, Linked),
                             1 := Node(Book(3, "b", "x", false), To(0), Linked),
                             2 := Node(Book(7, "a", "x", true), End, Fresh(1))]
  {
    run := TwoBooks();
    hide Run.Valid;
    run := Looks(run, 1, Update(true, true), 7);
    run := Turns(run, 1);
    run := Turns(run, 1);
    run := Copies(run, 1, 2);
    run := Looks(run, 2, Print, 7);
    assert run.Last().tasks == [Idle, Copied(Update(true, true), 7, 0, 2), Walk(Print, 7, To(1))];
  }

  lemma SecondShown() returns (run: Run)
    ensures run.Valid() && var s := run.Last();
            && s.Sized() && |s.tasks| == 3 && s.tasks[2].Leave? && s.tasks[2].op == Print && s.tasks[2].answer.Shown?
            && !WasFirst(s.heap, s.log, s.since[2], s.tasks[2].answer.at, s.tasks[2].id)
  {
    run := ReaderAndBorrower();
    run := Adds(run, 0, Book(7, "c", "x", false), 3);
    var s := run.Last();
    assert s.log == [[], [0], [1, 0], [3, 1, 0]] by { assert [3] + [1, 0] == [3, 1, 0]; }
    assert s.Order() == [3, 1, 0];
    run := Replaces(run, 1, 2);
    s := run.Last();
    assert s.log == [[], [0], [1, 0], [3, 1, 0], [3, 1, 2]] by { assert [3, 1, 0][2 := 2] == [3, 1, 2]; }
    assert s.heap[1].next == To(2) && s.heap[2].book.id == 7 && s.heap[3].book.id == 7;
    run := Turns(run, 2);
    run := Turns(run, 2);
    NeverFirst(run.Last().heap);
  }

  // With overlapping changes a reader can show a book that first-match lookup gives at no
  // instant of the section: a second book with the id goes in front before the borrower
  // replaces the one it has chosen, and the reader, already past the front, finds the copy.
  lemma OverlapShowsSecond() returns (run: Run)
    ensures run.Valid() && var k, s := |run.steps|, run.Last();
            && |s.tasks| == 3 && s.tasks[2].Leave? && s.tasks[2].op == Print && s.tasks[2].answer.Shown?
            && forall i: nat :: SameSection(run.states, 2, i, k) ==>
                 Inv(run.states[i]) && !LookupAnswer(run.states[i], s.tasks[2].id, s.tasks[2].answer)
  {
    run := SecondShown();
    var k, s := |run.steps|, run.Last();
    hide Inv, WasFirst, LookupAnswer, Next;
    forall i: nat | SameSection(run.states, 2, i, k)
      ensures Inv(run.states[i]) && !LookupAnswer(run.states[i], s.tasks[2].id, s.tasks[2].answer)
    {
      RunInv(run.states, run.steps, i);
      var Shown(a, book) := s.tasks[2].answer;
      if LookupAnswer(run.states[i], s.tasks[2].id, s.tasks[2].answer) {
        LookupMeansFirst(run.states, run.steps, i, k, 2, s.tasks[2].id, a, book);
      }
    }
  }

  lemma NeverFirst(heap: Heap)
    requires 3 in heap && heap[3].book.id == 7
    ensures !WasFirst(heap, [[], [0], [1, 0], [3, 1, 0], [3, 1, 2]], 2, 2, 7)
  {
    var log := [[], [0], [1, 0], [3, 1, 0], [3, 1, 2]];
    forall v | 2 <= v < |log| ensures !DelHitOk(heap, log[v], 2, 7) {
      if v == 4 {
        var order := log[4];
        forall k: nat | k < |order| && order[k] == 2 ensures !NoneBefore(heap, order, k, 7) {
          assert order[..2][0] == 3;
        }
      }
    }
  }
}

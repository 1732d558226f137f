/**
 The unsynchronised counter: n threads each run counter++ once, as a load and a later store,
 under every interleaving with each other and with the create and join loops of main.
 */
module Counter {
  import opened Common

  type Tid = nat

  datatype Event = Create | Load(t: Tid) | Store(t: Tid) | Join

  datatype Phase = Ready | Loaded(v: nat) | Done

  // main has created and joined the first `created` and `joined` threads.  The counter is 64
  // bits wide in the program; it never exceeds the number of threads, which main bounds by
  // 127000, so it is a natural number here.
  datatype State = State(counter: nat, created: nat, joined: nat, threads: seq<Phase>)

  function Start(n: nat): State {
    State(0, 0, 0, seq(n, _ => Ready))
  }

  predicate Enabled(s: State, e: Event) {
    match e
    case Create => s.created < |s.threads|
    case Load(t) => t < s.created <= |s.threads| && s.threads[t].Ready?
    case Store(t) => t < |s.threads| && s.threads[t].Loaded?
    case Join => s.created == |s.threads| && s.joined < |s.threads| && s.threads[s.joined].Done?
  }

  function Apply(s: State, e: Event): (s': State)
    requires Enabled(s, e)
  {
    match e
    case Create => s.(created := s.created + 1)
    case Load(t) => s.(threads := s.threads[t := Loaded(s.counter)])
    case Store(t) => s.(counter := s.threads[t].v + 1, threads := s.threads[t := Done])
    case Join => s.(joined := s.joined + 1)
  }

  // The state after a trace of events, or None when an event was not possible.
  function After(n: nat, trace: seq<Event>): Option<State> {
    if trace == [] then Some(Start(n))
    else
      var last := |trace| - 1;
      match After(n, trace[..last])
      case None => None
      case Some(s) => if Enabled(s, trace[last]) then Some(Apply(s, trace[last])) else None
  }

  predicate Legal(n: nat, trace: seq<Event>) {
    After(n, trace).Some?
  }

  // Every thread has been joined, so main prints the counter.
  predicate Complete(n: nat, trace: seq<Event>) {
    Legal(n, trace) && After(n, trace).value.joined == n
  }

  function Printed(n: nat, trace: seq<Event>): nat
    requires Legal(n, trace)
  {
    After(n, trace).value.counter
  }

  function Stores(trace: seq<Event>): nat {
    if trace == [] then 0
    else Stores(trace[..|trace| - 1]) + if trace[|trace| - 1].Store? then 1 else 0
  }

  lemma {:induction false} LegalPrefix(n: nat, trace: seq<Event>, p: nat)
    requires Legal(n, trace) && p <= |trace|
    ensures Legal(n, trace[..p])
    decreases |trace|
  {
    if p == |trace| {
      assert trace[..p] == trace;
    } else {
      LegalPrefix(n, trace[..|trace| - 1], p);
      assert trace[..|trace| - 1][..p] == trace[..p];
    }
  }

  lemma {:induction false} StoresGrow(trace: seq<Event>, p: nat)
    requires p <= |trace|
    ensures Stores(trace[..p]) <= Stores(trace)
    ensures Stores(trace[..p]) == Stores(trace) <==> forall j :: p <= j < |trace| ==> !trace[j].Store?
    decreases |trace|
  {
    if p == |trace| {
      assert trace[..p] == trace;
    } else {
      var front := trace[..|trace| - 1];
      StoresGrow(front, p);
      assert front[..p] == trace[..p];
      assert forall j :: p <= j < |front| ==> front[j] == trace[j];
    }
  }

  // ---------- which traces are runs ----------

  function Creates(trace: seq<Event>): nat {
    if trace == [] then 0
    else Creates(trace[..|trace| - 1]) + if trace[|trace| - 1].Create? then 1 else 0
  }

  function Joins(trace: seq<Event>): nat {
    if trace == [] then 0
    else Joins(trace[..|trace| - 1]) + if trace[|trace| - 1].Join? then 1 else 0
  }

  // An event may follow the events before it: main creates n threads, one after the other; a
  // thread loads once, at any time after its creation, and stores once, at any time after its
  // load; and main joins the threads in their order, each after its store, when it has created
  // them all.
  predicate Allowed(n: nat, before: seq<Event>, e: Event) {
    match e
    case Create => Creates(before) < n
    case Load(t) => t < Creates(before) && Load(t) !in before
    case Store(t) => Load(t) in before && Store(t) !in before
    case Join => Creates(before) == n && Joins(before) < n && Store(Joins(before)) in before
  }

  // The state says which events have been.
  ghost predicate Shows(s: State, n: nat, trace: seq<Event>) {
    && s.created == Creates(trace) <= n && s.joined == Joins(trace) <= n && |s.threads| == n
    && (forall t :: 0 <= t < n ==> (s.threads[t].Ready? <==> Load(t) !in trace))
    && (forall t :: 0 <= t < n ==> (s.threads[t].Done? <==> Store(t) in trace))
    && (forall t: Tid :: Load(t) in trace ==> t < n)
    && (forall t: Tid :: Store(t) in trace ==> t < n && Load(t) in trace)
  }

  lemma ShowsMore(s: State, n: nat, front: seq<Event>, e: Event)
    requires Shows(s, n, front)
    ensures Enabled(s, e) <==> Allowed(n, front, e)
    ensures Enabled(s, e) ==> Shows(Apply(s, e), n, front + [e])
  {
    var trace := front + [e];
    assert trace[..|front|] == front;
    forall f: Event ensures f in trace <==> f in front || f == e {
    }
  }

  lemma {:induction false} StateShows(n: nat, trace: seq<Event>)
    requires Legal(n, trace)
    ensures Shows(After(n, trace).value, n, trace)
  {
    if trace != [] {
      var front, e := trace[..|trace| - 1], trace[|trace| - 1];
      assert trace == front + [e];
      StateShows(n, front);
      ShowsMore(After(n, front).value, n, front, e);
    }
  }

  ghost predicate AllAllowed(n: nat, trace: seq<Event>) {
    forall p :: 0 <= p < |trace| ==> Allowed(n, trace[..p], trace[p])
  }

  lemma AllowedMore(n: nat, front: seq<Event>, e: Event)
    ensures AllAllowed(n, front + [e]) <==> AllAllowed(n, front) && Allowed(n, front, e)
  {
    hide Allowed;
    var trace := front + [e];
    assert trace[..|front|] == front && trace[|front|] == e;
    forall p | 0 <= p < |front| ensures trace[..p] == front[..p] && trace[p] == front[p] {
    }
  }

  // A trace is a run if and only if each of its events may follow those before it.
  lemma {:induction false} LegalExactly(n: nat, trace: seq<Event>)
    ensures Legal(n, trace) <==> AllAllowed(n, trace)
    decreases |trace|
  {
    if trace != [] {
      var front, e := trace[..|trace| - 1], trace[|trace| - 1];
      hide AllAllowed, Allowed, Enabled, Shows;
      assert trace == front + [e];
      LegalExactly(n, front);
      AllowedMore(n, front, e);
      if Legal(n, front) {
        StateShows(n, front);
        ShowsMore(After(n, front).value, n, front, e);
      }
    }
  }

  // ---------- bounds ----------

  function Finished(threads: seq<Phase>): nat {
    if threads == [] then 0
    else Finished(threads[..|threads| - 1]) + if threads[|threads| - 1].Done? then 1 else 0
  }

  lemma {:induction false} FinishedUpdate(threads: seq<Phase>, t: nat, p: Phase)
    requires t < |threads| && !threads[t].Done?
    ensures Finished(threads[t := p]) == Finished(threads) + if p.Done? then 1 else 0
  {
    var last := |threads| - 1;
    if t == last {
      assert threads[t := p][..last] == threads[..last];
    } else {
      FinishedUpdate(threads[..last], t, p);
      assert threads[t := p][..last] == threads[..last][t := p];
    }
  }

  lemma {:induction false} FinishedCount(threads: seq<Phase>)
    ensures Finished(threads) <= |threads|
    ensures (forall t :: 0 <= t < |threads| ==> threads[t].Done?) ==> Finished(threads) == |threads|
    ensures (forall t :: 0 <= t < |threads| ==> threads[t].Ready?) ==> Finished(threads) == 0
  {
    if threads != [] {
      FinishedCount(threads[..|threads| - 1]);
    }
  }

  // In every interleaving the counter and every loaded value are at most the number of
  // stores so far, and the counter is positive once there is a store.
  lemma {:induction false} CounterBounds(n: nat, trace: seq<Event>)
    requires Legal(n, trace)
    ensures var s := After(n, trace).value;
            && |s.threads| == n && s.joined <= s.created <= n
            && s.counter <= Stores(trace) == Finished(s.threads)
            && (Stores(trace) > 0 ==> s.counter > 0)
            && (forall t :: 0 <= t < n && s.threads[t].Loaded? ==> s.threads[t].v <= Stores(trace))
            && (forall t :: 0 <= t < s.joined ==> s.threads[t].Done?)
  {
    if trace == [] {
      FinishedCount(Start(n).threads);
    } else {
      var front, e := trace[..|trace| - 1], trace[|trace| - 1];
      CounterBounds(n, front);
      var s := After(n, front).value;
      match e
      case Load(t) => FinishedUpdate(s.threads, t, Loaded(s.counter));
      case Store(t) => FinishedUpdate(s.threads, t, Done);
      case _ =>
    }
  }

  // The value printed after all joins is in 1..n.
  lemma PrintedBounds(n: nat, trace: seq<Event>)
    requires Complete(n, trace) && n > 0
    ensures 1 <= Printed(n, trace) <= n == Stores(trace)
  {
    CounterBounds(n, trace);
    FinishedCount(After(n, trace).value.threads);
  }

  // ---------- every outcome from 1 to n is possible ----------

  lemma Extend(n: nat, trace: seq<Event>, e: Event)
    requires Legal(n, trace) && Enabled(After(n, trace).value, e)
    ensures After(n, trace + [e]) == Some(Apply(After(n, trace).value, e))
  {
    assert (trace + [e])[..|trace|] == trace;
  }

  // The threads of a state in which the first `done` have stored and the next ones, up to
  // `loaded`, have loaded 0.
  function Split(n: nat, done: nat, loaded: nat): seq<Phase> {
    seq(n, i => if i < done then Done else if i < loaded then Loaded(0) else Ready)
  }

  lemma CreateAll(n: nat) returns (trace: seq<Event>)
    ensures After(n, trace) == Some(State(0, n, 0, Split(n, 0, 0)))
  {
    trace := [];
    assert Start(n).threads == Split(n, 0, 0);
    for i := 0 to n
      invariant After(n, trace) == Some(State(0, i, 0, Split(n, 0, 0)))
    {
      Extend(n, trace, Create);
      trace := trace + [Create];
    }
  }

  lemma LoadTogether(n: nat, before: seq<Event>, m: nat) returns (trace: seq<Event>)
    requires m <= n && After(n, before) == Some(State(0, n, 0, Split(n, 0, 0)))
    ensures After(n, trace) == Some(State(0, n, 0, Split(n, 0, m)))
  {
    trace := before;
    for i := 0 to m
      invariant After(n, trace) == Some(State(0, n, 0, Split(n, 0, i)))
    {
      Extend(n, trace, Load(i));
      assert Split(n, 0, i)[i := Loaded(0)] == Split(n, 0, i + 1);
      trace := trace + [Load(i)];
    }
  }

  lemma StoreTogether(n: nat, before: seq<Event>, m: nat) returns (trace: seq<Event>)
    requires 0 < m <= n && After(n, before) == Some(State(0, n, 0, Split(n, 0, m)))
    ensures After(n, trace) == Some(State(1, n, 0, Split(n, m, m)))
  {
    trace := before;
    for i := 0 to m
      invariant After(n, trace) == Some(State(if i == 0 then 0 else 1, n, 0, Split(n, i, m)))
    {
      Extend(n, trace, Store(i));
      assert Split(n, i, m)[i := Done] == Split(n, i + 1, m);
      trace := trace + [Store(i)];
    }
  }

  lemma OneByOne(n: nat, before: seq<Event>, m: nat) returns (trace: seq<Event>)
    requires 0 < m <= n && After(n, before) == Some(State(1, n, 0, Split(n, m, m)))
    ensures After(n, trace) == Some(State(1 + n - m, n, 0, Split(n, n, n)))
  {
    trace := before;
    for i := m to n
      invariant After(n, trace) == Some(State(1 + i - m, n, 0, Split(n, i, i)))
    {
      Extend(n, trace, Load(i));
      Extend(n, trace + [Load(i)], Store(i));
      assert Split(n, i, i)[i := Loaded(1 + i - m)][i := Done] == Split(n, i + 1, i + 1);
      trace := trace + [Load(i)] + [Store(i)];
    }
  }

  lemma JoinAll(n: nat, before: seq<Event>, c: nat) returns (trace: seq<Event>)
    requires After(n, before) == Some(State(c, n, 0, Split(n, n, n)))
    ensures After(n, trace) == Some(State(c, n, n, Split(n, n, n)))
  {
    trace := before;
    for i := 0 to n
      invariant After(n, trace) == Some(State(c, n, i, Split(n, n, n)))
    {
      Extend(n, trace, Join);
      trace := trace + [Join];
    }
  }

  // Every k in 1..n is printed by some run of n threads.
  lemma EveryOutcomePossible(n: nat, k: nat) returns (trace: seq<Event>)
    requires 1 <= k <= n
    ensures Complete(n, trace) && Printed(n, trace) == k
  {
    var m := n - k + 1;
    trace := CreateAll(n);
    trace := LoadTogether(n, trace, m);
    trace := StoreTogether(n, trace, m);
    trace := OneByOne(n, trace, m);
    trace := JoinAll(n, trace, k);
  }

  // ---------- exactly when no count is lost ----------

  // Where a thread that holds a loaded value has loaded it, and what it found.
  lemma {:induction false} LoadedAt(n: nat, trace: seq<Event>, t: Tid) returns (p: nat)
    requires Legal(n, trace) && t < |After(n, trace).value.threads| && After(n, trace).value.threads[t].Loaded?
    ensures p < |trace| && trace[p] == Load(t) && Legal(n, trace[..p])
    ensures After(n, trace).value.threads[t].v == Printed(n, trace[..p])
  {
    var last := |trace| - 1;
    var front := trace[..last];
    if trace[last] == Load(t) {
      p := last;
    } else {
      p := LoadedAt(n, front, t);
      assert front[..p] == trace[..p];
    }
  }

  // What a thread has done shows in its phase.
  lemma {:induction false} PhaseShows(n: nat, trace: seq<Event>, i: nat)
    requires Legal(n, trace) && i < |trace|
    ensures var s := After(n, trace).value;
            && (trace[i].Load? ==> trace[i].t < |s.threads| && !s.threads[trace[i].t].Ready?)
            && (trace[i].Store? ==> trace[i].t < |s.threads| && s.threads[trace[i].t].Done?)
  {
    var last := |trace| - 1;
    if i < last {
      PhaseShows(n, trace[..last], i);
    }
  }

  // A thread loads and stores once each, and loads before it stores.
  lemma {:induction false} OnceEach(n: nat, trace: seq<Event>, i: nat, j: nat)
    requires Legal(n, trace) && i < j < |trace|
    ensures trace[i].Load? ==> trace[j] != trace[i]
    ensures trace[i].Store? ==> trace[j] != trace[i] && trace[j] != Load(trace[i].t)
  {
    LegalPrefix(n, trace, j + 1);
    var front := trace[..j];
    assert trace[..j + 1][..j] == front && trace[..j + 1][j] == trace[j];
    PhaseShows(n, front, i);
  }

  // Event j falls between the load, at i, and the store, at k, of one thread.
  predicate Within(trace: seq<Event>, i: int, j: int, k: int) {
    0 <= i < j < k < |trace| && trace[i].Load? && trace[k] == Store(trace[i].t)
  }

  // Some store falls between the load and the store of another thread.
  ghost predicate StoreInside(trace: seq<Event>) {
    exists i, j, k :: Within(trace, i, j, k) && trace[j].Store?
  }

  // Some load falls between the load and the store of another thread.
  ghost predicate LoadInside(trace: seq<Event>) {
    exists i, j, k :: Within(trace, i, j, k) && trace[j].Load?
  }

  lemma StoreInsideMore(trace: seq<Event>, e: Event)
    ensures StoreInside(trace) ==> StoreInside(trace + [e])
    ensures !e.Store? && StoreInside(trace + [e]) ==> StoreInside(trace)
  {
    var more := trace + [e];
    if StoreInside(trace) {
      var i, j, k :| Within(trace, i, j, k) && trace[j].Store?;
      assert Within(more, i, j, k) && more[j] == trace[j];
    }
    if !e.Store? && StoreInside(more) {
      var i, j, k :| Within(more, i, j, k) && more[j].Store?;
      assert Within(trace, i, j, k) && trace[j] == more[j];
    }
  }

  // A last store adds an intrusion exactly when another store has come since its load.
  lemma StoreInsideLast(n: nat, trace: seq<Event>, t: Tid, p: nat)
    requires Legal(n, trace + [Store(t)]) && p < |trace| && trace[p] == Load(t)
    ensures StoreInside(trace + [Store(t)]) <==> StoreInside(trace) || exists j :: p < j < |trace| && trace[j].Store?
  {
    var more := trace + [Store(t)];
    StoreInsideMore(trace, Store(t));
    if j :| p < j < |trace| && trace[j].Store? {
      assert Within(more, p, j, |trace|) && more[j].Store?;
    }
    if StoreInside(more) {
      var i, j, k :| Within(more, i, j, k) && more[j].Store?;
      assert more[i] == trace[i] && more[j] == trace[j];
      if k < |trace| {
        assert Within(trace, i, j, k);
      } else {
        assert more[p] == trace[p] == Load(t) == more[i];
        if i < p {
          OnceEach(n, more, i, p);
        } else if p < i {
          OnceEach(n, more, p, i);
        }
      }
    }
  }

  // After every trace, the counter equals the number of stores exactly when no store has
  // fallen between the load and the store of another thread.
  lemma {:induction false} LosslessSoFar(n: nat, trace: seq<Event>)
    requires Legal(n, trace)
    ensures Printed(n, trace) == Stores(trace) <==> !StoreInside(trace)
    decreases |trace|
  {
    if trace != [] {
      var front, e := trace[..|trace| - 1], trace[|trace| - 1];
      assert trace == front + [e];
      LosslessSoFar(n, front);
      StoreInsideMore(front, e);
      if e.Store? {
        LosslessStore(n, front, e.t);
      }
    }
  }

  lemma LosslessStore(n: nat, front: seq<Event>, t: Tid)
    requires Legal(n, front + [Store(t)])
    requires Legal(n, front) && (Printed(n, front) == Stores(front) <==> !StoreInside(front))
    ensures Printed(n, front + [Store(t)]) == Stores(front + [Store(t)]) <==> !StoreInside(front + [Store(t)])
  {
    var trace := front + [Store(t)];
    assert trace[..|front|] == front;
    var p := LoadedAt(n, front, t);
    StoreInsideLast(n, front, t, p);
    CounterBounds(n, front[..p]);
    StoresGrow(front, p);
    if forall j :: p <= j < |front| ==> !front[j].Store? {
      QuietCounter(n, front, p);
    } else {
      var j :| p <= j < |front| && front[j].Store?;
      assert j != p;
    }
  }

  // The counter only changes by stores.
  lemma {:induction false} QuietCounter(n: nat, trace: seq<Event>, p: nat)
    requires Legal(n, trace) && p <= |trace| && Legal(n, trace[..p])
    requires forall j :: p <= j < |trace| ==> !trace[j].Store?
    ensures Printed(n, trace[..p]) == Printed(n, trace)
    decreases |trace|
  {
    if p == |trace| {
      assert trace[..p] == trace;
    } else {
      var front := trace[..|trace| - 1];
      assert front[..p] == trace[..p];
      QuietCounter(n, front, p);
    }
  }

  // In a complete run every thread that loads also stores, later.
  lemma StoredLater(n: nat, trace: seq<Event>, i: nat) returns (k: nat)
    requires Complete(n, trace) && i < |trace| && trace[i].Load?
    ensures i < k < |trace| && trace[k] == Store(trace[i].t)
  {
    CounterBounds(n, trace);
    PhaseShows(n, trace, i);
    k := DoneByStore(n, trace, trace[i].t);
    if k < i {
      OnceEach(n, trace, k, i);
    }
  }

  lemma {:induction false} DoneByStore(n: nat, trace: seq<Event>, t: Tid) returns (k: nat)
    requires Legal(n, trace) && t < |After(n, trace).value.threads| && After(n, trace).value.threads[t].Done?
    ensures k < |trace| && trace[k] == Store(t)
  {
    var last := |trace| - 1;
    if trace[last] == Store(t) {
      k := last;
    } else {
      k := DoneByStore(n, trace[..last], t);
    }
  }

  lemma {:induction false} LoadedBefore(n: nat, trace: seq<Event>, k: nat) returns (i: nat)
    requires Legal(n, trace) && k < |trace| && trace[k].Store?
    ensures i < k && trace[i] == Load(trace[k].t)
  {
    LegalPrefix(n, trace, k + 1);
    LegalPrefix(n, trace, k);
    assert trace[..k + 1][..k] == trace[..k];
    i := LoadedAt(n, trace[..k], trace[k].t);
  }

  lemma StoreInsideHasLoad(n: nat, trace: seq<Event>)
    requires Legal(n, trace) && StoreInside(trace)
    ensures LoadInside(trace)
  {
    var i, j, k :| Within(trace, i, j, k) && trace[j].Store?;
    var l := LoadedBefore(n, trace, j);
    if l == i {
      OnceEach(n, trace, j, k);
    } else if l < i {
      assert Within(trace, l, i, j) && trace[i].Load?;
    } else {
      assert Within(trace, i, l, k) && trace[l].Load?;
    }
  }

  lemma LoadInsideHasStore(n: nat, trace: seq<Event>)
    requires Complete(n, trace) && LoadInside(trace)
    ensures StoreInside(trace)
  {
    var i, j, k :| Within(trace, i, j, k) && trace[j].Load?;
    var m := StoredLater(n, trace, j);
    if m < k {
      assert Within(trace, i, m, k) && trace[m].Store?;
    } else if m > k {
      assert Within(trace, j, k, m) && trace[k].Store?;
    } else {
      OnceEach(n, trace, i, j);
    }
  }

  // The run prints n, as n increments by one thread would, if and only if no thread loads
  // between the load and the store of another thread.
  lemma LosslessExactly(n: nat, trace: seq<Event>)
    requires Complete(n, trace) && n > 0
    ensures Printed(n, trace) == n <==> !LoadInside(trace)
  {
    PrintedBounds(n, trace);
    LosslessSoFar(n, trace);
    if StoreInside(trace) {
      StoreInsideHasLoad(n, trace);
    }
    if LoadInside(trace) {
      LoadInsideHasStore(n, trace);
    }
  }

  // ---------- the reads-from chain ----------

  // The last store before position p.
  function LastStore(trace: seq<Event>, p: nat): (k: Option<nat>)
    requires p <= |trace|
    ensures k.Some? ==> k.value < p && trace[k.value].Store? && forall j :: k.value < j < p ==> !trace[j].Store?
    ensures k.None? ==> forall j :: 0 <= j < p ==> !trace[j].Store?
  {
    if p == 0 then None
    else if trace[p - 1].Store? then Some(p - 1)
    else LastStore(trace, p - 1)
  }

  // The last load of thread t before position p.
  function LastLoad(trace: seq<Event>, p: nat, t: Tid): (i: Option<nat>)
    requires p <= |trace|
    ensures i.Some? ==> i.value < p && trace[i.value] == Load(t)
    ensures i.None? ==> forall j :: 0 <= j < p ==> trace[j] != Load(t)
  {
    if p == 0 then None
    else if trace[p - 1] == Load(t) then Some(p - 1)
    else LastLoad(trace, p - 1, t)
  }

  // The number of stores on the chain that ends at the store at position k: that store, the
  // store its load read from, and so on back to the initial value.
  function ChainLength(trace: seq<Event>, k: nat): nat
    requires k < |trace| && trace[k].Store?
    decreases k
  {
    match LastLoad(trace, k, trace[k].t)
    case None => 0
    case Some(i) => 1 + ChainBefore(trace, i)
  }

  // The chain that the value of the counter before position p stems from.
  function ChainBefore(trace: seq<Event>, p: nat): nat
    requires p <= |trace|
    decreases p, 0
  {
    match LastStore(trace, p)
    case None => 0
    case Some(k) => ChainLength(trace, k)
  }

  // At every instant of every run the counter is the length of the reads-from chain that
  // ends at the last store.
  lemma {:induction false} CounterIsChain(n: nat, trace: seq<Event>, p: nat)
    requires Legal(n, trace) && p <= |trace|
    ensures Legal(n, trace[..p]) && Printed(n, trace[..p]) == ChainBefore(trace, p)
    decreases p
  {
    LegalPrefix(n, trace, p);
    if p > 0 {
      var front := trace[..p - 1];
      assert trace[..p][..p - 1] == front;
      CounterIsChain(n, trace, p - 1);
      if trace[p - 1].Store? {
        var t := trace[p - 1].t;
        var i := LoadedAt(n, front, t);
        assert front[..i] == trace[..i];
        CounterIsChain(n, trace, i);
        var l := LastLoad(trace, p - 1, t);
        if l.value < i {
          OnceEach(n, trace, l.value, i);
        } else if i < l.value {
          OnceEach(n, trace, i, l.value);
        }
      }
    }
  }

  // ---------- the single-threaded reference ----------

  // The counting loop of the single-threaded program, with its 64-bit counter.
  method CountAlone(count: nat) returns (counter: nat)
    ensures counter == count % 0x1_0000_0000_0000_0000
    ensures count < 0x1_0000_0000_0000_0000 ==> counter == count
  {
    counter := 0;
    for i := 0 to count
      invariant counter == i % 0x1_0000_0000_0000_0000
    {
      counter := (counter + 1) % 0x1_0000_0000_0000_0000;
    }
  }
}

/**
 The control skeleton of the book operations: the lock, the read-side sections and the grace
 periods, without the memory.  A search may take any number of turns and may end either way,
 so the results hold whatever the list looks like, for any mix of operations by any number
 of tasks, also where list_replace_rcu is called outside its contract.
 */
module RcuSkeleton {
  import opened Common
  import opened RcuModel

  // Where a task stands.  The flag is the async argument of the operation; a search has one
  // if it is that of borrow_book or return_book.
  datatype Spot =
    | Resting
    | Searching(update: Option<bool>)
    | Leaving
    | Chosen(async: bool)
    | Replacing(async: bool)
    | Swapped(async: bool)
    | Unlocked(async: bool)
    | Adding
    | AddHolds
    | Finishing
    | DelWants(async: bool)
    | DelHolds(async: bool)
    | DelFound(async: bool)
    | Reclaiming(async: bool)
    | Waiting(ticket: nat)
    | Freeing
  {
    predicate InSection() {
      Searching? || Leaving? || Chosen? || Replacing? || Swapped? || Unlocked?
    }

    predicate HoldsLock() {
      Replacing? || Swapped? || AddHolds? || Finishing? || DelHolds? || DelFound?
    }

    // The next step is spin_lock.
    predicate WantsLock() {
      Chosen? || Adding? || DelWants?
    }

    // The steps up to the end of the operation, turns of searches aside.  A grace period
    // that is left behind counts as one.
    function Left(): nat {
      match this
      case Resting => 0
      case Leaving => 1
      case Finishing => 1
      case Freeing => 1
      case AddHolds => 2
      case Waiting(_) => 2
      case Adding => 3
      case Reclaiming(_) => 4
      case Unlocked(_) => 5
      case DelFound(_) => 5
      case Swapped(_) => 6
      case DelHolds(_) => 6
      case DelWants(_) => 7
      case Replacing(_) => 7
      case Chosen(_) => 8
      case Searching(_) => 9
    }
  }

  // waits holds, for each grace period under way, the sections it still waits for.
  datatype Control = Control(lock: Option<Tid>, tasks: seq<Spot>, waits: map<nat, set<Tid>>) {
    function Sections(): set<Tid> {
      set t | 0 <= t < |tasks| && tasks[t].InSection()
    }

    function At(t: Tid, spot: Spot): Control
      requires t < |tasks|
    {
      this.(tasks := tasks[t := spot])
    }

    predicate Quiescent() {
      (forall t :: 0 <= t < |tasks| ==> tasks[t] == Resting) && waits == map[]
    }
  }

  datatype Move =
    | Begin(t: Tid, first: Spot)
    | Work(t: Tid, next: Spot)
    | TakeLock(t: Tid)
    | DropLock(t: Tid)
    | Exit(t: Tid)
    | StartGrace(t: Tid, ticket: nat)
    | EndGrace(t: Tid)
    | RunCallback(ticket: nat)

  predicate FirstSpot(spot: Spot) {
    spot.Searching? || spot.Adding? || spot.DelWants?
  }

  // Moves that touch neither the lock, nor sections, nor grace periods.
  predicate WorkTo(spot: Spot, next: Spot) {
    match spot
    case Searching(update) => next == spot || next == Leaving || (update.Some? && next == Chosen(update.value))
    case Replacing(async) => next == Swapped(async)
    case AddHolds => next == Finishing
    case DelHolds(async) => next == spot || next == Finishing || next == DelFound(async)
    case Freeing => next == Resting
    case _ => false
  }

  function Locked(spot: Spot): Spot
    requires spot.WantsLock()
  {
    match spot
    case Chosen(async) => Replacing(async)
    case Adding => AddHolds
    case DelWants(async) => DelHolds(async)
  }

  function Dropped(spot: Spot): Option<Spot> {
    match spot
    case Swapped(async) => Some(Unlocked(async))
    case DelFound(async) => Some(Reclaiming(async))
    case Finishing => Some(Resting)
    case _ => None
  }

  function Exited(spot: Spot): Option<Spot> {
    match spot
    case Leaving => Some(Resting)
    case Unlocked(async) => Some(Reclaiming(async))
    case _ => None
  }

  ghost predicate Next(c: Control, m: Move, c': Control) {
    match m
    case Begin(t, first) =>
      t < |c.tasks| && c.tasks[t] == Resting && FirstSpot(first) && c' == c.At(t, first)
    case Work(t, next) =>
      t < |c.tasks| && WorkTo(c.tasks[t], next) && c' == c.At(t, next)
    case TakeLock(t) =>
      && t < |c.tasks| && c.tasks[t].WantsLock() && c.lock == None
      && c' == c.At(t, Locked(c.tasks[t])).(lock := Some(t))
    case DropLock(t) =>
      && t < |c.tasks| && Dropped(c.tasks[t]).Some?
      && c' == c.At(t, Dropped(c.tasks[t]).value).(lock := None)
    case Exit(t) =>
      && t < |c.tasks| && Exited(c.tasks[t]).Some?
      && c' == c.At(t, Exited(c.tasks[t]).value).(waits := map g | g in c.waits :: c.waits[g] - {t})
    case StartGrace(t, ticket) =>
      && t < |c.tasks| && c.tasks[t].Reclaiming? && ticket !in c.waits
      && c' == c.At(t, if c.tasks[t].async then Resting else Waiting(ticket)).(waits := c.waits[ticket := c.Sections()])
    case EndGrace(t) =>
      && t < |c.tasks| && c.tasks[t].Waiting?
      && var ticket := c.tasks[t].ticket;
      && ticket in c.waits && c.waits[ticket] == {}
      && c' == c.At(t, Freeing).(waits := c.waits - {ticket})
    case RunCallback(ticket) =>
      && ticket in c.waits && c.waits[ticket] == {}
      && (forall t :: 0 <= t < |c.tasks| ==> c.tasks[t] != Waiting(ticket))
      && c' == c.(waits := c.waits - {ticket})
  }

  ghost predicate Init(c: Control) {
    c.lock == None && c.waits == map[] && forall t :: 0 <= t < |c.tasks| ==> c.tasks[t] == Resting
  }

  ghost predicate IsRunFrom(controls: seq<Control>, moves: seq<Move>) {
    && |controls| == |moves| + 1
    && forall i :: 0 <= i < |moves| ==> Next(controls[i], moves[i], controls[i + 1])
  }

  ghost predicate IsRun(controls: seq<Control>, moves: seq<Move>) {
    IsRunFrom(controls, moves) && Init(controls[0])
  }

  // ---------- the invariant ----------

  ghost predicate LockOk(c: Control) {
    && (forall t :: 0 <= t < |c.tasks| ==> (c.tasks[t].HoldsLock() <==> c.lock == Some(t)))
    && (c.lock.Some? ==> c.lock.value < |c.tasks|)
  }

  ghost predicate WaitsOk(c: Control) {
    forall g :: g in c.waits ==> c.waits[g] <= c.Sections()
  }

  ghost predicate TicketsOk(c: Control) {
    && (forall t :: 0 <= t < |c.tasks| && c.tasks[t].Waiting? ==> c.tasks[t].ticket in c.waits)
    && (forall t, u :: 0 <= t < u < |c.tasks| && c.tasks[t].Waiting? ==> c.tasks[t] != c.tasks[u])
  }

  ghost predicate Inv(c: Control) {
    LockOk(c) && WaitsOk(c) && TicketsOk(c)
  }

  lemma KeepsLockOk(c: Control, m: Move, c': Control)
    requires LockOk(c) && Next(c, m, c')
    ensures LockOk(c')
  {
  }

  lemma KeepsWaitsOk(c: Control, m: Move, c': Control)
    requires WaitsOk(c) && Next(c, m, c')
    ensures WaitsOk(c')
  {
    forall g, u | g in c'.waits && u in c'.waits[g] ensures u in c'.Sections() {
      assert u in c.Sections();
    }
  }

  lemma KeepsTicketsOk(c: Control, m: Move, c': Control)
    requires TicketsOk(c) && Next(c, m, c')
    ensures TicketsOk(c')
  {
  }

  lemma {:induction false} RunInv(controls: seq<Control>, moves: seq<Move>, k: nat)
    requires IsRun(controls, moves) && k < |controls|
    ensures Inv(controls[k])
  {
    hide Next;
    if k > 0 {
      RunInv(controls, moves, k - 1);
      hide LockOk, WaitsOk, TicketsOk;
      KeepsLockOk(controls[k - 1], moves[k - 1], controls[k]);
      KeepsWaitsOk(controls[k - 1], moves[k - 1], controls[k]);
      KeepsTicketsOk(controls[k - 1], moves[k - 1], controls[k]);
    }
  }

  // ---------- who waits for whom ----------

  // Task t cannot go on before task u does.
  predicate WaitsFor(c: Control, t: Tid, u: Tid) {
    && t < |c.tasks|
    && ((c.tasks[t].WantsLock() && c.lock == Some(u))
        || (c.tasks[t].Waiting? && c.tasks[t].ticket in c.waits && u in c.waits[c.tasks[t].ticket]))
  }

  // Waiting always leads from a higher to a lower rank.
  function Rank(c: Control, t: Tid): nat {
    if t >= |c.tasks| then 3
    else if c.tasks[t].HoldsLock() then 0
    else if c.tasks[t].InSection() then 1
    else 2
  }

  lemma WaitingDescends(c: Control, t: Tid, u: Tid)
    requires Inv(c) && WaitsFor(c, t, u)
    ensures u < |c.tasks| && Rank(c, u) < Rank(c, t) && c.tasks[u] != Resting
  {
    if c.tasks[t].Waiting? {
      assert u in c.Sections();
    }
  }

  // A sequence of tasks each of which waits for the next.
  ghost predicate WaitChain(c: Control, chain: seq<Tid>) {
    forall i, j :: 0 <= i < |chain| && j == i + 1 < |chain| ==> WaitsFor(c, chain[i], chain[j])
  }

  lemma {:induction false} ChainDescends(c: Control, chain: seq<Tid>, i: nat)
    requires Inv(c) && WaitChain(c, chain) && 0 < i < |chain|
    ensures Rank(c, chain[i]) < Rank(c, chain[0])
  {
    hide Inv, WaitsFor, Rank;
    assert WaitsFor(c, chain[i - 1], chain[i]);
    WaitingDescends(c, chain[i - 1], chain[i]);
    if i > 1 {
      ChainDescends(c, chain, i - 1);
    }
  }

  // In no reachable state do tasks wait for each other in a circle.
  lemma NoWaitCycle(controls: seq<Control>, moves: seq<Move>, k: nat, chain: seq<Tid>)
    requires IsRun(controls, moves) && k < |controls| && |chain| > 1 && chain[0] == chain[|chain| - 1]
    ensures !WaitChain(controls[k], chain)
  {
    hide Inv, Next;
    RunInv(controls, moves, k);
    if WaitChain(controls[k], chain) {
      ChainDescends(controls[k], chain, |chain| - 1);
    }
  }

  // A task that waits for a grace period, is about to, or has, holds neither the lock nor a
  // section; and a task at rest has given back both.
  lemma WaiterHoldsNothing(controls: seq<Control>, moves: seq<Move>, k: nat, t: Tid)
    requires IsRun(controls, moves) && k < |controls| && t < |controls[k].tasks|
    requires var spot := controls[k].tasks[t]; spot.Reclaiming? || spot.Waiting? || spot.Freeing? || spot.Resting?
    ensures controls[k].lock != Some(t)
    ensures forall g :: g in controls[k].waits ==> t !in controls[k].waits[g]
  {
    hide Next;
    RunInv(controls, moves, k);
    assert t !in controls[k].Sections();
  }

  // ---------- progress ----------

  function LeftOf(tasks: seq<Spot>): nat {
    if tasks == [] then 0 else LeftOf(tasks[..|tasks| - 1]) + tasks[|tasks| - 1].Left()
  }

  // The steps that all operations under way still have to take, turns of searches aside.
  function Left(c: Control): nat {
    LeftOf(c.tasks) + |c.waits|
  }

  lemma {:induction false} LeftMoves(tasks: seq<Spot>, t: Tid, spot: Spot)
    requires t < |tasks|
    ensures LeftOf(tasks[t := spot]) + tasks[t].Left() == LeftOf(tasks) + spot.Left()
  {
    var last := |tasks| - 1;
    if t < last {
      LeftMoves(tasks[..last], t, spot);
      assert tasks[t := spot][..last] == tasks[..last][t := spot];
    } else {
      assert tasks[t := spot][..last] == tasks[..last];
    }
  }

  lemma {:induction false} NothingLeft(tasks: seq<Spot>)
    ensures LeftOf(tasks) == 0 <==> forall t :: 0 <= t < |tasks| ==> tasks[t] == Resting
  {
    if tasks != [] {
      var last := |tasks| - 1;
      NothingLeft(tasks[..last]);
      assert forall t :: 0 <= t < last ==> tasks[..last][t] == tasks[t];
      assert tasks[last].Left() == 0 <==> tasks[last] == Resting;
    }
  }

  lemma FewerGraces(waits: map<nat, set<Tid>>, g: nat)
    requires g in waits
    ensures |waits - {g}| == |waits| - 1
  {
    assert (waits - {g}).Keys == waits.Keys - {g};
  }

  lemma MoreGraces(waits: map<nat, set<Tid>>, g: nat, sections: set<Tid>)
    requires g !in waits
    ensures |waits[g := sections]| == |waits| + 1
  {
    assert waits[g := sections].Keys == waits.Keys + {g};
  }

  lemma AsManyGraces(waits: map<nat, set<Tid>>, waits': map<nat, set<Tid>>)
    requires waits.Keys == waits'.Keys
    ensures |waits| == |waits'|
  {
  }

  // How many grace periods a step adds.
  lemma GraceCount(c: Control, m: Move, c': Control)
    requires Next(c, m, c')
    ensures |c'.waits| == |c.waits| + GraceChange(m)
  {
    hide Next;
    if m.StartGrace? {
      GraceStarts(c, m.t, m.ticket, c');
    } else if m.EndGrace? {
      GraceEnds(c, m.t, c');
    } else if m.RunCallback? {
      CallbackEnds(c, m.ticket, c');
    } else {
      SameGraces(c, m, c');
      AsManyGraces(c.waits, c'.waits);
    }
  }

  lemma GraceStarts(c: Control, t: Tid, ticket: nat, c': Control)
    requires Next(c, StartGrace(t, ticket), c')
    ensures |c'.waits| == |c.waits| + 1
  {
    MoreGraces(c.waits, ticket, c.Sections());
  }

  lemma GraceEnds(c: Control, t: Tid, c': Control)
    requires Next(c, EndGrace(t), c')
    ensures |c'.waits| == |c.waits| - 1
  {
    FewerGraces(c.waits, c.tasks[t].ticket);
  }

  lemma CallbackEnds(c: Control, ticket: nat, c': Control)
    requires Next(c, RunCallback(ticket), c')
    ensures |c'.waits| == |c.waits| - 1
  {
    FewerGraces(c.waits, ticket);
  }

  lemma SameGraces(c: Control, m: Move, c': Control)
    requires Next(c, m, c') && GraceChange(m) == 0
    ensures c'.waits.Keys == c.waits.Keys
  {
    hide Locked, Dropped, Exited, WorkTo, FirstSpot;
  }

  function GraceChange(m: Move): int {
    if m.StartGrace? then 1 else if m.EndGrace? || m.RunCallback? then -1 else 0
  }

  lemma TaskComesNearer(c: Control, m: Move, c': Control)
    requires Next(c, m, c') && !m.Begin? && !m.RunCallback?
    ensures m.t < |c.tasks| == |c'.tasks| && c'.tasks == c.tasks[m.t := c'.tasks[m.t]]
    ensures c' == c || c'.tasks[m.t].Left() + GraceChange(m) < c.tasks[m.t].Left()
  {
    if m.Work? && c.tasks[m.t] == m.next {
      assert c' == c;
    }
  }

  // Every step of an operation under way brings its end nearer, unless it is one more turn
  // of a search, which changes nothing.
  lemma StepComesNearer(c: Control, m: Move, c': Control)
    requires Next(c, m, c') && !m.Begin?
    ensures c' == c || Left(c') < Left(c)
  {
    hide LeftOf;
    GraceCount(c, m, c');
    if !m.RunCallback? {
      TaskComesNearer(c, m, c');
      hide Next, Spot.Left;
      LeftMoves(c.tasks, m.t, c'.tasks[m.t]);
    }
  }

  predicate Blocked(c: Control, t: Tid) {
    && t < |c.tasks|
    && ((c.tasks[t].WantsLock() && c.lock.Some?)
        || (c.tasks[t].Waiting? && c.tasks[t].ticket in c.waits && c.waits[c.tasks[t].ticket] != {}))
  }

  // Following the waits from any task under way ends at one that is not blocked.
  lemma {:induction false} SomeoneUnblocked(c: Control, t: Tid) returns (chain: seq<Tid>)
    requires Inv(c) && t < |c.tasks| && c.tasks[t] != Resting
    ensures |chain| > 0 && chain[0] == t && WaitChain(c, chain)
    ensures var u := chain[|chain| - 1]; u < |c.tasks| && c.tasks[u] != Resting && !Blocked(c, u)
    decreases Rank(c, t)
  {
    hide Inv, Rank;
    chain := [t];
    if Blocked(c, t) {
      var u;
      if c.tasks[t].WantsLock() {
        u := c.lock.value;
      } else {
        u :| u in c.waits[c.tasks[t].ticket];
      }
      WaitingDescends(c, t, u);
      var rest := SomeoneUnblocked(c, u);
      chain := [t] + rest;
      LongerChain(c, t, rest);
    }
  }

  lemma LongerChain(c: Control, t: Tid, rest: seq<Tid>)
    requires |rest| > 0 && WaitsFor(c, t, rest[0]) && WaitChain(c, rest)
    ensures WaitChain(c, [t] + rest)
  {
    hide WaitsFor;
    var chain := [t] + rest;
    forall i, j | 0 <= i < |chain| && j == i + 1 < |chain| ensures WaitsFor(c, chain[i], chain[j]) {
      if i > 0 {
        assert WaitsFor(c, rest[i - 1], rest[j - 1]);
      }
    }
  }

  lemma FreshTicket(waits: map<nat, set<Tid>>) returns (ticket: nat)
    ensures ticket !in waits
  {
    ticket := Above(waits.Keys);
  }

  lemma {:induction false} Above(s: set<nat>) returns (n: nat)
    ensures forall x :: x in s ==> x < n
  {
    n := 0;
    if x :| x in s {
      var rest := Above(s - {x});
      n := if rest <= x then x + 1 else rest;
      assert forall y :: y in s ==> y == x || y in s - {x};
    }
  }

  lemma LockGoesOn(c: Control, t: Tid) returns (m: Move, c': Control)
    requires t < |c.tasks|
    requires (c.tasks[t].WantsLock() && c.lock == None) || Dropped(c.tasks[t]).Some?
    ensures Next(c, m, c') && !m.Begin? && c' != c
  {
    var spot := c.tasks[t];
    if spot.WantsLock() {
      m, c' := TakeLock(t), c.At(t, Locked(spot)).(lock := Some(t));
    } else {
      m, c' := DropLock(t), c.At(t, Dropped(spot).value).(lock := None);
    }
    assert c'.tasks[t] != spot;
  }

  lemma SectionGoesOn(c: Control, t: Tid) returns (m: Move, c': Control)
    requires t < |c.tasks| && Exited(c.tasks[t]).Some?
    ensures Next(c, m, c') && !m.Begin? && c' != c
  {
    m := Exit(t);
    c' := c.At(t, Exited(c.tasks[t]).value).(waits := map g | g in c.waits :: c.waits[g] - {t});
    assert c'.tasks[t] != c.tasks[t];
  }

  lemma GraceGoesOn(c: Control, t: Tid) returns (m: Move, c': Control)
    requires TicketsOk(c) && t < |c.tasks| && !Blocked(c, t) && (c.tasks[t].Reclaiming? || c.tasks[t].Waiting?)
    ensures Next(c, m, c') && !m.Begin? && c' != c
  {
    var spot := c.tasks[t];
    if spot.Reclaiming? {
      var ticket := FreshTicket(c.waits);
      m := StartGrace(t, ticket);
      c' := c.At(t, if spot.async then Resting else Waiting(ticket)).(waits := c.waits[ticket := c.Sections()]);
    } else {
      m, c' := EndGrace(t), c.At(t, Freeing).(waits := c.waits - {spot.ticket});
    }
    assert c'.tasks[t] != spot;
  }

  lemma WorkGoesOn(c: Control, t: Tid) returns (m: Move, c': Control)
    requires t < |c.tasks|
    requires var spot := c.tasks[t];
             spot.Searching? || spot.Replacing? || spot.AddHolds? || spot.DelHolds? || spot.Freeing?
    ensures Next(c, m, c') && !m.Begin? && c' != c
  {
    var next :=
      match c.tasks[t]
      case Searching(_) => Leaving
      case Replacing(async) => Swapped(async)
      case Freeing => Resting
      case _ => Finishing;
    m, c' := Work(t, next), c.At(t, next);
    assert c'.tasks[t] != c.tasks[t];
  }

  // A task under way that is not blocked can take a step that is not just one more turn.
  lemma UnblockedGoesOn(c: Control, t: Tid) returns (m: Move, c': Control)
    requires Inv(c) && t < |c.tasks| && c.tasks[t] != Resting && !Blocked(c, t)
    ensures Next(c, m, c') && !m.Begin? && c' != c
  {
    hide Next;
    var spot := c.tasks[t];
    if spot.WantsLock() || Dropped(spot).Some? {
      m, c' := LockGoesOn(c, t);
    } else if Exited(spot).Some? {
      m, c' := SectionGoesOn(c, t);
    } else if spot.Reclaiming? || spot.Waiting? {
      m, c' := GraceGoesOn(c, t);
    } else {
      m, c' := WorkGoesOn(c, t);
    }
  }

  // Unless everything is at rest, some operation under way can take a step.
  lemma NeverStuck(c: Control) returns (m: Move, c': Control)
    requires Inv(c) && !c.Quiescent()
    ensures Next(c, m, c') && !m.Begin? && c' != c
  {
    hide Next;
    if t: nat :| t < |c.tasks| && c.tasks[t] != Resting {
      var chain := SomeoneUnblocked(c, t);
      m, c' := UnblockedGoesOn(c, chain[|chain| - 1]);
    } else {
      m, c' := CallbackGoesOn(c);
    }
  }

  lemma CallbackGoesOn(c: Control) returns (m: Move, c': Control)
    requires Inv(c) && !c.Quiescent() && forall t :: 0 <= t < |c.tasks| ==> c.tasks[t] == Resting
    ensures Next(c, m, c') && !m.Begin? && c' != c
  {
    var g :| g in c.waits;
    assert c.Sections() == {};
    m, c' := RunCallback(g), c.(waits := c.waits - {g});
    assert g !in c'.waits;
  }

  // From a state that satisfies the invariant, a continuation that begins nothing new brings
  // everything to rest, in at most Left(c) steps.
  lemma {:induction false} Finishes(c: Control) returns (controls: seq<Control>, moves: seq<Move>)
    requires Inv(c)
    ensures IsRunFrom(controls, moves) && controls[0] == c && |moves| <= Left(c)
    ensures controls[|moves|].Quiescent()
    ensures forall i :: 0 <= i < |moves| ==> !moves[i].Begin?
    decreases Left(c)
  {
    hide Next, LeftOf, Left;
    controls, moves := [c], [];
    if !c.Quiescent() {
      var m, c' := NeverStuck(c);
      StepComesNearer(c, m, c');
      hide LockOk, WaitsOk, TicketsOk, Control.Quiescent;
      KeepsLockOk(c, m, c');
      KeepsWaitsOk(c, m, c');
      KeepsTicketsOk(c, m, c');
      var rest, more := Finishes(c');
      controls, moves := [c] + rest, [m] + more;
      forall i | 0 <= i < |moves| ensures Next(controls[i], moves[i], controls[i + 1]) {
        assert i > 0 ==> Next(rest[i - 1], more[i - 1], rest[i - 1 + 1]);
      }
    }
  }

  // Whatever has happened, every operation under way can be brought to its end.
  lemma ReachableFinishes(controls: seq<Control>, moves: seq<Move>, k: nat)
      returns (rest: seq<Control>, more: seq<Move>)
    requires IsRun(controls, moves) && k < |controls|
    ensures IsRunFrom(rest, more) && rest[0] == controls[k] && rest[|more|].Quiescent()
    ensures forall i :: 0 <= i < |more| ==> !more[i].Begin?
  {
    hide Next, Inv;
    RunInv(controls, moves, k);
    rest, more := Finishes(controls[k]);
  }

  // The steps of a run that are not turns of a search.
  function Advances(controls: seq<Control>): nat {
    if |controls| < 2 then 0
    else
      var last := |controls| - 1;
      Advances(controls[..last]) + if controls[last] == controls[last - 1] then 0 else 1
  }

  // In every run that begins nothing new, whatever the scheduler does, at most Left(c) steps
  // are anything but turns of searches.
  lemma {:induction false} BoundedWork(controls: seq<Control>, moves: seq<Move>)
    requires IsRunFrom(controls, moves) && forall i :: 0 <= i < |moves| ==> !moves[i].Begin?
    ensures Left(controls[|moves|]) + Advances(controls) <= Left(controls[0])
  {
    hide Next, Left;
    if moves != [] {
      var last := |moves| - 1;
      BoundedWork(controls[..last + 1], moves[..last]);
      assert Next(controls[last], moves[last], controls[last + 1]);
      StepComesNearer(controls[last], moves[last], controls[last + 1]);
    }
  }
}

/**
 Serialised updates, with any number of readers beside them: the updaters then act on the
 list, and the readers see it, exactly as the sequential operations do.
 */
module RcuSerial {
  import opened Common
  import opened RcuModel
  import opened RcuInvariant
  import opened RcuSteps
  import opened RcuTheorems
  import opened RcuControl
  import opened RcuContract
  import opened RcuRefinement
  import opened RcuFirst
  import opened RcuUpdate
  import BookList

  // The task may be about to change the list, or has decided not to.
  predicate Changing(pc: Pc) {
    Updating(pc) || pc.AddLocked? || (pc.Leave? && pc.op.Update?)
  }

  // At most one task is changing the list.
  ghost predicate OneChanger(s: State) {
    forall t, u :: 0 <= t < u < |s.tasks| ==> !(Changing(s.tasks[t]) && Changing(s.tasks[u]))
  }

  // A task that is changing the list in its section has been since the section began.
  lemma ChangingBefore(s: State, step: Step, s': State, t: Tid)
    requires Next(s, step, s') && s.Open(t) && s'.Open(t) && Changing(s'.tasks[t])
    ensures Changing(s.tasks[t])
  {
    if step.CallbackStep? {
      CallbackKeepsTasks(s, step, s');
    } else if step.t != t {
      hide Next;
      MovesOne(s, step, s');
    } else {
      hide ReplaceHeap, UnlinkHeap, Free;
    }
  }

  lemma {:induction false} ChangingSince(states: seq<State>, steps: seq<Step>, j: nat, k: nat, t: Tid)
    requires IsRun(states, steps) && SameSection(states, t, j, k) && Changing(states[k].tasks[t])
    ensures Changing(states[j].tasks[t])
    decreases k - j
  {
    hide Next, Changing;
    if j < k {
      assert states[k - 1].Open(t) && states[k].Open(t);
      assert Next(states[k - 1], steps[k - 1], states[k]);
      ChangingBefore(states[k - 1], steps[k - 1], states[k], t);
      ChangingSince(states, steps, j, k - 1, t);
    }
  }

  // No book is published while one task alone is changing the list.
  lemma NoneAddedMeanwhile(states: seq<State>, steps: seq<Step>, l: nat, k: nat, t: Tid, id: int)
    requires IsRun(states, steps) && k < |states| && SameSection(states, t, l, k) && Changing(states[k].tasks[t])
    requires forall j :: l <= j < k ==> OneChanger(states[j])
    ensures NoneAdded(states, steps, l, k, id)
  {
    hide Next, IsRun;
    forall j | l <= j < k && j < |steps| ensures !AddsId(states[j], steps[j], id) {
      assert states[j].Open(t);
      ChangingSince(states, steps, j, k, t);
      OnlyChanger(states[j], t, steps[j], id);
    }
  }

  lemma OnlyChanger(s: State, t: Tid, step: Step, id: int)
    requires OneChanger(s) && s.Open(t) && Changing(s.tasks[t])
    ensures !AddsId(s, step, id)
  {
  }

  // With changes serialised while an updater searches, its replacement is the sequential
  // operation: the first book with the id gets the flag, which it did not have.
  lemma SerialUpdatesFirst(states: seq<State>, steps: seq<Step>, l: nat, i: nat)
    requires IsRun(states, steps) && i < |steps| && steps[i].ReplaceStep? && LoadedBy(states, steps, l, i, steps[i].t)
    requires forall j :: l < j < i ==> OneChanger(states[j])
    ensures Inv(states[i]) && Inv(states[i + 1])
    ensures steps[i].t < |states[i].tasks| && states[i].tasks[steps[i].t].UpdLocked? && states[i].tasks[steps[i].t].op.Update?
    ensures var pc := states[i].tasks[steps[i].t];
            && BookList.CanUpdate(Abs(states[i]), pc.id, pc.op.want)
            && Abs(states[i + 1]) == BookList.Updated(Abs(states[i]), pc.id, pc.op.want)
  {
    hide Inv, Next, Abs, OneChanger, NoneAdded;
    UpdatesFirstExactly(states, steps, l, i);
    NoneAddedMeanwhile(states, steps, l + 1, i, steps[i].t, states[i].tasks[steps[i].t].id);
    UpdatesFirst(states, steps, l, i);
  }

  // With changes serialised during its section, the node that a borrow or return refuses is
  // still on the list when it gives up.
  lemma RefusedStays(states: seq<State>, steps: seq<Step>, k: nat, t: Tid)
    requires IsRun(states, steps) && k < |states| && t < |states[k].tasks| && states[k].tasks[t].Leave?
    requires states[k].tasks[t].op.Update? && states[k].tasks[t].answer.Refused?
    requires forall j :: 0 <= j < k && SameSection(states, t, j, k) ==> OneChanger(states[j])
    ensures states[k].tasks[t].answer.at in states[k].heap && states[k].heap[states[k].tasks[t].answer.at].status.Linked?
  {
    hide Inv, Next, IsRun, OneChanger, SameSection, TakesOff;
    var a := states[k].tasks[t].answer.at;
    RunInv(states, steps, k);
    LogNotEmpty(states[k]);
    TaskFacts(states[k], t);
    if states[k].heap[a].status.Unlinked() {
      var j := TakenSince(states, steps, k, t, a);
      TakerIsOther(states, steps, j, k, t, a);
      assert false;
    }
  }

  // A task that gives up in its section has taken nothing off in it.
  lemma TakerIsOther(states: seq<State>, steps: seq<Step>, j: nat, k: nat, t: Tid, a: Addr)
    requires IsRun(states, steps) && j < k < |states| && SameSection(states, t, j, k) && Changing(states[k].tasks[t])
    requires TakesOff(states[j], steps[j], a)
    ensures !OneChanger(states[j])
  {
    hide IsRun, Next;
    assert states[j].Open(t) && states[j + 1].Open(t);
    ChangingSince(states, steps, j, k, t);
    ChangingSince(states, steps, j + 1, k, t);
    StepAt(states, steps, j);
    TakerMovesOn(states[j], steps[j], states[j + 1], t, a);
  }

  lemma StepAt(states: seq<State>, steps: seq<Step>, j: nat)
    requires IsRun(states, steps) && j + 1 < |states|
    ensures j < |steps| && Next(states[j], steps[j], states[j + 1])
  {
  }

  lemma TakerMovesOn(s: State, step: Step, s': State, t: Tid, a: Addr)
    requires Next(s, step, s') && TakesOff(s, step, a) && s.Open(t) && s'.Open(t) && Changing(s.tasks[t]) && Changing(s'.tasks[t])
    ensures !OneChanger(s)
  {
    hide ReplaceHeap, UnlinkHeap;
    assert step.t != t;
    assert Changing(s.tasks[step.t]);
  }

  // With changes serialised during its section, a borrow or return that gives up, other than
  // for want of memory, could not be applied to the list as it is.
  lemma SerialRefusalsRight(states: seq<State>, steps: seq<Step>, k: nat, t: Tid)
    requires IsRun(states, steps) && k < |states| && t < |states[k].tasks| && states[k].tasks[t].Leave?
    requires states[k].tasks[t].op.Update? && states[k].tasks[t].answer != NoMemory
    requires forall j :: 0 <= j < k && SameSection(states, t, j, k) ==> OneChanger(states[j])
    ensures Inv(states[k])
    ensures var pc := states[k].tasks[t]; !BookList.CanUpdate(Abs(states[k]), pc.id, pc.op.want)
  {
    hide Inv, Next, Abs, OneChanger, NoneAdded, FrontHas, Behind, FirstSince, LookupAnswer;
    RunInv(states, steps, k);
    var Leave(op, id, answer) := states[k].tasks[t];
    var l := LoadOf(states, steps, k, t);
    SectionKnows(states, steps, l, k, t);
    LaterStates(states, steps, l, k, t);
    NoneAddedMeanwhile(states, steps, l + 1, k, t, id);
    FrontLacks(states, steps, l + 1, k, id);
    LeaveKind(states[k], t);
    if answer == NotFound {
      LookupBehind(states[k], FrontAdded(steps, l + 1, k), End, id, Book(0, "", "", false));
    } else {
      RefusedStays(states, steps, k, t);
      AnsweredBook(states[k], t);
      LookupBehind(states[k], FrontAdded(steps, l + 1, k), To(answer.at), id, answer.book);
    }
    LookupRefuses(states[k], id, answer, op.want);
  }

  // The states of a section from its load of the head on.
  lemma LaterStates(states: seq<State>, steps: seq<Step>, l: nat, k: nat, t: Tid)
    requires LoadedBy(states, steps, l, k, t)
    ensures SameSection(states, t, l + 1, k)
    ensures forall j :: l <= j < k ==> SameSection(states, t, j, k)
  {
  }

  lemma LookupRefuses(s: State, id: int, answer: Answer, want: bool)
    requires Inv(s) && LookupAnswer(s, id, answer)
    requires answer == NotFound || (answer.Refused? && answer.book.borrowed == want)
    ensures !BookList.CanUpdate(Abs(s), id, want)
  {
  }

  // With changes serialised, every answer of a section is that of first-match lookup at one
  // instant of the section.
  lemma ReadsSeeFirst(states: seq<State>, steps: seq<Step>, k: nat, t: Tid) returns (i: nat)
    requires IsRun(states, steps) && k < |states| && forall j :: 0 <= j < k ==> OneChanger(states[j])
    requires t < |states[k].tasks| && states[k].tasks[t].Leave?
    ensures SameSection(states, t, i, k) && Inv(states[i])
    ensures LookupAnswer(states[i], states[k].tasks[t].id, states[k].tasks[t].answer)
  {
    hide Inv, Next, OneChanger, LookupAnswer, StayedBehind;
    if Found(states[k].tasks[t]) {
      ReadsSeeFirstExactly(states, steps, k, t);
      NotBehind(states, steps, k, t);
      i :| 0 <= i && SameSection(states, t, i, k) && Inv(states[i])
           && LookupAnswer(states[i], states[k].tasks[t].id, states[k].tasks[t].answer);
    } else if states[k].tasks[t].answer == NotFound {
      i := MissesAreRight(states, steps, k, t);
    } else {
      i := k;
      RunInv(states, steps, k);
      MemoryAnswer(states[k], states[k].tasks[t].id);
    }
  }

  lemma NotBehind(states: seq<State>, steps: seq<Step>, k: nat, t: Tid)
    requires IsRun(states, steps) && k < |states| && forall j :: 0 <= j < k ==> OneChanger(states[j])
    requires t < |states[k].tasks| && Found(states[k].tasks[t]) && states[k].Sized()
    ensures var s := states[k]; !StayedBehind(s.heap, s.log, s.since[t], s.tasks[t].answer.at, s.tasks[t].id)
  {
    hide Inv, Next, OneChanger, StayedBehind, Abs;
    var s := states[k];
    if StayedBehind(s.heap, s.log, s.since[t], s.tasks[t].answer.at, s.tasks[t].id) {
      var j := SpoiledByReplace(states, steps, k, t);
      var l := LoadOf(states, steps, j, steps[j].t);
      SerialUpdatesFirst(states, steps, l, j);
      assert false;
    }
  }
}

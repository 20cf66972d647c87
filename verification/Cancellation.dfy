/**
 The cancellation token of a turn (agents/cancellation.py).

 `run` races a call against the token. Here the race is a step system,
 one step per resumption: the token may fire, the call may end in any
 way, and the task that awaits `run` may itself be cancelled, all at
 any time. Proved is who decides the race, which is whether the call has
 ended when `run` resumes, not which of the two came first; and when
 exactly the call is left running after `run` is over.
 */
module Cancellation {
  datatype Result = Value | Error | WasCancelled

  /** The task that wraps the call. */
  datatype Task = NotCreated | Running(cancelling: bool) | Done(result: Result)

  /** Where `run` is. Abandoned: its own task was cancelled from outside during the race. */
  datatype Pc = Racing | AwaitingCancelled | Returned(result: Result) | RaisedTurnCancelled | Abandoned

  datatype World = World(pc: Pc, fired: bool, task: Task)

  /** The first check, then the race. */
  function Start(fired: bool): World {
    if fired then World(RaisedTurnCancelled, true, NotCreated) else World(Racing, false, Running(false))
  }

  datatype Step =
    | Fire                      // somebody cancels the token
    | Check(raises: bool)       // somebody calls check, which raises TurnCancelled or passes
    | TaskEnds(result: Result)
    | Wake                      // run resumes
    | OutsideCancel             // the task that awaits run is cancelled

  predicate Over(w: World) {
    w.pc.Returned? || w.pc.RaisedTurnCancelled? || w.pc.Abandoned?
  }

  predicate Enabled(w: World, step: Step) {
    match step
    case Fire => true
    case Check(raises) => raises == w.fired
    case TaskEnds(_) => w.task.Running?
    case Wake => (w.pc.Racing? && (w.task.Done? || w.fired)) || (w.pc.AwaitingCancelled? && w.task.Done?)
    case OutsideCancel => !Over(w)
  }

  function Do(w: World, step: Step): World
    requires Enabled(w, step)
  {
    match step
    case Fire => w.(fired := true)
    case Check(_) => w
    case TaskEnds(result) => w.(task := Done(result))
    case Wake =>
      if w.pc.AwaitingCancelled? then w.(pc := RaisedTurnCancelled)
      else if w.task.Done? then w.(pc := Returned(w.task.result))
      else w.(pc := AwaitingCancelled, task := Running(true))
    case OutsideCancel =>
      // the race leaves its task alone; the later await passes the cancellation on, and swallows it
      if w.pc.Racing? then w.(pc := Abandoned) else w
  }

  predicate IsRun(w: World, steps: seq<Step>)
    decreases |steps|
  {
    steps == [] || (Enabled(w, steps[0]) && IsRun(Do(w, steps[0]), steps[1..]))
  }

  function After(w: World, steps: seq<Step>): World
    requires IsRun(w, steps)
    decreases |steps|
  {
    if steps == [] then w else After(Do(w, steps[0]), steps[1..])
  }

  predicate Inv(w: World) {
    && (w.pc.Racing? ==> w.task != NotCreated && w.task != Running(true))
    && (w.pc.AwaitingCancelled? ==> w.fired && w.task != NotCreated && w.task != Running(false))
    && (w.pc.Returned? ==> w.task == Done(w.pc.result))
    && (w.pc.RaisedTurnCancelled? ==> w.fired && !w.task.Running?)
    && (w.pc.Abandoned? ==> w.task != NotCreated && w.task != Running(true))
  }

  lemma {:induction false} RunKeepsInv(w: World, steps: seq<Step>)
    requires Inv(w) && IsRun(w, steps)
    ensures Inv(After(w, steps))
    decreases |steps|
  {
    if steps != [] {
      RunKeepsInv(Do(w, steps[0]), steps[1..]);
    }
  }

  lemma {:induction false} RunSplits(w: World, a: seq<Step>, b: seq<Step>)
    requires IsRun(w, a + b)
    ensures IsRun(w, a) && IsRun(After(w, a), b) && After(w, a + b) == After(After(w, a), b)
    decreases |a|
  {
    if a == [] {
      assert a + b == b;
    } else {
      assert (a + b)[1..] == a[1..] + b;
      RunSplits(Do(w, a[0]), a[1..], b);
    }
  }

  lemma OneStep(w: World, step: Step)
    ensures IsRun(w, [step]) <==> Enabled(w, step)
    ensures Enabled(w, step) ==> After(w, [step]) == Do(w, step)
  {
    assert [step][1..] == [];
  }

  lemma {:induction false} FiredExactly(w: World, steps: seq<Step>)
    requires IsRun(w, steps)
    ensures After(w, steps).fired <==> w.fired || Fire in steps
    decreases |steps|
  {
    if steps != [] {
      assert steps == [steps[0]] + steps[1..];
      FiredExactly(Do(w, steps[0]), steps[1..]);
    }
  }

  /** In every run, a call of `check` raises if and only if somebody cancelled the token before it. */
  lemma CheckRaisesExactly(fired: bool, before: seq<Step>, raises: bool, after: seq<Step>)
    requires IsRun(Start(fired), before + ([Check(raises)] + after))
    ensures raises <==> fired || Fire in before
  {
    RunSplits(Start(fired), before, [Check(raises)] + after);
    var w := After(Start(fired), before);
    RunSplits(w, [Check(raises)], after);
    OneStep(w, Check(raises));
    FiredExactly(Start(fired), before);
  }

  /**
   What a run that is over has given: the call's own result, or TurnCancelled
   because the token fired, and then the call has stopped; the call can outlive it
   only if its own task was cancelled from outside, and then nobody has asked the
   call to stop.
   */
  lemma NothingLeftRunning(fired: bool, steps: seq<Step>)
    requires IsRun(Start(fired), steps) && Over(After(Start(fired), steps))
    ensures var w := After(Start(fired), steps);
      && (w.pc.Returned? ==> w.task == Done(w.pc.result))
      && (w.pc.RaisedTurnCancelled? ==> w.fired && !w.task.Running?)
      && (w.task.Running? ==> w.pc.Abandoned? && !w.task.cancelling)
  {
    RunKeepsInv(Start(fired), steps);
  }

  /**
   The step that ends `run` leaves the call running if and only if it is an outside
   cancellation that hits the race while the call runs.
   */
  lemma LeftRunningExactly(fired: bool, steps: seq<Step>, last: Step)
    requires IsRun(Start(fired), steps + [last]) && IsRun(Start(fired), steps)
    requires !Over(After(Start(fired), steps)) && Over(After(Start(fired), steps + [last]))
    ensures var w := After(Start(fired), steps);
      After(Start(fired), steps + [last]).task.Running? <==> last.OutsideCancel? && w.pc.Racing? && w.task.Running?
  {
    RunSplits(Start(fired), steps, [last]);
    OneStep(After(Start(fired), steps), last);
    RunKeepsInv(Start(fired), steps);
  }

  /** How `run` ends when its race is woken in w. */
  function Decided(w: World): Pc
    requires w.task.Done? || w.task.Running?
  {
    if w.task.Running? then RaisedTurnCancelled else Returned(w.task.result)
  }

  /** From the wake on, the outcome is fixed. */
  predicate Settling(w: World, end: Pc) {
    w.pc == end || (w.pc.AwaitingCancelled? && end.RaisedTurnCancelled?)
  }

  lemma {:induction false} StaysSettling(w: World, steps: seq<Step>, end: Pc)
    requires IsRun(w, steps) && Settling(w, end) && (end.RaisedTurnCancelled? || end.Returned?)
    ensures Settling(After(w, steps), end)
    decreases |steps|
  {
    if steps != [] {
      StaysSettling(Do(w, steps[0]), steps[1..], end);
    }
  }

  /**
   A run whose race is woken raises TurnCancelled if and only if the token has fired
   and the call has not ended at that wake; otherwise it returns the call's result,
   also when the token fired first.
   */
  lemma RaceDecides(fired: bool, before: seq<Step>, after: seq<Step>)
    requires IsRun(Start(fired), before + ([Wake] + after)) && IsRun(Start(fired), before)
    requires After(Start(fired), before).pc.Racing? && Over(After(Start(fired), before + ([Wake] + after)))
    ensures var w := After(Start(fired), before); var end := After(Start(fired), before + ([Wake] + after)).pc;
      && (end.RaisedTurnCancelled? <==> w.fired && w.task.Running?)
      && (!end.RaisedTurnCancelled? ==> w.task.Done? && end == Returned(w.task.result))
  {
    var w := After(Start(fired), before);
    RunKeepsInv(Start(fired), before);
    RunSplits(Start(fired), before, [Wake] + after);
    RunSplits(w, [Wake], after);
    OneStep(w, Wake);
    StaysSettling(Do(w, Wake), after, Decided(w));
  }

  /** The token fires first, the call ends before `run` resumes, and its result is returned. */
  lemma FiredTokenMayLose() returns (steps: seq<Step>)
    ensures IsRun(Start(false), steps) && After(Start(false), steps) == World(Returned(Value), true, Done(Value))
  {
    steps := [Fire, TaskEnds(Value), Wake];
    assert steps[1..] == [TaskEnds(Value), Wake] && steps[1..][1..] == [Wake];
    var w := Do(Do(Start(false), Fire), TaskEnds(Value));
    OneStep(w, Wake);
    assert After(Do(Start(false), Fire), steps[1..]) == After(w, [Wake]);
  }

  /** An outside cancellation during the race does leave the call running, even if the token fired first. */
  lemma OutsideCancelLeavesCall() returns (steps: seq<Step>)
    ensures IsRun(Start(false), steps) && After(Start(false), steps) == World(Abandoned, true, Running(false))
  {
    steps := [Fire, OutsideCancel];
    assert steps[1..] == [OutsideCancel];
    OneStep(Do(Start(false), Fire), OutsideCancel);
  }

  // ---------------------------------------------------------------------------
  // The token

  /** The token itself: its two calls are the steps `Fire` and `Check` of the runs above. */
  class CancellationToken {
    var fired: bool

    constructor ()
      ensures !fired
    {
      fired := false;
    }

    method Cancel()
      modifies this
      ensures forall w: World | w.fired == old(fired) :: Do(w, Fire).fired == fired
    {
      fired := true;
    }

    /** check: false stands for raising TurnCancelled. */
    method Check() returns (ok: bool)
      ensures forall w: World | w.fired == fired :: Enabled(w, Step.Check(!ok))
    {
      ok := !fired;
    }
  }
}

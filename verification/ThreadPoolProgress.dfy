/** A running pool works its queue off, and the destructor finishes. */
module ThreadPoolProgress {
  import opened ThreadPoolQueue
  import opened ThreadPool
  import opened ThreadPoolSafety
  import opened ThreadPoolCalls
  import opened ThreadPoolLate

  /** A call entering the pool, as opposed to a step of a thread already inside. */
  predicate Enters(step: Step) {
    step.Submit? || step.Cancel? || step.BeginShutdown?
  }

  function Weight(w: Worker): nat {
    match w case Exited => 0 case Checking => 1 case Asleep => 2 case Running(_) => 2
  }

  function TotalWeight(workers: seq<Worker>): nat {
    if workers == [] then 0 else Weight(workers[0]) + TotalWeight(workers[1..])
  }

  lemma {:induction false} WeightUpdate(workers: seq<Worker>, w: nat, x: Worker)
    requires w < |workers|
    ensures TotalWeight(workers[w := x]) == TotalWeight(workers) - Weight(workers[w]) + Weight(x)
  {
    if w == 0 {
      assert workers[0 := x][1..] == workers[1..];
    } else {
      assert workers[w := x][1..] == workers[1..][w - 1 := x];
      WeightUpdate(workers[1..], w - 1, x);
    }
  }

  lemma {:induction false} WeightWakeAll(workers: seq<Worker>)
    ensures TotalWeight(WakeAll(workers)) <= TotalWeight(workers)
  {
    if workers != [] {
      assert WakeAll(workers)[1..] == WakeAll(workers[1..]);
      WeightWakeAll(workers[1..]);
    }
  }

  function HolderWeight(h: Holder): nat {
    match h case Free => 0 case CancelExtracted(_, _) => 2 case CancelCompleted(_, _) => 1
  }

  function DestructorWeight(s: Pool): nat {
    var n := |s.queue.tasks|;
    match s.destructor
    case Swapped(left) => |left| + 2 * n + 4
    case Failing(left) => |left| + 2 * n + 3
    case Joining => 2 * n + 2
    case Draining(at, called) => if at > n then 0 else 2 * (n - at) + if called then 0 else 1
    case _ => 0
  }

  /** How many steps a pool that is shutting down can still take. */
  function Measure(s: Pool): nat {
    TotalWeight(s.workers) + s.notifies + HolderWeight(s.holder) + DestructorWeight(s)
  }

  /** A step of a worker, or of somebody who wakes one. */
  predicate MovesWorkers(step: Step) {
    step.Exit? || step.Finish? || step.SpuriousWake? || step.NotifyOne? || step.NotifyNobody? || step.NotifyAll?
  }

  lemma WorkerUsesMeasure(s: Pool, step: Step)
    requires Enabled(s, step) && MovesWorkers(step)
    ensures Measure(Apply(s, step)) < Measure(s)
  {
    hide TotalWeight, NoneAsleep;
    match step {
      case Exit(w) => WeightUpdate(s.workers, w, Exited);
      case Finish(w) => WeightUpdate(s.workers, w, Checking);
      case SpuriousWake(w) => WeightUpdate(s.workers, w, Checking);
      case NotifyOne(w) => WeightUpdate(s.workers, w, Checking);
      case NotifyAll => WeightWakeAll(s.workers);
      case NotifyNobody =>
    }
  }

  /** During shutdown every step that is not a new call uses the measure up. */
  lemma StepUsesMeasure(s: Pool, step: Step)
    requires PhaseInv(s) && CursorInv(s) && !s.queue.running && Enabled(s, step) && !Enters(step)
    ensures Measure(Apply(s, step)) < Measure(s)
  {
    if MovesWorkers(step) {
      hide Measure, Apply, Enabled;
      WorkerUsesMeasure(s, step);
    } else {
      hide TotalWeight, Remove, Find, NoneAsleep, AllExited;
      assert Apply(s, step).workers == s.workers && Apply(s, step).notifies == s.notifies;
    }
  }

  /** During shutdown some thread inside the pool can move, until the destructor is done or its loop is lost. */
  lemma ShutdownNeverStuck(s: Pool) returns (step: Step)
    requires QueueInv(s) && PhaseInv(s) && CursorInv(s) && !s.queue.running
    requires !s.destructor.Gone? && !s.destructor.Dangling?
    ensures Enabled(s, step) && !Enters(step)
  {
    hide Ordered, Indexed;
    match s.holder {
      case CancelExtracted(_, _) => step := CancelComplete;
      case CancelCompleted(_, _) => step := CancelErase;
      case Free =>
        match s.destructor {
          case Swapped(_) => step := NotifyAll;
          case Failing(left) => step := if left == [] then FailDone else FailNext;
          case Draining(at, called) =>
            step := if called then DrainAdvance else if at < |s.queue.tasks| then DrainCall else DrainDone;
          case Joining =>
            if AllExited(s.workers) {
              step := Join;
            } else {
              var w :| 0 <= w < |s.workers| && !s.workers[w].Exited?;
              step := if s.workers[w].Running? then Finish(w) else Exit(w);
            }
        }
    }
  }

  /**
   * From any moment after shutdown began, if no further call enters, the run lasts at most `Measure`
   * more steps. Where no thread can move any more the destructor is done, unless a `Cancel` still inside
   * has erased the entry under the iterator of the last loop. If callers keep out of that loop the
   * destructor is done, and every task submitted over the whole run has been completed exactly once.
   */
  lemma DestructorTerminates(states: seq<Pool>, steps: seq<Step>, i: nat)
    requires IsRun(states, steps) && i <= |steps| && !states[i].queue.running
    requires forall k :: i <= k < |steps| ==> !Enters(steps[k])
    ensures |steps| - i <= Measure(states[i])
    ensures var s := states[|steps|];
      (forall step :: Enabled(s, step) ==> Enters(step)) ==>
        && (s.destructor.Gone? || s.destructor.Dangling?)
        && (Quiet(states, steps) ==>
              s.destructor.Gone? && forall id :: 0 < id < s.queue.nextTaskId ==> CallsOf(s, id) == 1)
  {
    hide Measure, Enabled, Apply, Init, CallsOf, CallInv;
    MeasureBounds(states, steps, i, |steps|);
    var last := states[|steps|];
    RunInv(states, steps, |steps|);
    NoStartAfterShutdown(states, steps, i, |steps|);
    if forall step :: Enabled(last, step) ==> Enters(step) {
      if !last.destructor.Gone? && !last.destructor.Dangling? {
        var step := ShutdownNeverStuck(last);
      }
      if Quiet(states, steps) {
        var place := RunQuiet(states, steps, |steps|);
        forall id: nat ensures CallsOf(last, id) == if 0 < id < last.queue.nextTaskId then 1 else 0 {
          ExactlyOnceWhenGone(states, steps, |steps|, id);
        }
      }
    }
  }

  lemma {:induction false} MeasureBounds(states: seq<Pool>, steps: seq<Step>, i: nat, n: nat)
    requires IsRun(states, steps) && i <= n <= |steps| && !states[i].queue.running
    requires forall k :: i <= k < n ==> !Enters(steps[k])
    ensures n - i + Measure(states[n]) <= Measure(states[i])
    decreases n
  {
    hide Measure, Apply, Enabled, Inv;
    if i < n {
      MeasureBounds(states, steps, i, n - 1);
      RunInv(states, steps, n - 1);
      assert PhaseInv(states[n - 1]) && CursorInv(states[n - 1]) by { InvHasPhases(states[n - 1]); }
      NoStartAfterShutdown(states, steps, i, n - 1);
      StepUsesMeasure(states[n - 1], steps[n - 1]);
      assert states[n] == Apply(states[n - 1], steps[n - 1]);
    }
  }

  lemma InvHasPhases(s: Pool)
    requires Inv(s)
    ensures PhaseInv(s) && CursorInv(s)
  {
  }

  // ---------------------------------------------------------------------------------------------
  // A running pool works its queue off

  function Busyness(w: Worker): nat {
    match w case Exited => 0 case Asleep => 0 case Checking => 1 case Running(_) => 2
  }

  function TotalBusyness(workers: seq<Worker>): nat {
    if workers == [] then 0 else Busyness(workers[0]) + TotalBusyness(workers[1..])
  }

  lemma {:induction false} BusynessUpdate(workers: seq<Worker>, w: nat, x: Worker)
    requires w < |workers|
    ensures TotalBusyness(workers[w := x]) == TotalBusyness(workers) - Busyness(workers[w]) + Busyness(x)
  {
    if w == 0 {
      assert workers[0 := x][1..] == workers[1..];
    } else {
      assert workers[w := x][1..] == workers[1..][w - 1 := x];
      BusynessUpdate(workers[1..], w - 1, x);
    }
  }

  /** How many steps a running pool can still take by itself. */
  function Backlog(s: Pool): nat {
    TotalBusyness(s.workers) + 2 * s.notifies + HolderWeight(s.holder) + 2 * |s.queue.tasks|
  }

  /** A step of a thread already inside, and not a wake-up without a cause. */
  predicate Works(step: Step) {
    !Enters(step) && !step.SpuriousWake?
  }

  lemma StepUsesBacklog(s: Pool, step: Step)
    requires PhaseInv(s) && s.queue.running && Enabled(s, step) && Works(step)
    ensures Apply(s, step).queue.running && Backlog(Apply(s, step)) < Backlog(s)
  {
    hide TotalBusyness, Remove, Find, NoneAsleep, AllExited;
    match step {
      case Sleep(w) => BusynessUpdate(s.workers, w, Asleep);
      case Dequeue(w) => BusynessUpdate(s.workers, w, Running(s.queue.tasks[0].task));
      case Finish(w) => BusynessUpdate(s.workers, w, Checking);
      case NotifyOne(w) => BusynessUpdate(s.workers, w, Checking);
      case _ =>
    }
  }

  lemma {:induction false} BacklogBounds(states: seq<Pool>, steps: seq<Step>, i: nat, n: nat)
    requires IsRun(states, steps) && i <= n <= |steps| && states[i].queue.running
    requires forall k :: i <= k < n ==> Works(steps[k])
    ensures states[n].queue.running && n - i + Backlog(states[n]) <= Backlog(states[i])
    decreases n
  {
    hide Backlog, Apply, Enabled, Inv, Works;
    if i < n {
      BacklogBounds(states, steps, i, n - 1);
      RunInv(states, steps, n - 1);
      assert PhaseInv(states[n - 1]) by { InvHasPhases(states[n - 1]); }
      assert Works(steps[n - 1]);
      StepUsesBacklog(states[n - 1], steps[n - 1]);
      assert states[n] == Apply(states[n - 1], steps[n - 1]);
    }
  }

  /** A running pool with a worker stops only with all its workers asleep and nothing left to do. */
  lemma StoppedIsIdle(s: Pool)
    requires QueueInv(s) && PhaseInv(s) && WakeInv(s) && s.queue.running && s.workers != []
    requires forall step :: Works(step) ==> !Enabled(s, step)
    ensures s.queue.tasks == [] && s.holder.Free?
    ensures forall w :: 0 <= w < |s.workers| ==> s.workers[w].Asleep?
  {
    hide Ordered, Indexed, Lookers;
    assert !Enabled(s, CancelComplete) && !Enabled(s, CancelErase);
    forall w | 0 <= w < |s.workers|
      ensures s.workers[w].Asleep?
    {
      assert !Enabled(s, Finish(w)) && !Enabled(s, Sleep(w)) && !Enabled(s, Dequeue(w));
    }
    assert !Enabled(s, NotifyOne(0));
    assert s.workers[0].Asleep?;
    NobodyLooks(s.workers);
  }

  lemma {:induction false} NobodyLooks(workers: seq<Worker>)
    requires forall w :: 0 <= w < |workers| ==> !workers[w].Checking?
    ensures Lookers(workers) == 0
  {
    if workers != [] {
      NobodyLooks(workers[1..]);
    }
  }

  /** In such a state every task submitted so far has been completed exactly once. */
  lemma IdleIsDone(s: Pool, place: map<nat, Place>, id: nat)
    requires CallInv(s, place) && s.queue.running && s.queue.tasks == [] && s.holder.Free?
    requires forall w :: 0 <= w < |s.workers| ==> s.workers[w].Asleep?
    requires 0 < id < s.queue.nextTaskId
    ensures CallsOf(s, id) == 1
  {
    CallsOfPlace(s, place, id);
    hide CallsOf, Times, CallPlaces, Ordered, Indexed, HistoryInv, WakeInv;
    assert !IsAt(place, id, Queued);
    if place[id] == Local {
      NothingListed(id);
    }
  }

  /**
   * Liveness: if from some moment on no call enters a running pool with at least one worker, and nobody is
   * woken without a cause, the run lasts at most `Backlog` more steps; and where it stops, the queue is
   * empty and every task submitted over the whole run has been completed exactly once.
   */
  lemma RunningPoolFinishes(states: seq<Pool>, steps: seq<Step>, i: nat)
    requires IsRun(states, steps) && i <= |steps| && states[i].queue.running && states[0].workers != []
    requires forall k :: i <= k < |steps| ==> Works(steps[k])
    ensures |steps| - i <= Backlog(states[i])
    ensures var s := states[|steps|];
      (forall step :: Works(step) ==> !Enabled(s, step)) ==>
        s.queue.tasks == [] && forall id :: 0 < id < s.queue.nextTaskId ==> CallsOf(s, id) == 1
  {
    hide Backlog, Enabled, Apply, Init, CallsOf, CallInv, Works;
    BacklogBounds(states, steps, i, |steps|);
    var last := states[|steps|];
    if forall step :: Works(step) ==> !Enabled(last, step) {
      RunInv(states, steps, |steps|);
      WorkersKept(states, steps, |steps|);
      StoppedIsIdle(last);
      var place := RunCalls(states, steps, |steps|);
      forall id | 0 < id < last.queue.nextTaskId
        ensures CallsOf(last, id) == 1
      {
        IdleIsDone(last, place, id);
      }
    }
  }

  /** A pool with no workers does lose work: the one queued task has nobody to see it. */
  lemma WakeupNeedsWorkers()
    ensures exists states: seq<Pool>, steps: seq<Step> ::
              IsRun(states, steps) && |states| == 3 && states[2].workers == []
              && states[2].queue.running && states[2].queue.tasks != [] && states[2].notifies == 0
  {
    hide IsRun, Init;
    RunStarts();
    var states, steps := RunExtends([Idle(EMPTY, Alive, 0)], [], Submit(Normal, 0));
    states, steps := RunExtends(states, steps, NotifyNobody);
  }
}

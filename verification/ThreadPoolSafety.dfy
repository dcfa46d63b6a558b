/** Order, index, phases and wake-ups: what every run of the thread pool keeps, over all interleavings. */
module ThreadPoolSafety {
  import opened ThreadPoolQueue
  import opened ThreadPool

  // ---------------------------------------------------------------------------------------------
  // The queue and its index

  function Missing(s: Pool): set<nat> {
    if s.holder.Free? then {} else {s.holder.id}
  }

  /** Order, index, and the iterator a `Cancel` in progress holds. */
  ghost predicate QueueInv(s: Pool) {
    && Ordered(s.queue)
    && Indexed(s.queue, Missing(s))
    && (!s.holder.Free? ==>
          var k := Find(s.queue.tasks, s.holder.node);
          k < |s.queue.tasks| && s.queue.tasks[k].task.id == s.holder.id)
  }

  lemma QueueInvStep(s: Pool, step: Step)
    requires QueueInv(s) && Enabled(s, step)
    ensures QueueInv(Apply(s, step))
  {
    hide Ordered, Indexed, Insert, Remove, UpperBound;
    match step {
      case Dequeue(w) => PoppedKeeps(s.queue);
      case Submit(p, node) => SubmittedKeeps(s.queue, p, node);
      case Cancel(id) => ExtractedKeeps(s.queue, id);
      case CancelErase => ErasedKeeps(s.queue, s.holder.id, s.holder.node);
      case BeginShutdown => ShutDownKeeps(s.queue);
      case _ =>
    }
  }

  lemma ShutDownKeeps(q: Queue)
    requires Ordered(q)
    ensures Ordered(ShutDown(q)) && Indexed(ShutDown(q), {})
  {
  }

  // ---------------------------------------------------------------------------------------------
  // Phases: the running flag, exits and sleepers

  ghost predicate PhaseInv(s: Pool) {
    && (s.queue.running <==> s.destructor.Alive?)
    && (s.queue.running ==> forall w :: 0 <= w < |s.workers| ==> !s.workers[w].Exited?)
    && (!s.destructor.Alive? && !s.destructor.Swapped? ==> NoneAsleep(s.workers))
    && (InDrain(s) ==> AllExited(s.workers))
  }

  lemma PhaseInvStep(s: Pool, step: Step)
    requires PhaseInv(s) && Enabled(s, step)
    ensures PhaseInv(Apply(s, step))
  {
  }

  // ---------------------------------------------------------------------------------------------
  // The iterator of the last loop

  ghost predicate CursorInv(s: Pool) {
    s.destructor.Draining? ==>
      && s.destructor.at <= |s.queue.tasks|
      && (s.destructor.called ==> s.destructor.at < |s.queue.tasks|)
  }

  lemma CursorInvStep(s: Pool, step: Step)
    requires PhaseInv(s) && CursorInv(s) && Enabled(s, step)
    ensures CursorInv(Apply(s, step))
  {
    hide Insert, Remove, UpperBound, Find, NoneAsleep, AllExited;
  }

  // ---------------------------------------------------------------------------------------------
  // No lost wakeup

  /** How many workers are about to look at the queue. */
  function Lookers(workers: seq<Worker>): nat {
    if workers == [] then 0 else (if workers[0].Checking? then 1 else 0) + Lookers(workers[1..])
  }

  lemma {:induction false} LookersUpdate(workers: seq<Worker>, w: nat, x: Worker)
    requires w < |workers|
    ensures Lookers(workers[w := x]) + (if workers[w].Checking? then 1 else 0)
         == Lookers(workers) + (if x.Checking? then 1 else 0)
  {
    if w == 0 {
      assert workers[0 := x][1..] == workers[1..];
    } else {
      assert workers[w := x][1..] == workers[1..][w - 1 := x];
      LookersUpdate(workers[1..], w - 1, x);
    }
  }

  /**
   * While a worker of a running pool sleeps, every queued task has somebody of its own on the way: a
   * submitter about to notify, or a worker about to look.
   */
  ghost predicate WakeInv(s: Pool) {
    s.queue.running && !NoneAsleep(s.workers) ==> |s.queue.tasks| <= s.notifies + Lookers(s.workers)
  }

  lemma WakeInvStep(s: Pool, step: Step)
    requires PhaseInv(s) && WakeInv(s) && Enabled(s, step)
    ensures WakeInv(Apply(s, step))
  {
    hide Lookers, Insert, Remove, UpperBound, Find;
    match step {
      case Exit(w) =>
      case Dequeue(w) => LookersUpdate(s.workers, w, Running(s.queue.tasks[0].task));
      case Finish(w) => LookersUpdate(s.workers, w, Checking);
      case SpuriousWake(w) => LookersUpdate(s.workers, w, Checking);
      case NotifyOne(w) => LookersUpdate(s.workers, w, Checking);
      case _ =>
    }
  }

  // ---------------------------------------------------------------------------------------------
  // The order in which tasks start

  ghost predicate HistoryInv(s: Pool) {
    && (forall i, j :: 0 <= i < j < |s.started| && s.started[i].priority == s.started[j].priority ==>
          s.started[i].id < s.started[j].id)
    && (forall i, k :: 0 <= i < |s.started| && 0 <= k < |s.queue.tasks|
                       && s.started[i].priority == s.queue.tasks[k].task.priority ==>
          s.started[i].id < s.queue.tasks[k].task.id)
    && (forall i :: 0 <= i < |s.started| ==> s.started[i].id < s.queue.nextTaskId)
  }

  lemma HistoryInvDequeue(s: Pool, w: nat)
    requires Ordered(s.queue) && HistoryInv(s) && Enabled(s, Dequeue(w))
    ensures HistoryInv(Apply(s, Dequeue(w)))
  {
  }

  lemma HistoryInvSubmit(s: Pool, p: Priority, node: nat)
    requires HistoryInv(s) && Enabled(s, Submit(p, node))
    ensures HistoryInv(Apply(s, Submit(p, node)))
  {
    hide UpperBound, Insert, Find;
  }

  lemma HistoryInvErase(s: Pool)
    requires HistoryInv(s) && Enabled(s, CancelErase)
    ensures HistoryInv(Apply(s, CancelErase))
  {
    hide Remove, Find;
  }

  lemma HistoryInvStep(s: Pool, step: Step)
    requires Ordered(s.queue) && HistoryInv(s) && Enabled(s, step)
    ensures HistoryInv(Apply(s, step))
  {
    hide Ordered, UpperBound, Insert, Remove, Find, AllExited, NoneAsleep;
    match step {
      case Dequeue(w) => HistoryInvDequeue(s, w);
      case Submit(p, node) => HistoryInvSubmit(s, p, node);
      case CancelErase => HistoryInvErase(s);
      case _ =>
    }
  }

  // ---------------------------------------------------------------------------------------------
  // Runs

  ghost predicate Inv(s: Pool) {
    QueueInv(s) && PhaseInv(s) && CursorInv(s) && WakeInv(s) && HistoryInv(s)
  }

  lemma InvInit(s: Pool)
    requires Init(s)
    ensures Inv(s)
  {
  }

  lemma InvStep(s: Pool, step: Step)
    requires Inv(s) && Enabled(s, step)
    ensures Inv(Apply(s, step))
  {
    hide QueueInv, PhaseInv, CursorInv, WakeInv, HistoryInv;
    QueueInvStep(s, step);
    PhaseInvStep(s, step);
    CursorInvStep(s, step);
    WakeInvStep(s, step);
    assert Ordered(s.queue) by { QueueIsOrdered(s); }
    HistoryInvStep(s, step);
  }

  lemma QueueIsOrdered(s: Pool)
    requires QueueInv(s)
    ensures Ordered(s.queue)
  {
  }

  /** Every state of every run satisfies the invariant. */
  lemma {:induction false} RunInv(states: seq<Pool>, steps: seq<Step>, n: nat)
    requires IsRun(states, steps) && n < |states|
    ensures Inv(states[n])
  {
    hide Inv, Init, Apply, Enabled;
    if n == 0 {
      InvInit(states[0]);
    } else {
      RunInv(states, steps, n - 1);
      InvStep(states[n - 1], steps[n - 1]);
    }
  }

  /** No reachable state leaves a task to a worker that sleeps: see `WakeInv`. */
  lemma EveryTaskIsLookedFor(states: seq<Pool>, steps: seq<Step>, n: nat)
    requires IsRun(states, steps) && n < |states| && states[n].queue.running
    requires !NoneAsleep(states[n].workers)
    ensures |states[n].queue.tasks| <= states[n].notifies + Lookers(states[n].workers)
  {
    RunInv(states, steps, n);
  }

  /** No state has work in a running queue, every worker asleep, and no notification on its way. */
  lemma NoLostWakeup(states: seq<Pool>, steps: seq<Step>, n: nat)
    requires IsRun(states, steps) && n < |states| && states[0].workers != []
    requires states[n].queue.running && states[n].queue.tasks != []
    ensures states[n].notifies > 0 || exists w :: 0 <= w < |states[n].workers| && !states[n].workers[w].Asleep?
  {
    var s := states[n];
    RunInv(states, steps, n);
    WorkersKept(states, steps, n);
    if NoneAsleep(s.workers) {
      assert !s.workers[0].Asleep?;
    } else if s.notifies == 0 {
      var w := SomeLooker(s.workers);
    }
  }

  lemma {:induction false} SomeLooker(workers: seq<Worker>) returns (w: nat)
    requires Lookers(workers) > 0
    ensures w < |workers| && workers[w].Checking?
  {
    if workers[0].Checking? {
      w := 0;
    } else {
      w := SomeLooker(workers[1..]);
      w := w + 1;
    }
  }

  lemma {:induction false} WorkersKept(states: seq<Pool>, steps: seq<Step>, n: nat)
    requires IsRun(states, steps) && n < |states|
    ensures |states[n].workers| == |states[0].workers|
  {
    if n > 0 {
      WorkersKept(states, steps, n - 1);
      assert states[n] == Apply(states[n - 1], steps[n - 1]);
    }
  }

  /** After the shutdown notification no worker sleeps, then or at any later time. */
  lemma NoSleepAfterNotifyAll(states: seq<Pool>, steps: seq<Step>, i: nat, n: nat)
    requires IsRun(states, steps) && i < n < |states| && steps[i].NotifyAll?
    ensures NoneAsleep(states[n].workers)
  {
    RunInv(states, steps, n);
    PastNotifyAll(states, steps, i, n);
  }

  lemma {:induction false} PastNotifyAll(states: seq<Pool>, steps: seq<Step>, i: nat, n: nat)
    requires IsRun(states, steps) && i < n < |states| && steps[i].NotifyAll?
    ensures !states[n].destructor.Alive? && !states[n].destructor.Swapped?
  {
    hide Enabled, Apply, Init;
    assert states[n] == Apply(states[n - 1], steps[n - 1]);
    if i < n - 1 {
      PastNotifyAll(states, steps, i, n - 1);
    }
    StaysPastNotifyAll(states[n - 1], steps[n - 1]);
  }

  lemma StaysPastNotifyAll(s: Pool, step: Step)
    requires Enabled(s, step)
    requires step.NotifyAll? || (!s.destructor.Alive? && !s.destructor.Swapped?)
    ensures !Apply(s, step).destructor.Alive? && !Apply(s, step).destructor.Swapped?
  {
  }

  lemma StepStartsNothing(s: Pool, step: Step)
    requires Enabled(s, step) && !s.queue.running
    ensures Apply(s, step).started == s.started && !Apply(s, step).queue.running
  {
  }

  /** Once shutdown has begun no task starts. */
  lemma {:induction false} NoStartAfterShutdown(states: seq<Pool>, steps: seq<Step>, i: nat, n: nat)
    requires IsRun(states, steps) && i <= n < |states| && !states[i].queue.running
    ensures states[n].started == states[i].started && !states[n].queue.running
    decreases n
  {
    if i < n {
      hide Enabled, Apply, Init;
      NoStartAfterShutdown(states, steps, i, n - 1);
      StepStartsNothing(states[n - 1], steps[n - 1]);
      assert states[n] == Apply(states[n - 1], steps[n - 1]);
    }
  }

  /** A dequeued task was queued, and whatever it leaves behind is less urgent or was submitted later. */
  lemma DequeueTakesFirst(states: seq<Pool>, steps: seq<Step>, n: nat, k: nat)
    requires IsRun(states, steps) && n < |steps| && steps[n].Dequeue? && k < |states[n + 1].queue.tasks|
    ensures |states[n + 1].started| > 0
    ensures var taken, left := states[n + 1].started[|states[n + 1].started| - 1], states[n + 1].queue.tasks[k].task;
      && HasTask(states[n].queue.tasks, taken.id)
      && (left.priority == High ==> taken.priority == High)
      && (taken.priority == Low ==> left.priority == Low)
      && (taken.priority == left.priority ==> taken.id < left.id)
  {
    RunInv(states, steps, n);
    assert states[n + 1] == Apply(states[n], steps[n]);
    assert states[n + 1].queue.tasks[k] == states[n].queue.tasks[k + 1];
    HasTaskAt(states[n].queue.tasks, 0);
  }

  ghost predicate IsQueued(s: Pool, task: Task) {
    exists i :: 0 <= i < |s.queue.tasks| && s.queue.tasks[i].task == task
  }

  /** The task is among those started since `from` had been. */
  ghost predicate HasStarted(s: Pool, from: nat, task: Task) {
    exists j :: from <= j < |s.started| && s.started[j] == task
  }

  /** What a step leaves in the queue was queued before or is new, ... */
  lemma StepKeepsWaiting(s: Pool, step: Step, task: Task)
    requires Enabled(s, step)
    ensures s.queue.nextTaskId <= Apply(s, step).queue.nextTaskId
    ensures IsQueued(Apply(s, step), task) && task.id < s.queue.nextTaskId ==> IsQueued(s, task)
  {
    hide Insert, Remove, UpperBound, Find;
    var s' := Apply(s, step);
    if IsQueued(s', task) && task.id < s.queue.nextTaskId {
      var k :| 0 <= k < |s'.queue.tasks| && s'.queue.tasks[k].task == task;
      assert s'.queue.tasks[k] in s.queue.tasks;
    }
  }

  /** ... and what it starts was queued. */
  lemma StepStartsQueued(s: Pool, step: Step, from: nat, task: Task)
    requires Enabled(s, step) && from <= |s.started|
    ensures |s.started| <= |Apply(s, step).started|
    ensures HasStarted(Apply(s, step), from, task) ==> HasStarted(s, from, task) || IsQueued(s, task)
  {
    hide Submitted, Erased, Popped;
    var s' := Apply(s, step);
    if HasStarted(s', from, task) {
      var j :| from <= j < |s'.started| && s'.started[j] == task;
      if j < |s.started| {
        assert s.started[j] == task;
      } else {
        assert s.queue.tasks[0].task == task;
      }
    }
  }

  /** What starts after state `n` and had been submitted by then was waiting in the queue at that time. */
  lemma {:induction false} StartsFromQueue(states: seq<Pool>, steps: seq<Step>, n: nat, m: nat, task: Task)
    requires IsRun(states, steps) && n <= m < |states| && task.id < states[n].queue.nextTaskId
    ensures states[n].queue.nextTaskId <= states[m].queue.nextTaskId && |states[n].started| <= |states[m].started|
    ensures IsQueued(states[m], task) || HasStarted(states[m], |states[n].started|, task) ==> IsQueued(states[n], task)
    decreases m
  {
    hide Enabled, Apply, Init, IsQueued;
    if n < m {
      hide HasStarted;
      StartsFromQueue(states, steps, n, m - 1, task);
      assert Enabled(states[m - 1], steps[m - 1]) && states[m] == Apply(states[m - 1], steps[m - 1]);
      StepKeepsWaiting(states[m - 1], steps[m - 1], task);
      StepStartsQueued(states[m - 1], steps[m - 1], |states[n].started|, task);
    }
  }

  /**
   * No task starts ahead of a more urgent one that is waiting: where `first` starts at step `n` and a more
   * urgent `later` after it, `later` was submitted only after step `n`.
   */
  lemma UrgentGoesFirst(states: seq<Pool>, steps: seq<Step>, n: nat, m: nat, j: nat)
    requires IsRun(states, steps) && n < |steps| && steps[n].Dequeue? && n < m < |states|
    requires |states[n + 1].started| <= j < |states[m].started|
    ensures |states[n + 1].started| > 0
    ensures var first, later := states[n + 1].started[|states[n + 1].started| - 1], states[m].started[j];
      (later.priority == High && first.priority != High) || (later.priority != Low && first.priority == Low) ==>
        later.id >= states[n].queue.nextTaskId
  {
    var later := states[m].started[j];
    assert states[n + 1] == Apply(states[n], steps[n]);
    if later.id < states[n + 1].queue.nextTaskId {
      hide Apply, Enabled, Init;
      StartsFromQueue(states, steps, n + 1, m, later);
      var k :| 0 <= k < |states[n + 1].queue.tasks| && states[n + 1].queue.tasks[k].task == later;
      DequeueTakesFirst(states, steps, n, k);
    }
  }

  /** A submission queues its task, under an id that nothing queued or started has. */
  lemma SubmitQueues(s: Pool, p: Priority, node: nat, task: Task)
    requires Inv(s) && Enabled(s, Submit(p, node)) && task.id == s.queue.nextTaskId
    ensures var s' := Apply(s, Submit(p, node));
      (IsQueued(s', task) <==> task.priority == p) && !HasStarted(s', 0, task) && task.id < s'.queue.nextTaskId
  {
    hide Insert, UpperBound, Find;
    var s' := Apply(s, Submit(p, node));
    var k := UpperBound(s.queue.tasks, p);
    assert s'.queue.tasks[k].task == Task(s.queue.nextTaskId, p);
  }

  /** Whoever is queued or has started under the id of a submission has the priority it was submitted with. */
  lemma {:induction false} PriorityIsKept(states: seq<Pool>, steps: seq<Step>, n: nat, m: nat, task: Task)
    requires IsRun(states, steps) && n < |steps| && steps[n].Submit? && n < m < |states|
    requires task.id == states[n].queue.nextTaskId
    ensures IsQueued(states[n + 1], Task(task.id, steps[n].priority))
    ensures IsQueued(states[m], task) || HasStarted(states[m], 0, task) ==> task.priority == steps[n].priority
    ensures task.id < states[m].queue.nextTaskId
    decreases m
  {
    hide Enabled, Apply, Init, IsQueued, HasStarted, Inv;
    if m == n + 1 {
      RunInv(states, steps, n);
      assert Enabled(states[n], steps[n]) && states[n + 1] == Apply(states[n], steps[n]);
      SubmitQueues(states[n], steps[n].priority, steps[n].node, task);
      SubmitQueues(states[n], steps[n].priority, steps[n].node, Task(task.id, steps[n].priority));
    } else {
      PriorityIsKept(states, steps, n, m - 1, task);
      assert Enabled(states[m - 1], steps[m - 1]) && states[m] == Apply(states[m - 1], steps[m - 1]);
      StepKeepsWaiting(states[m - 1], steps[m - 1], task);
      StepStartsQueued(states[m - 1], steps[m - 1], 0, task);
    }
  }

  function Submissions(steps: seq<Step>): nat {
    if steps == [] then 0
    else Submissions(steps[..|steps| - 1]) + if steps[|steps| - 1].Submit? then 1 else 0
  }

  /** Ids count the submissions, from one. */
  lemma {:induction false} IdsCountSubmissions(states: seq<Pool>, steps: seq<Step>, n: nat)
    requires IsRun(states, steps) && n < |states|
    ensures states[n].queue.nextTaskId == 1 + Submissions(steps[..n])
    decreases n
  {
    if n > 0 {
      IdsCountSubmissions(states, steps, n - 1);
      assert steps[..n][..n - 1] == steps[..n - 1];
      assert states[n] == Apply(states[n - 1], steps[n - 1]);
    }
  }

  /** Tasks of one priority start in the order they were submitted. */
  lemma StartOrder(states: seq<Pool>, steps: seq<Step>, n: nat, i: nat, j: nat)
    requires IsRun(states, steps) && n < |states| && i < j < |states[n].started|
    requires states[n].started[i].priority == states[n].started[j].priority
    ensures states[n].started[i].id < states[n].started[j].id
  {
    RunInv(states, steps, n);
  }

  /** Whenever the mutex is free, the index holds exactly the queued tasks, each under its own node. */
  lemma IndexIsExact(states: seq<Pool>, steps: seq<Step>, n: nat)
    requires IsRun(states, steps) && n < |states| && states[n].holder.Free?
    ensures Indexed(states[n].queue, {})
  {
    RunInv(states, steps, n);
  }

  /** A run goes on with any enabled step. */
  lemma RunExtends(states: seq<Pool>, steps: seq<Step>, step: Step) returns (states': seq<Pool>, steps': seq<Step>)
    requires IsRun(states, steps) && |states| == |steps| + 1 && Enabled(states[|steps|], step)
    ensures IsRun(states', steps') && |states'| == |steps'| + 1
    ensures states' == states + [Apply(states[|steps|], step)] && steps' == steps + [step]
  {
    hide Enabled, Apply, Init;
    states', steps' := states + [Apply(states[|steps|], step)], steps + [step];
  }
}

/**
 * Calls that overlap the destructor's last loop, which walks the queue without the mutex: exactly when
 * a late `Cancel` completes a task twice, and exactly when a late `SubmitTask` is never completed.
 */
module ThreadPoolLate {
  import opened ThreadPoolQueue
  import opened ThreadPool
  import opened ThreadPoolSafety
  import opened ThreadPoolCalls

  // ---------------------------------------------------------------------------------------------
  // What the loop still owes a task

  /** Where the task stands in the queue. */
  function Position(tasks: seq<Entry>, id: nat): (k: nat)
    ensures k <= |tasks|
    ensures k < |tasks| ==> tasks[k].task.id == id
    ensures forall i :: 0 <= i < k ==> tasks[i].task.id != id
  {
    if tasks == [] || tasks[0].task.id == id then 0 else 1 + Position(tasks[1..], id)
  }

  lemma PositionOf(tasks: seq<Entry>, id: nat)
    ensures Position(tasks, id) < |tasks| <==> HasTask(tasks, id)
  {
    if HasTask(tasks, id) {
      var i := TaskIndex(tasks, id);
    } else if Position(tasks, id) < |tasks| {
      HasTaskAt(tasks, Position(tasks, id));
    }
  }

  lemma PositionAt(tasks: seq<Entry>, id: nat, j: nat)
    requires j < |tasks| && tasks[j].task.id == id && forall i :: 0 <= i < j ==> tasks[i].task.id != id
    ensures Position(tasks, id) == j
  {
    hide Position;
  }

  /** The loop has yet to come to the task. */
  predicate Ahead(s: Pool, id: nat) {
    var k := Position(s.queue.tasks, id);
    s.destructor.Draining? && k < |s.queue.tasks| && !Passed(s, k)
  }

  /** The calls the loop has made for a task, and the one it is going to make. */
  function Owed(s: Pool, id: nat): nat {
    Times(s, id, ByDrain) + if Ahead(s, id) then 1 else 0
  }

  lemma PositionAfterSubmit(q: Queue, p: Priority, node: nat, id: nat)
    requires Ordered(q)
    ensures var k := Position(q.tasks, id);
            var u := UpperBound(q.tasks, p);
            Position(Submitted(q, p, node).tasks, id)
            == if id == q.nextTaskId then u else if k == |q.tasks| then k + 1 else if k < u then k else k + 1
  {
    hide Position, UpperBound, Insert;
    var u := UpperBound(q.tasks, p);
    var tasks := Submitted(q, p, node).tasks;
    var k, k' := Position(q.tasks, id), Position(tasks, id);
    if id == q.nextTaskId {
      assert tasks[u].task.id == id;
    } else if k < |q.tasks| {
      assert tasks[if k < u then k else k + 1] == q.tasks[k];
    }
    if k' < |tasks| && k' != u {
      assert tasks[k'] == q.tasks[if k' < u then k' else k' - 1];
    }
  }

  lemma PositionAfterErase(q: Queue, node: nat, id: nat)
    requires Ordered(q) && Find(q.tasks, node) < |q.tasks| && q.tasks[Find(q.tasks, node)].task.id != id
    requires HasTask(q.tasks, id)
    ensures var k, e := Position(q.tasks, id), Find(q.tasks, node);
            k != e && Position(Erased(q, node).tasks, id) == if k < e then k else k - 1
    ensures HasTask(Erased(q, node).tasks, id)
  {
    hide Position, Remove, Find, HasTask, Ordered;
    PositionOf(q.tasks, id);
    var k, e := Position(q.tasks, id), Find(q.tasks, node);
    var tasks := Erased(q, node).tasks;
    var j := if k < e then k else k - 1;
    assert tasks[j] == q.tasks[k];
    forall i | 0 <= i < j
      ensures tasks[i].task.id != id
    {
      assert tasks[i] == q.tasks[if i < e then i else i + 1];
    }
    PositionAt(tasks, id, j);
    HasTaskAt(tasks, j);
  }

  lemma OwedAfterSubmit(s: Pool, p: Priority, node: nat, id: nat)
    requires QueueInv(s) && s.destructor.Draining? && Enabled(s, Submit(p, node)) && HasTask(s.queue.tasks, id)
    ensures Owed(Apply(s, Submit(p, node)), id) == Owed(s, id)
  {
    hide Position, Insert, UpperBound, Find, HasTask, Indexed;
    var i := TaskIndex(s.queue.tasks, id);
    PositionOf(s.queue.tasks, id);
    PositionAfterSubmit(s.queue, p, node, id);
  }

  lemma OwedAfterErase(s: Pool, id: nat)
    requires QueueInv(s) && s.destructor.Draining? && Enabled(s, CancelErase) && HasTask(s.queue.tasks, id)
    requires id != s.holder.id && !Apply(s, CancelErase).destructor.Dangling?
    ensures Owed(Apply(s, CancelErase), id) == Owed(s, id)
  {
    hide Position, Remove, Find, HasTask, Indexed;
    PositionOf(s.queue.tasks, id);
    PositionAfterErase(s.queue, s.holder.node, id);
  }

  lemma OwedAfterDrain(s: Pool, step: Step, id: nat)
    requires QueueInv(s) && s.destructor.Draining? && Enabled(s, step)
    requires step.DrainCall? || step.DrainAdvance? || step.DrainDone?
    ensures Owed(Apply(s, step), id) == Owed(s, id)
  {
    hide Position, Times, HasTask, Indexed;
    CallsAfter(s, step, id, ByDrain);
    var k := Position(s.queue.tasks, id);
    if step.DrainCall? && k < |s.queue.tasks| && k != s.destructor.at {
      assert s.queue.tasks[s.destructor.at].task.id != id;
    }
  }

  /** No other step touches the queue or the loop. */
  lemma OwedOtherwise(s: Pool, step: Step, id: nat)
    requires PhaseInv(s) && s.destructor.Draining? && Enabled(s, step)
    requires !step.Submit? && !step.CancelErase? && !step.DrainCall? && !step.DrainAdvance? && !step.DrainDone?
    ensures Apply(s, step).queue.tasks == s.queue.tasks && Apply(s, step).destructor == s.destructor
    ensures Owed(Apply(s, step), id) == Owed(s, id)
  {
    hide Position, Times, NoneAsleep, AllExited, Find;
    CallsAfter(s, step, id, ByDrain);
  }

  /**
   * Conservation: while a task stays in the queue and the loop goes on, every step of every thread keeps
   * what the loop has done for it and still owes it.
   */
  lemma OwedStep(s: Pool, step: Step, id: nat)
    requires QueueInv(s) && PhaseInv(s) && s.destructor.Draining? && Enabled(s, step)
    requires HasTask(s.queue.tasks, id) && HasTask(Apply(s, step).queue.tasks, id)
    requires !Apply(s, step).destructor.Dangling?
    ensures Owed(Apply(s, step), id) == Owed(s, id)
  {
    hide QueueInv, PhaseInv, Owed, HasTask, Apply, Enabled;
    if step.Submit? {
      OwedAfterSubmit(s, step.priority, step.node, id);
    } else if step.CancelErase? {
      ErasedIsGone(s, id);
      OwedAfterErase(s, id);
    } else if step.DrainCall? || step.DrainAdvance? || step.DrainDone? {
      OwedAfterDrain(s, step, id);
    } else {
      OwedOtherwise(s, step, id);
    }
  }

  /** What a `Cancel` erases is no longer in the queue. */
  lemma ErasedIsGone(s: Pool, id: nat)
    requires QueueInv(s) && Enabled(s, CancelErase)
    ensures s.queue.tasks[Find(s.queue.tasks, s.holder.node)].task.id == s.holder.id
    ensures HasTask(Apply(s, CancelErase).queue.tasks, id) ==> id != s.holder.id
  {
    hide Remove, Find, HasTask, Indexed;
    var tasks := Apply(s, CancelErase).queue.tasks;
    var e := Find(s.queue.tasks, s.holder.node);
    if HasTask(tasks, id) {
      var i := TaskIndex(tasks, id);
      assert tasks[i] == s.queue.tasks[if i < e then i else i + 1];
    }
  }

  // ---------------------------------------------------------------------------------------------
  // Over a run

  lemma InDrainStep(s: Pool, step: Step)
    requires Enabled(s, step)
    ensures InDrain(s) ==> InDrain(Apply(s, step))
    ensures InDrain(s) && !Apply(s, step).destructor.Dangling? ==> s.destructor.Draining?
    ensures s.queue.nextTaskId <= Apply(s, step).queue.nextTaskId
  {
    hide Insert, Remove, UpperBound, Find, NoneAsleep, AllExited;
  }

  lemma {:induction false} InDrainStays(states: seq<Pool>, steps: seq<Step>, i: nat, n: nat)
    requires IsRun(states, steps) && i <= n < |states| && InDrain(states[i])
    ensures InDrain(states[n]) && states[i].queue.nextTaskId <= states[n].queue.nextTaskId
    decreases n
  {
    hide Enabled, Apply, Init, InDrain;
    if i < n {
      InDrainStays(states, steps, i, n - 1);
      InDrainStep(states[n - 1], steps[n - 1]);
      assert states[n] == Apply(states[n - 1], steps[n - 1]);
    }
  }

  /** A task enters the queue only when it is submitted. */
  lemma OnlyNewTasksEnter(s: Pool, step: Step, id: nat)
    requires Enabled(s, step) && HasTask(Apply(s, step).queue.tasks, id) && id < s.queue.nextTaskId
    ensures HasTask(s.queue.tasks, id)
  {
    hide Insert, Remove, UpperBound, Find, NoneAsleep, AllExited, HasTask;
    var tasks := Apply(s, step).queue.tasks;
    var i := TaskIndex(tasks, id);
    if step.Submit? {
      var k := UpperBound(s.queue.tasks, step.priority);
      assert i != k;
      HasTaskAt(s.queue.tasks, if i < k then i else i - 1);
    } else if step.CancelErase? {
      var k := Find(s.queue.tasks, s.holder.node);
      HasTaskAt(s.queue.tasks, if i < k then i else i + 1);
    } else if step.Dequeue? {
      HasTaskAt(s.queue.tasks, i + 1);
    } else {
      HasTaskAt(s.queue.tasks, i);
    }
  }

  /** The loop keeps its promises to every task that stays in the queue. */
  lemma {:induction false} OwedKept(states: seq<Pool>, steps: seq<Step>, i: nat, n: nat, id: nat)
    requires IsRun(states, steps) && i <= n < |states|
    requires states[i].destructor.Draining? && InDrain(states[n]) && !states[n].destructor.Dangling?
    requires id < states[i].queue.nextTaskId && HasTask(states[n].queue.tasks, id)
    ensures Owed(states[n], id) == Owed(states[i], id)
    decreases n
  {
    hide Enabled, Apply, Init, Owed, HasTask, QueueInv, PhaseInv;
    if i < n {
      var s, step := states[n - 1], steps[n - 1];
      assert states[n] == Apply(s, step);
      InDrainStays(states, steps, i, n - 1);
      InDrainStep(s, step);
      OnlyNewTasksEnter(s, step, id);
      OwedKept(states, steps, i, n - 1, id);
      RunInv(states, steps, n - 1);
      OwedStep(s, step, id);
    }
  }

  /** Right after the workers have been joined, the loop owes every queued task its one call. */
  lemma JoinOwesAll(states: seq<Pool>, steps: seq<Step>, j: nat, id: nat)
    requires IsRun(states, steps) && j < |steps| && steps[j].Join? && HasTask(states[j].queue.tasks, id)
    ensures states[j + 1].destructor.Draining? && states[j + 1].queue == states[j].queue
    ensures Owed(states[j + 1], id) == 1 && 0 < id < states[j].queue.nextTaskId
  {
    hide CallInv, Position, HasTask, Indexed;
    PositionOf(states[j].queue.tasks, id);
    var place := RunCalls(states, steps, j);
    CallsOfPlace(states[j], place, id);
    CallsAfter(states[j], Join, id, ByDrain);
    RunInv(states, steps, j);
    var i := TaskIndex(states[j].queue.tasks, id);
    assert states[j + 1] == Apply(states[j], steps[j]);
  }

  // ---------------------------------------------------------------------------------------------
  // A late cancellation

  /** Nothing is called for a task that has left the queue. */
  lemma SettledOnceErased(s: Pool, step: Step, id: nat)
    requires QueueInv(s) && PhaseInv(s) && InDrain(s) && Enabled(s, step)
    requires !HasTask(s.queue.tasks, id) && id < s.queue.nextTaskId
    ensures CallsOf(Apply(s, step), id) == CallsOf(s, id) && !HasTask(Apply(s, step).queue.tasks, id)
  {
    hide Times, Insert, Remove, UpperBound, Find, HasTask, Indexed, Ordered;
    CallsAfter(s, step, id, ByWorker);
    CallsAfter(s, step, id, ByShutdown);
    CallsAfter(s, step, id, ByCancel);
    CallsAfter(s, step, id, ByDrain);
    if HasTask(Apply(s, step).queue.tasks, id) {
      OnlyNewTasksEnter(s, step, id);
    }
    if step.CancelComplete? {
      HasTaskAt(s.queue.tasks, Find(s.queue.tasks, s.holder.node));
    } else if step.DrainCall? {
      HasTaskAt(s.queue.tasks, s.destructor.at);
    }
  }

  lemma {:induction false} SettledForGood(states: seq<Pool>, steps: seq<Step>, i: nat, n: nat, id: nat)
    requires IsRun(states, steps) && i <= n < |states| && InDrain(states[i])
    requires !HasTask(states[i].queue.tasks, id) && id < states[i].queue.nextTaskId
    ensures CallsOf(states[n], id) == CallsOf(states[i], id) && !HasTask(states[n].queue.tasks, id)
    decreases n
  {
    hide Enabled, Apply, Init, HasTask, CallsOf, QueueInv, PhaseInv;
    if i < n {
      SettledForGood(states, steps, i, n - 1, id);
      InDrainStays(states, steps, i, n - 1);
      RunInv(states, steps, n - 1);
      SettledOnceErased(states[n - 1], steps[n - 1], id);
      assert states[n] == Apply(states[n - 1], steps[n - 1]);
    }
  }

  /**
   * Any task of the loop: if it is erased by a `Cancel` at step `e`, then from there on its calls are the
   * one by that `Cancel` and those that the loop owed it at step `i` and had made by then.
   */
  lemma CallsOnceErased(states: seq<Pool>, steps: seq<Step>, i: nat, e: nat, m: nat, id: nat)
    requires IsRun(states, steps) && i <= e < m < |states|
    requires states[i].destructor.Draining? && id < states[i].queue.nextTaskId
    requires steps[e].CancelErase? && states[e].holder.id == id && states[e].destructor.Draining?
    ensures CallsOf(states[m], id) == 1 + Owed(states[i], id) - if Ahead(states[e], id) then 1 else 0
    ensures states[m].destructor.Gone? ==> Position(states[e].queue.tasks, id) != states[e].destructor.at
  {
    hide Enabled, Apply, HasTask, CallInv, Init, Times, Position;
    var s := states[e];
    RunInv(states, steps, e);
    EraseSettles(s, id);
    HeldTaskIsQueued(s);
    OwedKept(states, steps, i, e, id);
    var place := RunCalls(states, steps, e);
    CallsOfPlace(s, place, id);
    assert states[e + 1] == Apply(s, steps[e]);
    InDrainStays(states, steps, i, e);
    InDrainStays(states, steps, e, e + 1);
    SettledForGood(states, steps, e + 1, m, id);
    if states[m].destructor.Gone? {
      DanglesForGood(states, steps, e + 1, m);
    }
  }

  /**
   * A task that is queued when the workers are joined, and is erased by a `Cancel` at step `e`, has been
   * completed exactly once from then on if and only if the loop had not come to it before the erasure;
   * otherwise it has been completed twice. If the loop runs to its end, the erased entry was not the one
   * under the iterator, so that says that it stood strictly beyond the iterator.
   */
  lemma LateCancelIff(states: seq<Pool>, steps: seq<Step>, j: nat, e: nat, m: nat, id: nat)
    requires IsRun(states, steps) && j < e < m < |states|
    requires steps[j].Join? && HasTask(states[j].queue.tasks, id)
    requires steps[e].CancelErase? && states[e].holder.id == id && states[e].destructor.Draining?
    ensures CallsOf(states[m], id) == if Ahead(states[e], id) then 1 else 2
    ensures states[m].destructor.Gone? ==>
              (CallsOf(states[m], id) == 1 <==> Position(states[e].queue.tasks, id) > states[e].destructor.at)
  {
    hide Enabled, Apply, HasTask, Init, CallsOf, Position;
    JoinOwesAll(states, steps, j, id);
    CallsOnceErased(states, steps, j + 1, e, m, id);
    ErasedInSight(states, steps, e, id);
  }

  lemma ErasedInSight(states: seq<Pool>, steps: seq<Step>, e: nat, id: nat)
    requires IsRun(states, steps) && e < |steps| && steps[e].CancelErase? && states[e].holder.id == id
    ensures Position(states[e].queue.tasks, id) < |states[e].queue.tasks|
  {
    hide Apply, Init, Position, HasTask, Find;
    RunInv(states, steps, e);
    HeldTaskIsQueued(states[e]);
    PositionOf(states[e].queue.tasks, id);
  }

  lemma HeldTaskIsQueued(s: Pool)
    requires QueueInv(s) && !s.holder.Free?
    ensures HasTask(s.queue.tasks, s.holder.id)
  {
    HasTaskAt(s.queue.tasks, Find(s.queue.tasks, s.holder.node));
  }

  lemma EraseSettles(s: Pool, id: nat)
    requires QueueInv(s) && Enabled(s, CancelErase) && s.holder.id == id && s.destructor.Draining?
    ensures BeingCancelled(s, id)
    ensures CallsOf(Apply(s, CancelErase), id) == CallsOf(s, id)
    ensures !HasTask(Apply(s, CancelErase).queue.tasks, id)
    ensures Position(s.queue.tasks, id) == s.destructor.at ==> Apply(s, CancelErase).destructor.Dangling?
  {
    ErasedIsGone(s, id);
    hide HasTask, Remove, Find, Indexed;
  }

  lemma {:induction false} DanglesForGood(states: seq<Pool>, steps: seq<Step>, i: nat, n: nat)
    requires IsRun(states, steps) && i <= n < |states|
    ensures states[i].destructor.Dangling? ==> states[n].destructor.Dangling?
    decreases n
  {
    hide Init, UpperBound, Insert, Remove, Find, NoneAsleep, AllExited;
    if i < n {
      DanglesForGood(states, steps, i, n - 1);
      assert states[n] == Apply(states[n - 1], steps[n - 1]);
    }
  }

  // ---------------------------------------------------------------------------------------------
  // A late submission

  /** The task is queued and no `Cancel` has hold of it. */
  ghost predicate LeftAlone(s: Pool, id: nat) {
    HasTask(s.queue.tasks, id) && (s.holder.Free? || s.holder.id != id)
  }

  lemma LeftAloneStep(s: Pool, step: Step, id: nat)
    requires QueueInv(s) && PhaseInv(s) && InDrain(s) && Enabled(s, step) && LeftAlone(s, id) && step != Cancel(id)
    ensures LeftAlone(Apply(s, step), id)
  {
    hide HasTask, Apply, Enabled, QueueInv, PhaseInv;
    if step.Submit? {
      StaysAfterSubmit(s, step.priority, step.node, id);
    } else if step.CancelErase? {
      StaysAfterErase(s, id);
    } else {
      StaysOtherwise(s, step, id);
    }
  }

  lemma StaysAfterSubmit(s: Pool, p: Priority, node: nat, id: nat)
    requires Enabled(s, Submit(p, node)) && HasTask(s.queue.tasks, id)
    ensures HasTask(Apply(s, Submit(p, node)).queue.tasks, id) && Apply(s, Submit(p, node)).holder.Free?
  {
    hide Insert, UpperBound, Find, HasTask;
    var i := TaskIndex(s.queue.tasks, id);
    var k := UpperBound(s.queue.tasks, p);
    HasTaskAt(Apply(s, Submit(p, node)).queue.tasks, if i < k then i else i + 1);
  }

  lemma StaysAfterErase(s: Pool, id: nat)
    requires QueueInv(s) && Enabled(s, CancelErase) && LeftAlone(s, id)
    ensures HasTask(Apply(s, CancelErase).queue.tasks, id) && Apply(s, CancelErase).holder.Free?
  {
    hide Remove, Find, HasTask, Ordered, Indexed;
    var i := TaskIndex(s.queue.tasks, id);
    var k := Find(s.queue.tasks, s.holder.node);
    HasTaskAt(Apply(s, CancelErase).queue.tasks, if i < k then i else i - 1);
  }

  lemma StaysOtherwise(s: Pool, step: Step, id: nat)
    requires PhaseInv(s) && InDrain(s) && Enabled(s, step) && !step.Submit? && !step.CancelErase? && step != Cancel(id)
    ensures Apply(s, step).queue.tasks == s.queue.tasks
    ensures Apply(s, step).holder.Free? || Apply(s, step).holder.id != id || (!s.holder.Free? && s.holder.id == id)
  {
    hide NoneAsleep, AllExited, Find;
  }

  lemma {:induction false} LeftAloneStays(states: seq<Pool>, steps: seq<Step>, i: nat, n: nat, id: nat)
    requires IsRun(states, steps) && i <= n < |states| && InDrain(states[i]) && LeftAlone(states[i], id)
    requires forall k :: i <= k < n ==> steps[k] != Cancel(id)
    ensures LeftAlone(states[n], id)
    decreases n
  {
    hide Enabled, Apply, Init, LeftAlone, QueueInv, PhaseInv;
    if i < n {
      LeftAloneStays(states, steps, i, n - 1, id);
      InDrainStays(states, steps, i, n - 1);
      RunInv(states, steps, n - 1);
      LeftAloneStep(states[n - 1], steps[n - 1], id);
      assert states[n] == Apply(states[n - 1], steps[n - 1]);
    }
  }

  /** The loop owes a new task its call exactly when the insertion point lies beyond the iterator. */
  lemma SubmitOwes(s: Pool, p: Priority, node: nat)
    requires Ordered(s.queue) && Times(s, s.queue.nextTaskId, ByDrain) == 0
    requires s.destructor.Draining? && Enabled(s, Submit(p, node))
    ensures var s' := Apply(s, Submit(p, node));
      && s'.destructor.Draining? && LeftAlone(s', s.queue.nextTaskId)
      && s'.queue.nextTaskId == s.queue.nextTaskId + 1
      && Owed(s', s.queue.nextTaskId) == if UpperBound(s.queue.tasks, p) > s.destructor.at then 1 else 0
  {
    PositionAfterSubmit(s.queue, p, node, s.queue.nextTaskId);
    hide Position, Insert, UpperBound, Find, HasTask, Ordered;
    HasTaskAt(Apply(s, Submit(p, node)).queue.tasks, UpperBound(s.queue.tasks, p));
  }

  lemma NoDrainCallsFor(s: Pool, place: map<nat, Place>)
    requires CallInv(s, place)
    ensures Times(s, s.queue.nextTaskId, ByDrain) == 0
  {
    NoDrainCallsYet(s, place, s.queue.nextTaskId);
  }

  /** Any task of the loop: if no `Cancel` touches it, it gets what the loop owes it. */
  lemma CallsWhenLeftAlone(states: seq<Pool>, steps: seq<Step>, i: nat, m: nat, id: nat)
    requires IsRun(states, steps) && i <= m < |states|
    requires states[i].destructor.Draining? && states[m].destructor.Gone? && LeftAlone(states[i], id)
    requires forall k :: i <= k < m ==> steps[k] != Cancel(id)
    ensures CallsOf(states[m], id) == Owed(states[i], id)
  {
    hide Enabled, Apply, Init, HasTask, CallInv, CallsOf, Position, Times;
    RunInv(states, steps, i);
    QueuedIsKnown(states[i], id);
    LeftAloneStays(states, steps, i, m, id);
    OwedKept(states, steps, i, m, id);
    InDrainStays(states, steps, i, m);
    var last := RunCalls(states, steps, m);
    CallsOfPlace(states[m], last, id);
    CallsWhenGone(states, steps, m, id);
  }

  lemma QueuedIsKnown(s: Pool, id: nat)
    requires QueueInv(s) && HasTask(s.queue.tasks, id)
    ensures 0 < id < s.queue.nextTaskId
  {
    var i := TaskIndex(s.queue.tasks, id);
  }

  /** A task queued at the join that no `Cancel` touches is completed exactly once, whatever else callers do. */
  lemma LeftAloneAfterJoin(states: seq<Pool>, steps: seq<Step>, j: nat, m: nat, id: nat)
    requires IsRun(states, steps) && j < m < |states| && steps[j].Join? && states[m].destructor.Gone?
    requires LeftAlone(states[j], id) && forall k :: j < k < m ==> steps[k] != Cancel(id)
    ensures CallsOf(states[m], id) == 1
  {
    hide Enabled, Init, HasTask, CallsOf, Owed;
    JoinOwesAll(states, steps, j, id);
    assert states[j + 1] == Apply(states[j], steps[j]);
    CallsWhenLeftAlone(states, steps, j + 1, m, id);
  }

  /** What the loop owes a task that is submitted while it runs. */
  lemma SubmittedIsOwed(states: seq<Pool>, steps: seq<Step>, n: nat)
    requires IsRun(states, steps) && n < |steps| && steps[n].Submit? && states[n].destructor.Draining?
    ensures var id := states[n].queue.nextTaskId;
      && states[n + 1].destructor.Draining? && LeftAlone(states[n + 1], id) && id < states[n + 1].queue.nextTaskId
      && Owed(states[n + 1], id) == if InsertedBeyond(states[n], steps[n].priority) then 1 else 0
  {
    hide Enabled, Apply, Init, CallInv, UpperBound, Times, Owed;
    var place := RunCalls(states, steps, n);
    NoDrainCallsFor(states[n], place);
    RunInv(states, steps, n);
    SubmitOwes(states[n], steps[n].priority, steps[n].node);
    assert states[n + 1] == Apply(states[n], steps[n]);
  }

  /** A task of this priority would go to a place that the loop has yet to come to. */
  predicate InsertedBeyond(s: Pool, p: Priority)
    requires s.destructor.Draining?
  {
    UpperBound(s.queue.tasks, p) > s.destructor.at
  }

  /**
   * A task submitted while the loop runs, and not cancelled, has been completed when the destructor
   * returns if and only if its place in the queue was beyond the iterator; otherwise it never is.
   */
  lemma LateSubmitIff(states: seq<Pool>, steps: seq<Step>, n: nat, m: nat)
    requires IsRun(states, steps) && n < m < |states|
    requires steps[n].Submit? && states[n].destructor.Draining? && states[m].destructor.Gone?
    requires forall k :: n < k < m ==> steps[k] != Cancel(states[n].queue.nextTaskId)
    ensures CallsOf(states[m], states[n].queue.nextTaskId)
         == if InsertedBeyond(states[n], steps[n].priority) then 1 else 0
  {
    hide Enabled, Apply, Init, LeftAlone, CallsOf, InsertedBeyond, Owed;
    SubmittedIsOwed(states, steps, n);
    CallsWhenLeftAlone(states, steps, n + 1, m, states[n].queue.nextTaskId);
  }

  /**
   * A task submitted while the loop runs, and erased by a `Cancel` at step `e`, has been completed from
   * then on: twice if it was inserted beyond the iterator and the loop came to it first, else once.
   */
  lemma LateSubmitThenCancelIff(states: seq<Pool>, steps: seq<Step>, n: nat, e: nat, m: nat)
    requires IsRun(states, steps) && n < e < m < |states|
    requires steps[n].Submit? && states[n].destructor.Draining?
    requires steps[e].CancelErase? && states[e].holder.id == states[n].queue.nextTaskId
    requires states[e].destructor.Draining?
    ensures var id := states[n].queue.nextTaskId;
      CallsOf(states[m], id)
      == if InsertedBeyond(states[n], steps[n].priority) && !Ahead(states[e], id) then 2 else 1
  {
    hide Enabled, Apply, Init, LeftAlone, CallsOf, InsertedBeyond, Ahead;
    SubmittedIsOwed(states, steps, n);
    CallsOnceErased(states, steps, n + 1, e, m, states[n].queue.nextTaskId);
    var id := states[n].queue.nextTaskId;
    AtMostTwice(states, steps, m, id);
    OwedCovers(states, steps, n + 1, e, id);
  }

  /** What the loop still has to do is part of what it owed. */
  lemma OwedCovers(states: seq<Pool>, steps: seq<Step>, i: nat, e: nat, id: nat)
    requires IsRun(states, steps) && i <= e < |steps| && steps[e].CancelErase? && states[e].holder.id == id
    requires states[i].destructor.Draining? && states[e].destructor.Draining? && id < states[i].queue.nextTaskId
    ensures Ahead(states[e], id) ==> Owed(states[i], id) >= 1
  {
    hide Apply, Init, HasTask, Ahead, Times, Find;
    RunInv(states, steps, e);
    HeldTaskIsQueued(states[e]);
    OwedKept(states, steps, i, e, id);
  }

  // ---------------------------------------------------------------------------------------------
  // Both happen, from every state of the last loop

  /** `later` continues `run`. */
  predicate Continues(states: seq<Pool>, steps: seq<Step>, states': seq<Pool>, steps': seq<Step>) {
    states <= states' && steps <= steps' && |states| == |steps| + 1 && |states'| == |steps'| + 1
  }

  function Last(states: seq<Pool>): Pool
    requires states != []
  {
    states[|states| - 1]
  }

  /** How many steps the loop needs to its end. */
  function LoopLeft(s: Pool): int
    requires s.destructor.Draining?
  {
    2 * (|s.queue.tasks| - s.destructor.at) + if s.destructor.called then 0 else 1
  }

  lemma LoopStep(s: Pool) returns (step: Step)
    requires CursorInv(s) && s.destructor.Draining? && s.destructor != Draining(|s.queue.tasks|, false)
    ensures Enabled(s, step)
    ensures var s' := Apply(s, step);
      && s'.destructor.Draining? && s'.queue == s.queue && s'.holder == s.holder && 0 <= LoopLeft(s') < LoopLeft(s)
  {
    step := if s.destructor.called then DrainAdvance else DrainCall;
  }

  /** Left to itself, the loop goes on to the end of the queue. */
  lemma {:induction false} LoopRuns(states: seq<Pool>, steps: seq<Step>) returns (states': seq<Pool>, steps': seq<Step>)
    requires IsRun(states, steps) && states != [] && Last(states).destructor.Draining?
    ensures IsRun(states', steps') && Continues(states, steps, states', steps')
    ensures var s, s' := Last(states), Last(states');
      && s'.destructor == Draining(|s.queue.tasks|, false)
      && s'.queue == s.queue && s'.holder == s.holder
    decreases LoopLeft(Last(states))
  {
    hide Init, Apply, Enabled, LoopLeft, QueueInv, PhaseInv, WakeInv, HistoryInv, CursorInv;
    var s := Last(states);
    if s.destructor == Draining(|s.queue.tasks|, false) {
      states', steps' := states, steps;
    } else {
      RunInv(states, steps, |steps|);
      var step := LoopStep(s);
      states', steps' := RunExtends(states, steps, step);
      states', steps' := LoopRuns(states', steps');
    }
  }

  /** The same moment of the loop, after somebody else's step. */
  ghost predicate AtLoopEnd(s: Pool, s': Pool) {
    && s.destructor == Draining(|s.queue.tasks|, false) && s'.destructor == Draining(|s'.queue.tasks|, false)
    && s'.queue.idMap == s.queue.idMap && s'.queue.nextTaskId == s.queue.nextTaskId
    && forall id :: Times(s', id, ByDrain) == Times(s, id, ByDrain)
  }

  lemma CompleteAtLoopEnd(s: Pool)
    requires QueueInv(s) && s.holder.CancelExtracted? && s.destructor == Draining(|s.queue.tasks|, false)
    ensures Enabled(s, CancelComplete)
    ensures AtLoopEnd(s, Apply(s, CancelComplete)) && Apply(s, CancelComplete).holder.CancelCompleted?
  {
    hide Times, Find, Ordered, Indexed;
    forall id { CallsAfter(s, CancelComplete, id, ByDrain); }
  }

  lemma EraseAtLoopEnd(s: Pool)
    requires QueueInv(s) && s.holder.CancelCompleted? && s.destructor == Draining(|s.queue.tasks|, false)
    ensures Enabled(s, CancelErase)
    ensures AtLoopEnd(s, Apply(s, CancelErase)) && Apply(s, CancelErase).holder.Free?
  {
    hide Times, Find, Remove, Ordered, Indexed;
    forall id { CallsAfter(s, CancelErase, id, ByDrain); }
  }

  /** At the end of the loop a `Cancel` in progress can return. */
  lemma CancelReturns(states: seq<Pool>, steps: seq<Step>) returns (states': seq<Pool>, steps': seq<Step>)
    requires IsRun(states, steps) && states != []
    requires Last(states).destructor == Draining(|Last(states).queue.tasks|, false)
    ensures IsRun(states', steps') && Continues(states, steps, states', steps')
    ensures AtLoopEnd(Last(states), Last(states')) && Last(states').holder.Free?
  {
    hide Init, Times, Apply, Enabled, QueueInv;
    states', steps' := states, steps;
    RunInv(states', steps', |steps'|);
    if Last(states').holder.CancelExtracted? {
      CompleteAtLoopEnd(Last(states'));
      states', steps' := RunExtends(states', steps', CancelComplete);
      RunInv(states', steps', |steps'|);
    }
    if Last(states').holder.CancelCompleted? {
      EraseAtLoopEnd(Last(states'));
      states', steps' := RunExtends(states', steps', CancelErase);
    }
  }

  lemma CancelStep(s: Pool, id: nat)
    requires QueueInv(s) && !s.destructor.Gone? && s.holder.Free? && id in s.queue.idMap
    ensures Enabled(s, Cancel(id)) && Enabled(Apply(s, Cancel(id)), CancelComplete)
    ensures var s' := Apply(Apply(s, Cancel(id)), CancelComplete);
      && Times(s', id, ByCancel) > 0 && Times(s', id, ByDrain) == Times(s, id, ByDrain)
      && s'.destructor == s.destructor && s'.queue.tasks == s.queue.tasks
  {
    ExtractedKeeps(s.queue, id);
    hide Times, Find, Ordered, Indexed;
    var s1 := Apply(s, Cancel(id));
    CallsAfter(s, Cancel(id), id, ByDrain);
    CallsAfter(s1, CancelComplete, id, ByDrain);
    CallsAfter(s1, CancelComplete, id, ByCancel);
  }

  /**
   * From every state of the loop, a `Cancel` of any indexed task the loop has called or is going to call
   * has a continuation in which that task is completed twice.
   */
  lemma LateCancelCallsTwice(states: seq<Pool>, steps: seq<Step>, id: nat)
    returns (states': seq<Pool>, steps': seq<Step>)
    requires IsRun(states, steps) && states != [] && Last(states).destructor.Draining?
    requires id in Last(states).queue.idMap && Owed(Last(states), id) == 1
    ensures IsRun(states', steps') && Continues(states, steps, states', steps')
    ensures CallsOf(Last(states'), id) == 2
  {
    hide Init, Apply, Enabled, Times, CallsOf, QueueInv, Owed, HasTask;
    RunInv(states, steps, |steps|);
    IndexedIsQueued(Last(states), id);
    states', steps' := LoopRuns(states, steps);
    LoopHasCalled(states, steps, states', steps', id);
    states', steps' := CancelReturns(states', steps');
    RunInv(states', steps', |steps'|);
    CancelStep(Last(states'), id);
    states', steps' := RunExtends(states', steps', Cancel(id));
    states', steps' := RunExtends(states', steps', CancelComplete);
    AtMostTwice(states', steps', |steps'|, id);
  }

  /** Right after the join that is every queued task. */
  lemma CancelAfterJoinCallsTwice(states: seq<Pool>, steps: seq<Step>, id: nat)
    returns (states': seq<Pool>, steps': seq<Step>)
    requires IsRun(states, steps) && steps != [] && |states| == |steps| + 1
    requires steps[|steps| - 1].Join? && id in Last(states).queue.idMap
    ensures IsRun(states', steps') && Continues(states, steps, states', steps')
    ensures CallsOf(Last(states'), id) == 2
  {
    hide Init, Apply, Enabled, CallsOf, Owed, HasTask, QueueInv;
    var j := |steps| - 1;
    assert Last(states).queue == states[j].queue by { JoinKeepsQueue(states, steps, j); }
    RunInv(states, steps, |steps|);
    IndexedIsQueued(Last(states), id);
    JoinOwesAll(states, steps, j, id);
    states', steps' := LateCancelCallsTwice(states, steps, id);
  }

  lemma JoinKeepsQueue(states: seq<Pool>, steps: seq<Step>, j: nat)
    requires IsRun(states, steps) && j < |steps| && steps[j].Join?
    ensures states[j + 1].queue == states[j].queue
  {
  }

  /** So has a `Cancel` that already holds the mutex, however far the loop still is from its task. */
  lemma HeldCancelCallsTwice(states: seq<Pool>, steps: seq<Step>) returns (states': seq<Pool>, steps': seq<Step>)
    requires IsRun(states, steps) && states != [] && Last(states).destructor.Draining?
    requires !Last(states).holder.Free? && Owed(Last(states), Last(states).holder.id) == 1
    ensures IsRun(states', steps') && Continues(states, steps, states', steps')
    ensures CallsOf(Last(states'), Last(states).holder.id) == 2
  {
    hide Init, Apply, Enabled, Times, CallsOf, QueueInv, Owed, HasTask, CallInv;
    var id := Last(states).holder.id;
    RunInv(states, steps, |steps|);
    HeldTaskIsQueued(Last(states));
    var states1, steps1 := states, steps;
    if Last(states).holder.CancelExtracted? {
      CompleteHeld(Last(states));
      states1, steps1 := RunExtends(states, steps, CancelComplete);
      SameOwed(Last(states), Last(states1), id);
    } else {
      var place := RunCalls(states, steps, |steps|);
      CallsOfPlace(Last(states), place, id);
    }
    states', steps' := LoopRuns(states1, steps1);
    LoopHasCalled(states1, steps1, states', steps', id);
    assert states'[|steps1|] == Last(states1);
    CallsStay(states', steps', |steps1|, |steps'|, id, ByCancel);
    AtMostTwice(states', steps', |steps'|, id);
  }

  lemma CompleteHeld(s: Pool)
    requires QueueInv(s) && !s.destructor.Gone? && s.holder.CancelExtracted?
    ensures Enabled(s, CancelComplete)
    ensures var s' := Apply(s, CancelComplete);
      && Times(s', s.holder.id, ByCancel) > 0 && Times(s', s.holder.id, ByDrain) == Times(s, s.holder.id, ByDrain)
      && s'.destructor == s.destructor && s'.queue.tasks == s.queue.tasks
  {
    hide Times, Find, Ordered, Indexed;
    CallsAfter(s, CancelComplete, s.holder.id, ByDrain);
    CallsAfter(s, CancelComplete, s.holder.id, ByCancel);
  }

  lemma SameOwed(s: Pool, s': Pool, id: nat)
    requires s'.destructor == s.destructor && s'.queue.tasks == s.queue.tasks
    requires Times(s', id, ByDrain) == Times(s, id, ByDrain)
    ensures Owed(s', id) == Owed(s, id)
  {
  }

  /** At its end the loop has called whatever it owed. */
  lemma LoopHasCalled(states: seq<Pool>, steps: seq<Step>, states': seq<Pool>, steps': seq<Step>, id: nat)
    requires IsRun(states, steps) && states != [] && Last(states).destructor.Draining? && Owed(Last(states), id) == 1
    requires IsRun(states', steps') && Continues(states, steps, states', steps')
    requires Last(states').destructor == Draining(|Last(states).queue.tasks|, false)
    requires Last(states').queue == Last(states).queue && HasTask(Last(states).queue.tasks, id)
    ensures Times(Last(states'), id, ByDrain) == 1
  {
    hide HasTask, Init, Enabled, Apply, Times, Position, Indexed;
    RunInv(states, steps, |steps|);
    var i := TaskIndex(Last(states).queue.tasks, id);
    assert states'[|steps|] == Last(states);
    OwedKept(states', steps', |steps|, |steps'|, id);
  }

  lemma IndexedIsQueued(s: Pool, id: nat)
    requires QueueInv(s) && id in s.queue.idMap
    ensures HasTask(s.queue.tasks, id)
  {
  }

  lemma {:induction false} CallsStay(states: seq<Pool>, steps: seq<Step>, i: nat, n: nat, id: nat, caller: Caller)
    requires IsRun(states, steps) && i <= n < |states|
    ensures Times(states[i], id, caller) <= Times(states[n], id, caller)
    decreases n
  {
    hide Enabled, Apply, Init, Times;
    if i < n {
      CallsStay(states, steps, i, n - 1, id, caller);
      CallsAfter(states[n - 1], steps[n - 1], id, caller);
      assert states[n] == Apply(states[n - 1], steps[n - 1]);
    }
  }

  lemma FreshNode(tasks: seq<Entry>) returns (node: nat)
    ensures Find(tasks, node) == |tasks|
  {
    node := 0;
    for i := 0 to |tasks|
      invariant forall j :: 0 <= j < i ==> tasks[j].node < node
    {
      if tasks[i].node >= node {
        node := tasks[i].node + 1;
      }
    }
  }

  lemma LostSubmit(s: Pool, p: Priority, node: nat)
    requires s.destructor == Draining(|s.queue.tasks|, false)
    requires s.holder.Free? && Find(s.queue.tasks, node) == |s.queue.tasks|
    ensures Enabled(s, Submit(p, node)) && Enabled(Apply(s, Submit(p, node)), DrainDone)
    ensures var s' := Apply(Apply(s, Submit(p, node)), DrainDone);
      && s'.destructor.Gone? && s'.queue.nextTaskId == s.queue.nextTaskId + 1
      && CallsOf(s', s.queue.nextTaskId) == CallsOf(s, s.queue.nextTaskId)
  {
    hide UpperBound, Find, Insert;
  }

  /** From every state of the loop, a late submission has a continuation in which the task is never completed. */
  lemma LateSubmitIsLost(states: seq<Pool>, steps: seq<Step>, p: Priority)
    returns (states': seq<Pool>, steps': seq<Step>)
    requires IsRun(states, steps) && states != [] && Last(states).destructor.Draining?
    ensures IsRun(states', steps') && Continues(states, steps, states', steps')
    ensures var s, s' := Last(states), Last(states');
      && s'.destructor.Gone? && s.queue.nextTaskId < s'.queue.nextTaskId
      && CallsOf(s', s.queue.nextTaskId) == 0
  {
    hide Init, Apply, Enabled, Times, CallsOf, CallInv, Find;
    states', steps' := LoopRuns(states, steps);
    states', steps' := CancelReturns(states', steps');
    var node := FreshNode(Last(states').queue.tasks);
    LostSubmit(Last(states'), p, node);
    AtMostTwice(states', steps', |steps'|, Last(states).queue.nextTaskId);
    states', steps' := RunExtends(states', steps', Submit(p, node));
    states', steps' := RunExtends(states', steps', DrainDone);
  }

  // ---------------------------------------------------------------------------------------------
  // And the last loop is reachable with a task in the queue

  /** A pool without workers and without a call in progress. */
  function Idle(q: Queue, d: Destructor, notifies: nat): Pool {
    Pool(q, [], Free, d, notifies, multiset{}, [])
  }

  lemma RunStarts()
    ensures IsRun([Idle(EMPTY, Alive, 0)], [])
  {
  }

  lemma ShutdownSteps(shut: Queue)
    requires shut == Queue(1, [], map[], false)
    ensures var s := Idle(EMPTY, Alive, 0);
            Enabled(s, BeginShutdown) && Apply(s, BeginShutdown) == Idle(shut, Swapped([]), 0)
    ensures var s := Idle(shut, Swapped([]), 0);
            Enabled(s, NotifyAll) && Apply(s, NotifyAll) == Idle(shut, Failing([]), 0)
    ensures var s := Idle(shut, Failing([]), 0);
            Enabled(s, FailDone) && Apply(s, FailDone) == Idle(shut, Joining, 0)
  {
  }

  lemma LateSteps(shut: Queue, late: Queue)
    requires shut == Queue(1, [], map[], false)
    requires late == Queue(2, [Entry(0, Task(1, Normal))], map[1 := 0], false)
    ensures var s := Idle(shut, Joining, 0);
            Enabled(s, Submit(Normal, 0)) && Apply(s, Submit(Normal, 0)) == Idle(late, Joining, 1)
    ensures var s := Idle(late, Joining, 1);
            Enabled(s, NotifyNobody) && Apply(s, NotifyNobody) == Idle(late, Joining, 0)
    ensures var s := Idle(late, Joining, 0);
            Enabled(s, Join) && Apply(s, Join) == Idle(late, Draining(0, false), 0)
  {
  }

  /** A run to the last loop, with task 1, submitted after shutdown began, in the queue. */
  lemma LoopIsReachable() returns (states: seq<Pool>, steps: seq<Step>)
    ensures IsRun(states, steps) && |states| == |steps| + 1 && Last(states).destructor.Draining?
    ensures 1 in Last(states).queue.idMap && Owed(Last(states), 1) == 1 && Last(states).queue.nextTaskId == 2
  {
    hide Apply, Enabled, Init, IsRun;
    var shut := Queue(1, [], map[], false);
    var late := Queue(2, [Entry(0, Task(1, Normal))], map[1 := 0], false);
    RunStarts();
    ShutdownSteps(shut);
    LateSteps(shut, late);
    states, steps := RunExtends([Idle(EMPTY, Alive, 0)], [], BeginShutdown);
    states, steps := RunExtends(states, steps, NotifyAll);
    states, steps := RunExtends(states, steps, FailDone);
    states, steps := RunExtends(states, steps, Submit(Normal, 0));
    states, steps := RunExtends(states, steps, NotifyNobody);
    states, steps := RunExtends(states, steps, Join);
    assert Last(states) == Idle(late, Draining(0, false), 0);
    assert Position(late.tasks, 1) == 0;
  }

  /** So a task completed twice, and a task never completed, are both reachable. */
  lemma NotAlwaysExactlyOnce()
    ensures exists states: seq<Pool>, steps: seq<Step> ::
              IsRun(states, steps) && states != [] && CallsOf(Last(states), 1) == 2
    ensures exists states: seq<Pool>, steps: seq<Step> ::
              IsRun(states, steps) && states != [] && Last(states).destructor.Gone?
              && Last(states).queue.nextTaskId > 2 && CallsOf(Last(states), 2) == 0
  {
    hide IsRun, CallsOf, Owed;
    var states, steps := LoopIsReachable();
    var states1, steps1 := LateCancelCallsTwice(states, steps, 1);
    var states2, steps2 := LateSubmitIsLost(states, steps, Normal);
  }
}

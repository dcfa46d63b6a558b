/** Who calls a task's completer, and how often, over all interleavings. */
module ThreadPoolCalls {
  import opened ThreadPoolQueue
  import opened ThreadPool
  import opened ThreadPoolSafety

  // ---------------------------------------------------------------------------------------------
  // Where each task is

  /**
   * The one place a task can be: in the queue, with a worker, in the destructor's list, completed by a
   * worker or from that list, or erased by a `Cancel`.
   */
  datatype Place = Queued | Held(worker: nat) | Local | Finished | Removed

  predicate IsAt(place: map<nat, Place>, id: nat, p: Place) {
    id in place && place[id] == p
  }

  ghost predicate Listed(tasks: seq<Task>, id: nat) {
    exists i :: 0 <= i < |tasks| && tasks[i].id == id
  }

  function LocalTasks(s: Pool): seq<Task> {
    if s.destructor.Swapped? || s.destructor.Failing? then s.destructor.left else []
  }

  ghost predicate QueuePlaces(s: Pool, place: map<nat, Place>) {
    && (forall i :: 0 <= i < |s.queue.tasks| ==> IsAt(place, s.queue.tasks[i].task.id, Queued))
    && (forall id :: IsAt(place, id, Queued) ==> HasTask(s.queue.tasks, id))
  }

  ghost predicate WorkerPlaces(s: Pool, place: map<nat, Place>) {
    && (forall w :: 0 <= w < |s.workers| && s.workers[w].Running? ==>
          s.workers[w].task.id in place && place[s.workers[w].task.id] == Held(w))
    && (forall id :: id in place && place[id].Held? ==>
          place[id].worker < |s.workers| && s.workers[place[id].worker].Running?
          && s.workers[place[id].worker].task.id == id)
  }

  ghost predicate LocalPlaces(s: Pool, place: map<nat, Place>) {
    var l := LocalTasks(s);
    && (forall i :: 0 <= i < |l| ==> l[i].id in place && place[l[i].id] == Local)
    && (forall i, j :: 0 <= i < j < |l| ==> l[i].id != l[j].id)
    && (forall id :: id in place && place[id] == Local ==> Listed(l, id))
  }

  /** A `Cancel` in progress has called this task's completer. */
  predicate BeingCancelled(s: Pool, id: nat) {
    s.holder.CancelCompleted? && s.holder.id == id
  }

  /** The calls so far are accounted for by the task's place, ... */
  ghost predicate Settled(s: Pool, place: map<nat, Place>, id: nat) {
    && (id in place <==> 0 < id < s.queue.nextTaskId)
    && Times(s, id, ByWorker) + Times(s, id, ByShutdown) == (if IsAt(place, id, Finished) then 1 else 0)
    && Times(s, id, ByCancel) == (if IsAt(place, id, Removed) || BeingCancelled(s, id) then 1 else 0)
  }

  /** ... except that the last loop may have added one. */
  ghost predicate Drained(s: Pool, place: map<nat, Place>, id: nat) {
    && Times(s, id, ByDrain) <= 1
    && (Times(s, id, ByDrain) == 1 ==> InDrain(s) && (IsAt(place, id, Queued) || IsAt(place, id, Removed)))
  }

  ghost predicate Accounted(s: Pool, place: map<nat, Place>, id: nat) {
    Settled(s, place, id) && Drained(s, place, id)
  }

  ghost predicate CallPlaces(s: Pool, place: map<nat, Place>) {
    forall id: nat :: Accounted(s, place, id)
  }

  /** The last loop is done with the entry at `i`. */
  predicate Passed(s: Pool, i: int) {
    s.destructor.Draining? && (i < s.destructor.at || (i == s.destructor.at && s.destructor.called))
  }

  /** The last loop has not called the completers it still has to come to. */
  ghost predicate CursorCalls(s: Pool) {
    s.destructor.Draining? ==>
      forall i :: 0 <= i < |s.queue.tasks| && !Passed(s, i) ==> Times(s, s.queue.tasks[i].task.id, ByDrain) == 0
  }

  ghost predicate PlaceInv(s: Pool, place: map<nat, Place>) {
    && QueuePlaces(s, place) && WorkerPlaces(s, place) && LocalPlaces(s, place)
    && CallPlaces(s, place) && CursorCalls(s)
  }

  /** Where everything is after a step. */
  ghost function NextPlace(s: Pool, place: map<nat, Place>, step: Step): map<nat, Place>
    requires Enabled(s, step)
  {
    match step
    case Dequeue(w) => place[s.queue.tasks[0].task.id := Held(w)]
    case Finish(w) => place[s.workers[w].task.id := Finished]
    case Submit(p, node) => place[s.queue.nextTaskId := Queued]
    case CancelErase => place[s.holder.id := Removed]
    case BeginShutdown => map id | id in place :: if place[id] == Queued then Local else place[id]
    case FailNext => place[s.destructor.left[0].id := Finished]
    case _ => place
  }

  /** The call a step makes. */
  function Makes(s: Pool, step: Step): Option<Call>
    requires Enabled(s, step)
  {
    match step
    case Finish(w) => Some(Call(s.workers[w].task.id, ByWorker))
    case CancelComplete => Some(Call(s.queue.tasks[Find(s.queue.tasks, s.holder.node)].task.id, ByCancel))
    case FailNext => Some(Call(s.destructor.left[0].id, ByShutdown))
    case DrainCall => Some(Call(s.queue.tasks[s.destructor.at].task.id, ByDrain))
    case _ => None
  }

  lemma CallsAfter(s: Pool, step: Step, id: nat, caller: Caller)
    requires Enabled(s, step)
    ensures Times(Apply(s, step), id, caller)
         == Times(s, id, caller) + (if Makes(s, step) == Some(Call(id, caller)) then 1 else 0)
  {
    hide Insert, Remove, UpperBound, Find, NoneAsleep, AllExited;
  }

  /** Where the task that a step moves has been until then. */
  ghost predicate MovesFrom(s: Pool, place: map<nat, Place>, step: Step)
    requires Enabled(s, step)
  {
    match step
    case Dequeue(w) => IsAt(place, s.queue.tasks[0].task.id, Queued)
    case Finish(w) => IsAt(place, s.workers[w].task.id, Held(w))
    case Submit(p, node) => s.queue.nextTaskId !in place
    case CancelComplete =>
      && IsAt(place, s.holder.id, Queued)
      && s.queue.tasks[Find(s.queue.tasks, s.holder.node)].task.id == s.holder.id
    case CancelErase => IsAt(place, s.holder.id, Queued)
    case FailNext => IsAt(place, s.destructor.left[0].id, Local)
    case DrainCall =>
      var id := s.queue.tasks[s.destructor.at].task.id;
      IsAt(place, id, Queued) && Times(s, id, ByDrain) == 0
    case _ => true
  }

  lemma PlaceBefore(s: Pool, place: map<nat, Place>, step: Step)
    requires QueueInv(s) && PlaceInv(s, place) && Enabled(s, step)
    ensures MovesFrom(s, place, step)
  {
    hide HasTask, Listed, Indexed, Find, AllExited, NoneAsleep, Ordered;
    match step {
      case FailNext => assert LocalTasks(s)[0] == s.destructor.left[0];
      case DrainCall => assert !Passed(s, s.destructor.at);
      case Submit(p, node) => assert Accounted(s, place, s.queue.nextTaskId);
      case _ =>
    }
  }

  // ---------------------------------------------------------------------------------------------
  // Workers

  /** A step after which the same workers run the same tasks. */
  lemma WorkerPlacesFrame(s: Pool, place: map<nat, Place>, s': Pool, place': map<nat, Place>)
    requires WorkerPlaces(s, place) && |s'.workers| == |s.workers|
    requires forall w :: 0 <= w < |s.workers| ==>
               (s.workers[w].Running? || s'.workers[w].Running? ==> s'.workers[w] == s.workers[w])
    requires forall id, w :: IsAt(place, id, Held(w)) <==> IsAt(place', id, Held(w))
    ensures WorkerPlaces(s', place')
  {
    forall id | id in place' && place'[id].Held?
      ensures IsAt(place, id, place'[id])
    {
      assert IsAt(place', id, Held(place'[id].worker));
    }
    forall w | 0 <= w < |s.workers| && s'.workers[w].Running?
      ensures IsAt(place', s'.workers[w].task.id, Held(w))
    {
      assert IsAt(place, s.workers[w].task.id, Held(w));
    }
  }

  lemma WorkerPlacesDequeue(s: Pool, place: map<nat, Place>, w: nat)
    requires WorkerPlaces(s, place) && Enabled(s, Dequeue(w)) && MovesFrom(s, place, Dequeue(w))
    ensures WorkerPlaces(Apply(s, Dequeue(w)), NextPlace(s, place, Dequeue(w)))
  {
  }

  lemma WorkerPlacesFinish(s: Pool, place: map<nat, Place>, w: nat)
    requires WorkerPlaces(s, place) && Enabled(s, Finish(w)) && MovesFrom(s, place, Finish(w))
    ensures WorkerPlaces(Apply(s, Finish(w)), NextPlace(s, place, Finish(w)))
  {
  }

  /** Only `Dequeue` and `Finish` change who holds what, ... */
  lemma HeldKept(s: Pool, place: map<nat, Place>, step: Step)
    requires Enabled(s, step) && MovesFrom(s, place, step) && !step.Dequeue? && !step.Finish?
    ensures forall id, w :: IsAt(place, id, Held(w)) <==> IsAt(NextPlace(s, place, step), id, Held(w))
  {
  }

  /** ... and who runs what. */
  lemma RunnersKept(s: Pool, step: Step)
    requires Enabled(s, step) && !step.Dequeue? && !step.Finish?
    ensures var s' := Apply(s, step);
      && |s'.workers| == |s.workers|
      && forall w :: 0 <= w < |s.workers| ==>
           (s.workers[w].Running? || s'.workers[w].Running? ==> s'.workers[w] == s.workers[w])
  {
  }

  lemma WorkerPlacesStep(s: Pool, place: map<nat, Place>, step: Step)
    requires WorkerPlaces(s, place) && Enabled(s, step) && MovesFrom(s, place, step)
    ensures WorkerPlaces(Apply(s, step), NextPlace(s, place, step))
  {
    hide WorkerPlaces, Enabled, MovesFrom, Apply, NextPlace, IsAt;
    if step.Dequeue? {
      WorkerPlacesDequeue(s, place, step.worker);
    } else if step.Finish? {
      WorkerPlacesFinish(s, place, step.worker);
    } else {
      HeldKept(s, place, step);
      RunnersKept(s, step);
      WorkerPlacesFrame(s, place, Apply(s, step), NextPlace(s, place, step));
    }
  }

  // ---------------------------------------------------------------------------------------------
  // The destructor's list

  /** A step that keeps the destructor's list and moves no task into or out of it. */
  lemma LocalPlacesFrame(s: Pool, place: map<nat, Place>, s': Pool, place': map<nat, Place>)
    requires LocalPlaces(s, place) && LocalTasks(s') == LocalTasks(s)
    requires forall id :: IsAt(place', id, Local) <==> IsAt(place, id, Local)
    ensures LocalPlaces(s', place')
  {
    hide Listed;
    assert forall id :: IsAt(place', id, Local) <==> id in place' && place'[id] == Local;
    assert forall id :: IsAt(place, id, Local) <==> id in place && place[id] == Local;
  }

  lemma LocalPlacesShutdown(s: Pool, place: map<nat, Place>)
    requires QueueInv(s) && PlaceInv(s, place) && Enabled(s, BeginShutdown)
    ensures LocalPlaces(Apply(s, BeginShutdown), NextPlace(s, place, BeginShutdown))
  {
    hide HasTask, Listed, Indexed, WorkerPlaces, CallPlaces, CursorCalls;
    var s' := Apply(s, BeginShutdown);
    var place' := NextPlace(s, place, BeginShutdown);
    forall id | id in place' && place'[id] == Local ensures Listed(LocalTasks(s'), id) {
      var i := TaskIndex(s.queue.tasks, id) by { NothingListed(id); }
      ListedAt(LocalTasks(s'), i);
    }
  }

  lemma LocalPlacesFail(s: Pool, place: map<nat, Place>)
    requires PlaceInv(s, place) && Enabled(s, FailNext)
    ensures LocalPlaces(Apply(s, FailNext), NextPlace(s, place, FailNext))
  {
    hide Listed, QueuePlaces, WorkerPlaces, CallPlaces, CursorCalls;
    var s' := Apply(s, FailNext);
    var place' := NextPlace(s, place, FailNext);
    assert LocalTasks(s') == LocalTasks(s)[1..] && LocalTasks(s)[0] == s.destructor.left[0];
    forall id | id in place' && place'[id] == Local ensures Listed(LocalTasks(s'), id) {
      var i := ListIndex(LocalTasks(s), id);
      ListedAt(LocalTasks(s'), i - 1);
    }
  }

  lemma LocalPlacesStep(s: Pool, place: map<nat, Place>, step: Step)
    requires QueueInv(s) && PhaseInv(s) && PlaceInv(s, place) && Enabled(s, step) && MovesFrom(s, place, step)
    ensures LocalPlaces(Apply(s, step), NextPlace(s, place, step))
  {
    hide QueueInv, PhaseInv, QueuePlaces, WorkerPlaces, LocalPlaces, CallPlaces, CursorCalls;
    hide UpperBound, Insert, Remove, Find;
    match step {
      case BeginShutdown => LocalPlacesShutdown(s, place);
      case FailNext => LocalPlacesFail(s, place);
      case FailDone =>
        assert LocalTasks(Apply(s, step)) == LocalTasks(s);
        LocalPlacesFrame(s, place, Apply(s, step), place);
      case _ => LocalPlacesFrame(s, place, Apply(s, step), NextPlace(s, place, step));
    }
  }

  lemma ListedAt(tasks: seq<Task>, i: nat)
    requires i < |tasks|
    ensures Listed(tasks, tasks[i].id)
  {
  }

  lemma ListIndex(tasks: seq<Task>, id: nat) returns (i: nat)
    requires Listed(tasks, id)
    ensures i < |tasks| && tasks[i].id == id
  {
    i :| i < |tasks| && tasks[i].id == id;
  }

  lemma NothingListed(id: nat)
    ensures !Listed([], id)
  {
  }

  // ---------------------------------------------------------------------------------------------
  // The queue

  /** The steps that leave the entries of the queue alone. */
  predicate LeavesQueue(step: Step) {
    !step.Dequeue? && !step.Submit? && !step.CancelErase? && !step.BeginShutdown?
  }

  lemma QueueKept(s: Pool, place: map<nat, Place>, step: Step)
    requires Enabled(s, step) && MovesFrom(s, place, step) && LeavesQueue(step)
    ensures Apply(s, step).queue.tasks == s.queue.tasks
    ensures forall id :: IsAt(NextPlace(s, place, step), id, Queued) <==> IsAt(place, id, Queued)
  {
  }

  lemma QueuePlacesFrame(s: Pool, place: map<nat, Place>, s': Pool, place': map<nat, Place>)
    requires QueuePlaces(s, place) && s'.queue.tasks == s.queue.tasks
    requires forall id :: IsAt(place', id, Queued) <==> IsAt(place, id, Queued)
    ensures QueuePlaces(s', place')
  {
    hide HasTask, IsAt;
  }

  lemma QueuePlacesStep(s: Pool, place: map<nat, Place>, step: Step)
    requires QueueInv(s) && QueuePlaces(s, place) && Enabled(s, step) && MovesFrom(s, place, step)
    ensures QueuePlaces(Apply(s, step), NextPlace(s, place, step))
  {
    hide QueueInv, QueuePlaces, Enabled, MovesFrom, Apply, NextPlace;
    if step.Dequeue? {
      QueuePlacesDequeue(s, place, step.worker);
    } else if step.Submit? {
      QueuePlacesSubmit(s, place, step.priority, step.node);
    } else if step.CancelErase? {
      QueuePlacesErase(s, place);
    } else if step.BeginShutdown? {
      QueuePlacesShutdown(s, place);
    } else {
      QueueKept(s, place, step);
      QueuePlacesFrame(s, place, Apply(s, step), NextPlace(s, place, step));
    }
  }

  lemma QueuePlacesShutdown(s: Pool, place: map<nat, Place>)
    requires QueuePlaces(s, place) && Enabled(s, BeginShutdown)
    ensures QueuePlaces(Apply(s, BeginShutdown), NextPlace(s, place, BeginShutdown))
  {
  }

  lemma QueuePlacesDequeue(s: Pool, place: map<nat, Place>, w: nat)
    requires QueueInv(s) && QueuePlaces(s, place) && Enabled(s, Dequeue(w))
    ensures QueuePlaces(Apply(s, Dequeue(w)), NextPlace(s, place, Dequeue(w)))
  {
    hide HasTask, Indexed;
    var s' := Apply(s, Dequeue(w));
    var place' := NextPlace(s, place, Dequeue(w));
    forall id | IsAt(place', id, Queued) ensures HasTask(s'.queue.tasks, id) {
      assert IsAt(place, id, Queued);
      var i := TaskIndex(s.queue.tasks, id);
      HasTaskAt(s'.queue.tasks, i - 1);
    }
  }

  lemma QueuePlacesSubmit(s: Pool, place: map<nat, Place>, p: Priority, node: nat)
    requires QueuePlaces(s, place) && Enabled(s, Submit(p, node))
    ensures QueuePlaces(Apply(s, Submit(p, node)), NextPlace(s, place, Submit(p, node)))
  {
    hide HasTask, UpperBound, Insert, Find, IsAt;
    var s' := Apply(s, Submit(p, node));
    var place' := NextPlace(s, place, Submit(p, node));
    var k := UpperBound(s.queue.tasks, p);
    forall i | 0 <= i < |s'.queue.tasks|
      ensures IsAt(place', s'.queue.tasks[i].task.id, Queued)
    {
      if i != k {
        assert s'.queue.tasks[i] == s.queue.tasks[if i < k then i else i - 1];
        QueuedStays(place, s.queue.nextTaskId, s'.queue.tasks[i].task.id);
      } else {
        QueuedStays(place, s.queue.nextTaskId, s.queue.nextTaskId);
      }
    }
    forall id | IsAt(place', id, Queued) ensures HasTask(s'.queue.tasks, id) {
      if id == s.queue.nextTaskId {
        HasTaskAt(s'.queue.tasks, k);
      } else {
        QueuedStays(place, s.queue.nextTaskId, id);
        var i := TaskIndex(s.queue.tasks, id);
        HasTaskAt(s'.queue.tasks, if i < k then i else i + 1);
      }
    }
  }

  lemma QueuedStays(place: map<nat, Place>, added: nat, id: nat)
    ensures IsAt(place[added := Queued], id, Queued) <==> id == added || IsAt(place, id, Queued)
  {
  }

  lemma QueuePlacesErase(s: Pool, place: map<nat, Place>)
    requires QueueInv(s) && QueuePlaces(s, place) && Enabled(s, CancelErase)
    ensures QueuePlaces(Apply(s, CancelErase), NextPlace(s, place, CancelErase))
  {
    hide HasTask, Indexed, Remove, Find;
    var s' := Apply(s, CancelErase);
    var k := Find(s.queue.tasks, s.holder.node);
    forall id | IsAt(NextPlace(s, place, CancelErase), id, Queued) ensures HasTask(s'.queue.tasks, id) {
      assert IsAt(place, id, Queued);
      var i := TaskIndex(s.queue.tasks, id);
      HasTaskAt(s'.queue.tasks, if i < k then i else i - 1);
    }
  }

  // ---------------------------------------------------------------------------------------------
  // Calls

  lemma SettledStep(s: Pool, place: map<nat, Place>, step: Step, id: nat)
    requires Enabled(s, step) && MovesFrom(s, place, step) && s.queue.nextTaskId > 0
    requires Settled(s, place, id)
    ensures Settled(Apply(s, step), NextPlace(s, place, step), id)
  {
    hide Times, Apply, Enabled, MovesFrom, NextPlace, IsAt, BeingCancelled;
    KnownStep(s, place, step, id);
    FinishedStep(s, place, step, id);
    CancelledStep(s, place, step, id);
  }

  lemma KnownStep(s: Pool, place: map<nat, Place>, step: Step, id: nat)
    requires Enabled(s, step) && MovesFrom(s, place, step) && s.queue.nextTaskId > 0
    requires id in place <==> 0 < id < s.queue.nextTaskId
    ensures id in NextPlace(s, place, step) <==> 0 < id < Apply(s, step).queue.nextTaskId
  {
    hide Find, Insert, Remove, UpperBound, NoneAsleep, AllExited, Times;
  }

  lemma FinishedStep(s: Pool, place: map<nat, Place>, step: Step, id: nat)
    requires Enabled(s, step) && MovesFrom(s, place, step)
    requires Times(s, id, ByWorker) + Times(s, id, ByShutdown) == (if IsAt(place, id, Finished) then 1 else 0)
    ensures Times(Apply(s, step), id, ByWorker) + Times(Apply(s, step), id, ByShutdown)
         == (if IsAt(NextPlace(s, place, step), id, Finished) then 1 else 0)
  {
    CallsAfter(s, step, id, ByWorker);
    CallsAfter(s, step, id, ByShutdown);
    hide Times, Find, NoneAsleep, AllExited, Apply;
  }

  lemma CancelledStep(s: Pool, place: map<nat, Place>, step: Step, id: nat)
    requires Enabled(s, step) && MovesFrom(s, place, step)
    requires Times(s, id, ByCancel) == (if IsAt(place, id, Removed) || BeingCancelled(s, id) then 1 else 0)
    ensures var s', place' := Apply(s, step), NextPlace(s, place, step);
      Times(s', id, ByCancel) == (if IsAt(place', id, Removed) || BeingCancelled(s', id) then 1 else 0)
  {
    hide Times, Find, Insert, Remove, UpperBound, NoneAsleep, AllExited;
    CallsAfter(s, step, id, ByCancel);
  }

  lemma DrainedStep(s: Pool, place: map<nat, Place>, step: Step, id: nat)
    requires PhaseInv(s) && Enabled(s, step) && MovesFrom(s, place, step)
    requires Drained(s, place, id)
    ensures Drained(Apply(s, step), NextPlace(s, place, step), id)
  {
    hide Times, Find, Insert, Remove, UpperBound, NoneAsleep, AllExited;
    CallsAfter(s, step, id, ByDrain);
  }

  lemma CursorCallsStep(s: Pool, place: map<nat, Place>, step: Step)
    requires QueueInv(s) && PhaseInv(s) && CursorInv(s) && QueuePlaces(s, place) && CallPlaces(s, place)
    requires CursorCalls(s) && Enabled(s, step)
    ensures CursorCalls(Apply(s, step))
  {
    hide Times, Find, Insert, Remove, UpperBound, Indexed, NoneAsleep, AllExited, HasTask, Accounted;
    var s' := Apply(s, step);
    if s'.destructor.Draining? {
      forall i | 0 <= i < |s'.queue.tasks| && !Passed(s', i)
        ensures Times(s', s'.queue.tasks[i].task.id, ByDrain) == 0
      {
        var id := s'.queue.tasks[i].task.id;
        CallsAfter(s, step, id, ByDrain);
        NoDrainCallsYet(s, place, id);
        if step.Submit? {
          var k := UpperBound(s.queue.tasks, step.priority);
          if i != k {
            assert !Passed(s, if i < k then i else i - 1);
          }
        } else if step.CancelErase? {
          var k := Find(s.queue.tasks, s.holder.node);
          assert !Passed(s, if i < k then i else i + 1);
        } else if s.destructor.Draining? {
          assert !Passed(s, i);
        }
      }
    }
  }

  /** Before the last loop it has called nothing, and it never has for a task yet to be submitted. */
  lemma NoDrainCallsYet(s: Pool, place: map<nat, Place>, id: nat)
    requires CallPlaces(s, place)
    ensures !InDrain(s) || id >= s.queue.nextTaskId ==> Times(s, id, ByDrain) == 0
  {
    assert Accounted(s, place, id);
  }

  // ---------------------------------------------------------------------------------------------
  // Runs

  ghost predicate CallInv(s: Pool, place: map<nat, Place>) {
    Inv(s) && PlaceInv(s, place)
  }

  lemma CallInvInit(s: Pool)
    requires Init(s)
    ensures CallInv(s, map[])
  {
    InvInit(s);
  }

  lemma CallInvStep(s: Pool, place: map<nat, Place>, step: Step)
    requires CallInv(s, place) && Enabled(s, step)
    ensures CallInv(Apply(s, step), NextPlace(s, place, step))
  {
    hide QueueInv, PhaseInv, CursorInv, WakeInv, HistoryInv, QueuePlaces, WorkerPlaces, LocalPlaces, CursorCalls;
    hide Settled, Drained, Apply, NextPlace, Enabled, MovesFrom;
    InvStep(s, step);
    PlaceBefore(s, place, step);
    QueuePlacesStep(s, place, step);
    WorkerPlacesStep(s, place, step);
    LocalPlacesStep(s, place, step);
    CursorCallsStep(s, place, step);
    QueueIsOrdered(s);
    forall id: nat
      ensures Accounted(Apply(s, step), NextPlace(s, place, step), id)
    {
      assert Accounted(s, place, id);
      SettledStep(s, place, step, id);
      DrainedStep(s, place, step, id);
    }
  }

  /** Every state of every interleaving has a place for every task ever submitted, and its calls add up. */
  lemma {:induction false} RunCalls(states: seq<Pool>, steps: seq<Step>, n: nat) returns (place: map<nat, Place>)
    requires IsRun(states, steps) && n < |states|
    ensures CallInv(states[n], place)
  {
    hide CallInv, Init, Apply, NextPlace, Enabled;
    if n == 0 {
      CallInvInit(states[0]);
      place := map[];
    } else {
      var before := RunCalls(states, steps, n - 1);
      CallInvStep(states[n - 1], before, steps[n - 1]);
      place := NextPlace(states[n - 1], before, steps[n - 1]);
    }
  }

  lemma CallsOfPlace(s: Pool, place: map<nat, Place>, id: nat)
    requires CallInv(s, place)
    ensures id in place <==> 0 < id < s.queue.nextTaskId
    ensures CallsOf(s, id)
         == Times(s, id, ByDrain)
            + (if IsAt(place, id, Finished) || IsAt(place, id, Removed) || BeingCancelled(s, id) then 1 else 0)
    ensures BeingCancelled(s, id) ==> IsAt(place, id, Queued)
    ensures Times(s, id, ByDrain) <= 1
    ensures Times(s, id, ByDrain) == 1 ==> InDrain(s) && (IsAt(place, id, Queued) || IsAt(place, id, Removed))
    ensures Times(s, id, ByCancel) == (if IsAt(place, id, Removed) || BeingCancelled(s, id) then 1 else 0)
  {
    hide WorkerPlaces, LocalPlaces, CursorCalls, Indexed, Ordered, HasTask, PhaseInv, WakeInv, HistoryInv, Times;
    assert Accounted(s, place, id);
  }

  /**
   * In every interleaving, whatever callers do, a completer is called at most twice, and twice exactly
   * when a `Cancel` and the destructor's last loop have both called it.
   */
  lemma AtMostTwice(states: seq<Pool>, steps: seq<Step>, n: nat, id: nat)
    requires IsRun(states, steps) && n < |states|
    ensures CallsOf(states[n], id) <= 2
    ensures CallsOf(states[n], id) == 2 <==> Times(states[n], id, ByCancel) > 0 && Times(states[n], id, ByDrain) > 0
    ensures CallsOf(states[n], id) > 0 ==> 0 < id < states[n].queue.nextTaskId
  {
    hide CallInv, CallsOf;
    var place := RunCalls(states, steps, n);
    CallsOfPlace(states[n], place, id);
  }

  /** Until the workers have been joined it is called at most once, whatever callers do. */
  lemma AtMostOnceBeforeDrain(states: seq<Pool>, steps: seq<Step>, n: nat, id: nat)
    requires IsRun(states, steps) && n < |states| && !InDrain(states[n])
    ensures CallsOf(states[n], id) <= 1
  {
    hide CallInv, CallsOf;
    var place := RunCalls(states, steps, n);
    CallsOfPlace(states[n], place, id);
  }

  /** No step calls a completer that the same caller has called before. */
  lemma CallersDoNotRepeat(states: seq<Pool>, steps: seq<Step>, n: nat)
    requires IsRun(states, steps) && n < |steps| && Makes(states[n], steps[n]).Some?
    ensures states[n].calls[Makes(states[n], steps[n]).value] == 0
  {
    hide Enabled, Makes, Apply;
    var c := Makes(states[n], steps[n]).value;
    var place := RunCalls(states, steps, n + 1);
    CallsAfter(states[n], steps[n], c.id, c.caller);
    assert Accounted(states[n + 1], place, c.id);
    match c.caller
    case ByWorker =>
    case ByShutdown =>
    case ByCancel =>
    case ByDrain =>
  }

  /** What the calls come to when the destructor has returned. */
  lemma CallsWhenGone(states: seq<Pool>, steps: seq<Step>, n: nat, id: nat)
    requires IsRun(states, steps) && n < |states| && states[n].destructor.Gone?
    requires 0 < id < states[n].queue.nextTaskId
    ensures CallsOf(states[n], id) == Times(states[n], id, ByDrain)
              + (if HasTask(states[n].queue.tasks, id) && !BeingCancelled(states[n], id) then 0 else 1)
  {
    hide HasTask, Listed, CallsOf;
    var s := states[n];
    var place := RunCalls(states, steps, n);
    CallsOfPlace(s, place, id);
    match place[id] {
      case Queued =>
      case Local => NothingListed(id);
      case _ =>
        if HasTask(s.queue.tasks, id) {
          var i := TaskIndex(s.queue.tasks, id);
        }
    }
  }

  // ---------------------------------------------------------------------------------------------
  // Runs whose callers keep out of the destructor's last loop

  ghost predicate QuietInv(s: Pool, place: map<nat, Place>) {
    && (InDrain(s) ==> s.holder.Free? && !s.destructor.Dangling?)
    && (forall i :: 0 <= i < |s.queue.tasks| && (Passed(s, i) || s.destructor.Gone?) ==>
          Times(s, s.queue.tasks[i].task.id, ByDrain) == 1)
    && (forall id :: IsAt(place, id, Removed) ==> Times(s, id, ByDrain) == 0)
  }

  lemma QuietInvStep(s: Pool, place: map<nat, Place>, step: Step)
    requires CallInv(s, place) && QuietInv(s, place) && Enabled(s, step) && QuietStep(s, step)
    ensures QuietInv(Apply(s, step), NextPlace(s, place, step))
  {
    hide CallInv, Times, Find, Insert, Remove, UpperBound, NoneAsleep, AllExited, IsAt;
    var s', place' := Apply(s, step), NextPlace(s, place, step);
    forall i | 0 <= i < |s'.queue.tasks| && (Passed(s', i) || s'.destructor.Gone?)
      ensures Times(s', s'.queue.tasks[i].task.id, ByDrain) == 1
    {
      QuietQueue(s, place, step, i);
    }
    forall id | IsAt(place', id, Removed)
      ensures Times(s', id, ByDrain) == 0
    {
      QuietRemoved(s, place, step, id);
    }
  }

  lemma QuietQueue(s: Pool, place: map<nat, Place>, step: Step, i: nat)
    requires CallInv(s, place) && QuietInv(s, place) && Enabled(s, step) && QuietStep(s, step)
    requires var s' := Apply(s, step); i < |s'.queue.tasks| && (Passed(s', i) || s'.destructor.Gone?)
    ensures Times(Apply(s, step), Apply(s, step).queue.tasks[i].task.id, ByDrain) == 1
  {
    hide CallInv, Times, Find, Insert, Remove, UpperBound, NoneAsleep, AllExited, IsAt;
    CallsAfter(s, step, Apply(s, step).queue.tasks[i].task.id, ByDrain);
    var place' := CallInvNext(s, place, step);
    CallsOfPlace(Apply(s, step), place', Apply(s, step).queue.tasks[i].task.id);
    RunningWhileAlive(s, place);
    assert Apply(s, step).queue.tasks[i] == s.queue.tasks[i];
  }

  lemma RunningWhileAlive(s: Pool, place: map<nat, Place>)
    requires CallInv(s, place)
    ensures s.queue.running <==> s.destructor.Alive?
  {
  }

  lemma CallInvNext(s: Pool, place: map<nat, Place>, step: Step) returns (place': map<nat, Place>)
    requires CallInv(s, place) && Enabled(s, step)
    ensures CallInv(Apply(s, step), place')
  {
    CallInvStep(s, place, step);
    place' := NextPlace(s, place, step);
  }

  lemma QuietRemoved(s: Pool, place: map<nat, Place>, step: Step, id: nat)
    requires CallInv(s, place) && QuietInv(s, place) && Enabled(s, step) && QuietStep(s, step)
    requires IsAt(NextPlace(s, place, step), id, Removed)
    ensures Times(Apply(s, step), id, ByDrain) == 0
  {
    hide Times, Find, Insert, Remove, UpperBound, NoneAsleep, AllExited, Ordered, Indexed, WakeInv, HistoryInv;
    hide WorkerPlaces, LocalPlaces, CursorCalls, CallPlaces, HasTask;
    PlaceBefore(s, place, step);
    CallsAfter(s, step, id, ByDrain);
    CallsOfPlace(s, place, id);
  }

  lemma {:induction false} RunQuiet(states: seq<Pool>, steps: seq<Step>, n: nat) returns (place: map<nat, Place>)
    requires IsRun(states, steps) && Quiet(states, steps) && n < |states|
    ensures CallInv(states[n], place) && QuietInv(states[n], place)
  {
    hide CallInv, QuietInv, Apply, NextPlace, Enabled, QuietStep, Init;
    if n == 0 {
      CallInvInit(states[0]);
      place := map[];
      QuietStart(states[0]);
    } else {
      var before := RunQuiet(states, steps, n - 1);
      assert QuietStep(states[n - 1], steps[n - 1]);
      CallInvStep(states[n - 1], before, steps[n - 1]);
      QuietInvStep(states[n - 1], before, steps[n - 1]);
      place := NextPlace(states[n - 1], before, steps[n - 1]);
    }
  }

  lemma QuietStart(s: Pool)
    requires Init(s)
    ensures QuietInv(s, map[])
  {
  }

  /** If callers keep out of the last loop, a completer is never called twice ... */
  lemma AtMostOnce(states: seq<Pool>, steps: seq<Step>, n: nat, id: nat)
    requires IsRun(states, steps) && Quiet(states, steps) && n < |states|
    ensures CallsOf(states[n], id) <= 1
  {
    hide CallInv, CallsOf;
    var place := RunQuiet(states, steps, n);
    CallsOfPlace(states[n], place, id);
  }

  /** ... and when the destructor returns, every submitted task has been completed exactly once. */
  lemma ExactlyOnceWhenGone(states: seq<Pool>, steps: seq<Step>, n: nat, id: nat)
    requires IsRun(states, steps) && Quiet(states, steps) && n < |states| && states[n].destructor.Gone?
    ensures CallsOf(states[n], id) == if 0 < id < states[n].queue.nextTaskId then 1 else 0
  {
    hide CallInv, CallsOf, HasTask;
    var s := states[n];
    var place := RunQuiet(states, steps, n);
    CallsOfPlace(s, place, id);
    if 0 < id < s.queue.nextTaskId {
      CallsWhenGone(states, steps, n, id);
      if HasTask(s.queue.tasks, id) {
        var i := TaskIndex(s.queue.tasks, id);
      }
    }
  }
}

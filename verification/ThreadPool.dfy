/**
 * The thread pool as a step system. A step is one critical section, one notification or one completer
 * call; the steps of submitters, cancellers, workers and the destructor interleave freely.
 */
module ThreadPool {
  import opened ThreadPoolQueue

  /** Where a worker thread stands in `RunThread`. */
  datatype Worker =
    | Checking            // about to take the mutex and evaluate the wait predicate
    | Asleep              // inside `cond.wait`
    | Running(task: Task) // in the task's function, its completer not called yet
    | Exited

  /** Who is inside the one critical section that contains a completer call: a `Cancel` in progress. */
  datatype Holder = Free | CancelExtracted(id: nat, node: nat) | CancelCompleted(id: nat, node: nat)

  /**
   * How far the destructor has come. `left` is what the loop over the swapped-out tasks has to do. The
   * last loop walks the live queue by an iterator and without the mutex: `at` is the position of the
   * entry it points at (the length of the queue when it is the end iterator), and `called` says whether
   * that entry's completer has been called already. When somebody erases the entry under the iterator,
   * the iterator dangles and the loop has no defined continuation.
   */
  datatype Destructor =
    | Alive
    | Swapped(left: seq<Task>)
    | Failing(left: seq<Task>)
    | Joining
    | Draining(at: nat, called: bool)
    | Dangling
    | Gone

  /** The four places that call a completer. */
  datatype Caller = ByWorker | ByShutdown | ByCancel | ByDrain

  datatype Call = Call(id: nat, caller: Caller)

  /**
   * `notifies` counts submitters between unlocking and `notify_one`; `calls` counts completer calls by
   * task id and caller; `started` is the order in which tasks left the queue for a worker.
   */
  datatype Pool = Pool(
    queue: Queue, workers: seq<Worker>, holder: Holder, destructor: Destructor,
    notifies: nat, calls: multiset<Call>, started: seq<Task>)

  /** How often one of them has called the completer of a task, ... */
  function Times(s: Pool, id: nat, caller: Caller): nat {
    s.calls[Call(id, caller)]
  }

  /** ... and how often anybody has. */
  function CallsOf(s: Pool, id: nat): nat {
    Times(s, id, ByWorker) + Times(s, id, ByShutdown) + Times(s, id, ByCancel) + Times(s, id, ByDrain)
  }

  datatype Step =
    | Sleep(worker: nat)
    | Exit(worker: nat)
    | Dequeue(worker: nat)
    | Finish(worker: nat)
    | SpuriousWake(worker: nat)
    | NotifyOne(worker: nat)
    | NotifyNobody
    | Submit(priority: Priority, node: nat)
    | Cancel(id: nat)
    | CancelComplete
    | CancelErase
    | BeginShutdown
    | NotifyAll
    | FailNext
    | FailDone
    | Join
    | DrainCall
    | DrainAdvance
    | DrainDone

  predicate AllExited(workers: seq<Worker>) {
    forall w :: 0 <= w < |workers| ==> workers[w].Exited?
  }

  predicate NoneAsleep(workers: seq<Worker>) {
    forall w :: 0 <= w < |workers| ==> !workers[w].Asleep?
  }

  /** The workers have been joined. */
  predicate InDrain(s: Pool) {
    s.destructor.Draining? || s.destructor.Dangling? || s.destructor.Gone?
  }

  /** What can happen next. Nothing does once the destructor has returned: the pool is no more. */
  predicate Enabled(s: Pool, step: Step) {
    !s.destructor.Gone? &&
    match step
    case Sleep(w) =>
      w < |s.workers| && s.workers[w].Checking? && s.holder.Free? && s.queue.running && s.queue.tasks == []
    case Exit(w) => w < |s.workers| && s.workers[w].Checking? && s.holder.Free? && !s.queue.running
    case Dequeue(w) =>
      w < |s.workers| && s.workers[w].Checking? && s.holder.Free? && s.queue.running && s.queue.tasks != []
    case Finish(w) => w < |s.workers| && s.workers[w].Running?
    case SpuriousWake(w) => w < |s.workers| && s.workers[w].Asleep?
    case NotifyOne(w) => s.notifies > 0 && w < |s.workers| && s.workers[w].Asleep?
    case NotifyNobody => s.notifies > 0 && NoneAsleep(s.workers)
    case Submit(p, node) => s.holder.Free? && Find(s.queue.tasks, node) == |s.queue.tasks|
    case Cancel(id) => s.holder.Free? && id in s.queue.idMap
    case CancelComplete => s.holder.CancelExtracted? && Find(s.queue.tasks, s.holder.node) < |s.queue.tasks|
    case CancelErase => s.holder.CancelCompleted? && Find(s.queue.tasks, s.holder.node) < |s.queue.tasks|
    case BeginShutdown => s.holder.Free? && s.destructor.Alive?
    case NotifyAll => s.destructor.Swapped?
    case FailNext => s.destructor.Failing? && s.destructor.left != []
    case FailDone => s.destructor.Failing? && s.destructor.left == []
    case Join => s.destructor.Joining? && AllExited(s.workers)
    case DrainCall => s.destructor.Draining? && !s.destructor.called && s.destructor.at < |s.queue.tasks|
    case DrainAdvance => s.destructor.Draining? && s.destructor.called
    case DrainDone => s.destructor.Draining? && !s.destructor.called && s.destructor.at == |s.queue.tasks|
  }

  function Tasks(entries: seq<Entry>): (ts: seq<Task>)
    ensures |ts| == |entries|
    ensures forall i :: 0 <= i < |ts| ==> ts[i] == entries[i].task
  {
    seq(|entries|, i requires 0 <= i < |entries| => entries[i].task)
  }

  function WakeAll(workers: seq<Worker>): (ws: seq<Worker>)
    ensures |ws| == |workers|
    ensures forall w :: 0 <= w < |ws| ==> ws[w] == if workers[w].Asleep? then Checking else workers[w]
  {
    seq(|workers|, w requires 0 <= w < |workers| => if workers[w].Asleep? then Checking else workers[w])
  }

  /** The loop's iterator keeps its entry when another one is inserted at `k`, ... */
  function AfterInsert(d: Destructor, k: nat): Destructor {
    if d.Draining? && k <= d.at then Draining(d.at + 1, d.called) else d
  }

  /** ... and when another one is erased. */
  function AfterErase(d: Destructor, k: nat): Destructor {
    if !d.Draining? || k > d.at then d else if k < d.at then Draining(d.at - 1, d.called) else Dangling
  }

  /** A `Cancel` call that finds its id takes the mutex and extracts the index entry. */
  function EnterCancel(s: Pool, id: nat): Pool
    requires id in s.queue.idMap
  {
    s.(queue := Extracted(s.queue, id), holder := CancelExtracted(id, s.queue.idMap[id]))
  }

  function Apply(s: Pool, step: Step): Pool
    requires Enabled(s, step)
  {
    match step
    case Sleep(w) => s.(workers := s.workers[w := Asleep])
    case Exit(w) => s.(workers := s.workers[w := Exited])
    case Dequeue(w) =>
      var task := s.queue.tasks[0].task;
      s.(queue := Popped(s.queue), workers := s.workers[w := Running(task)], started := s.started + [task])
    case Finish(w) =>
      s.(workers := s.workers[w := Checking], calls := s.calls + multiset{Call(s.workers[w].task.id, ByWorker)})
    case SpuriousWake(w) => s.(workers := s.workers[w := Checking])
    case NotifyOne(w) => s.(workers := s.workers[w := Checking], notifies := s.notifies - 1)
    case NotifyNobody => s.(notifies := s.notifies - 1)
    case Submit(p, node) =>
      s.(queue := Submitted(s.queue, p, node), notifies := s.notifies + 1,
         destructor := AfterInsert(s.destructor, UpperBound(s.queue.tasks, p)))
    case Cancel(id) => EnterCancel(s, id)
    case CancelComplete =>
      // The completer is reached through the extracted iterator, not through the id.
      var k := Find(s.queue.tasks, s.holder.node);
      s.(holder := CancelCompleted(s.holder.id, s.holder.node),
         calls := s.calls + multiset{Call(s.queue.tasks[k].task.id, ByCancel)})
    case CancelErase =>
      s.(queue := Erased(s.queue, s.holder.node), holder := Free,
         destructor := AfterErase(s.destructor, Find(s.queue.tasks, s.holder.node)))
    case BeginShutdown => s.(queue := ShutDown(s.queue), destructor := Swapped(Tasks(s.queue.tasks)))
    case NotifyAll => s.(workers := WakeAll(s.workers), destructor := Failing(s.destructor.left))
    case FailNext =>
      s.(destructor := Failing(s.destructor.left[1..]),
         calls := s.calls + multiset{Call(s.destructor.left[0].id, ByShutdown)})
    case FailDone => s.(destructor := Joining)
    case Join => s.(destructor := Draining(0, false))
    case DrainCall =>
      s.(destructor := Draining(s.destructor.at, true),
         calls := s.calls + multiset{Call(s.queue.tasks[s.destructor.at].task.id, ByDrain)})
    case DrainAdvance => s.(destructor := Draining(s.destructor.at + 1, false))
    case DrainDone => s.(destructor := Gone)
  }

  predicate Init(s: Pool) {
    && s.queue == EMPTY && s.holder == Free && s.destructor == Alive
    && s.notifies == 0 && s.calls == multiset{} && s.started == []
    && forall w :: 0 <= w < |s.workers| ==> s.workers[w] == Checking
  }

  /** A run: a start state, then one enabled step after another. */
  ghost predicate IsRun(states: seq<Pool>, steps: seq<Step>) {
    && |states| == |steps| + 1
    && Init(states[0])
    && forall i :: 0 <= i < |steps| ==> Enabled(states[i], steps[i]) && states[i + 1] == Apply(states[i], steps[i])
  }

  /**
   * What the pool needs of its callers and does not enforce: no `Cancel` call is at work when the workers
   * have been joined, and no `SubmitTask` or `Cancel` call takes the mutex after. A submitter that has
   * only its notification left may still be inside.
   */
  predicate QuietStep(s: Pool, step: Step) {
    && (step.Join? ==> s.holder.Free?)
    && (step.Submit? || step.Cancel? ==> !InDrain(s))
  }

  ghost predicate Quiet(states: seq<Pool>, steps: seq<Step>)
    requires |states| == |steps| + 1
  {
    forall i :: 0 <= i < |steps| ==> QuietStep(states[i], steps[i])
  }
}

/**
 * The queue a thread pool shares between its submitters and its workers: a multimap from priority to
 * task in descending order, an index from task id to multimap node, an id counter and a running flag.
 */
module ThreadPoolQueue {

  datatype Priority = Low | Normal | High

  /** The value of the enumerator, by which the multimap compares its keys. */
  function Rank(p: Priority): nat {
    match p case Low => 0 case Normal => 1 case High => 2
  }

  /** A task is known by its id; the function it runs and its completer travel with it. */
  datatype Task = Task(id: nat, priority: Priority)

  /** A multimap node: where it lives, and the task stored in it. */
  datatype Entry = Entry(node: nat, task: Task)

  datatype Queue = Queue(nextTaskId: nat, tasks: seq<Entry>, idMap: map<nat, nat>, running: bool)

  /** More urgent, by the names of the priorities. */
  predicate Urgent(p: Priority, q: Priority) {
    (p == High && q != High) || (p == Normal && q == Low)
  }

  /** `a` is dequeued before `b`: higher priority first, then the smaller id. */
  predicate Before(a: Task, b: Task) {
    Urgent(a.priority, b.priority) || (a.priority == b.priority && a.id < b.id)
  }

  ghost predicate HasTask(tasks: seq<Entry>, id: nat) {
    exists i :: 0 <= i < |tasks| && tasks[i].task.id == id
  }

  lemma HasTaskAt(tasks: seq<Entry>, i: nat)
    requires i < |tasks|
    ensures HasTask(tasks, tasks[i].task.id)
  {
  }

  lemma TaskIndex(tasks: seq<Entry>, id: nat) returns (i: nat)
    requires HasTask(tasks, id)
    ensures i < |tasks| && tasks[i].task.id == id
  {
    i :| i < |tasks| && tasks[i].task.id == id;
  }

  ghost predicate HasNode(tasks: seq<Entry>, node: nat) {
    exists i :: 0 <= i < |tasks| && tasks[i].node == node
  }

  /** The tasks stand in dequeue order, under distinct nodes, with ids already handed out. */
  ghost predicate Ordered(q: Queue) {
    && (forall i, j :: 0 <= i < j < |q.tasks| ==> Before(q.tasks[i].task, q.tasks[j].task))
    && (forall i, j :: 0 <= i < j < |q.tasks| ==> q.tasks[i].task.id != q.tasks[j].task.id)
    && (forall i, j :: 0 <= i < j < |q.tasks| ==> q.tasks[i].node != q.tasks[j].node)
    && (forall i :: 0 <= i < |q.tasks| ==> 0 < q.tasks[i].task.id < q.nextTaskId)
    && 0 < q.nextTaskId
  }

  /** The index holds exactly the ids of `tasks` outside `missing`, each pointing at its own node. */
  ghost predicate Indexed(q: Queue, missing: set<nat>) {
    && (forall id :: id in q.idMap ==> id !in missing && HasTask(q.tasks, id))
    && (forall i :: 0 <= i < |q.tasks| && q.tasks[i].task.id !in missing ==>
          q.tasks[i].task.id in q.idMap && q.idMap[q.tasks[i].task.id] == q.tasks[i].node)
  }

  const EMPTY: Queue := Queue(1, [], map[], true)

  function Insert(s: seq<Entry>, k: nat, e: Entry): (r: seq<Entry>)
    requires k <= |s|
    ensures |r| == |s| + 1 && r[k] == e
    ensures forall i :: 0 <= i < k ==> r[i] == s[i]
    ensures forall i {:trigger r[i]} :: k < i < |r| ==> r[i] == s[i - 1]
  {
    s[..k] + [e] + s[k..]
  }

  function Remove(s: seq<Entry>, k: nat): (r: seq<Entry>)
    requires k < |s|
    ensures |r| == |s| - 1
    ensures forall i :: 0 <= i < k ==> r[i] == s[i]
    ensures forall i {:trigger r[i]} :: k <= i < |r| ==> r[i] == s[i + 1]
  {
    s[..k] + s[k + 1..]
  }

  /** `multimap::emplace`: the upper bound of the equal range. */
  function UpperBound(tasks: seq<Entry>, p: Priority): (k: nat)
    ensures k <= |tasks|
    ensures k < |tasks| ==> Rank(tasks[k].task.priority) < Rank(p)
    ensures forall i :: 0 <= i < k ==> Rank(tasks[i].task.priority) >= Rank(p)
  {
    if tasks == [] || Rank(tasks[0].task.priority) < Rank(p) then 0
    else 1 + UpperBound(tasks[1..], p)
  }

  /** The locked region of `SubmitTask`, given the node the allocator returns. */
  function Submitted(q: Queue, p: Priority, node: nat): Queue {
    var k := UpperBound(q.tasks, p);
    var id := q.nextTaskId;
    q.(nextTaskId := id + 1,
       tasks := Insert(q.tasks, k, Entry(node, Task(id, p))),
       idMap := q.idMap[id := node])
  }

  /** `PopFront`. */
  function Popped(q: Queue): Queue
    requires q.tasks != []
  {
    q.(tasks := q.tasks[1..], idMap := q.idMap - {q.tasks[0].task.id})
  }

  /** `idMap.extract(id)`. */
  function Extracted(q: Queue, id: nat): Queue {
    q.(idMap := q.idMap - {id})
  }

  /** Position of the entry a multimap iterator points at. */
  function Find(tasks: seq<Entry>, node: nat): (k: nat)
    ensures k <= |tasks|
    ensures k < |tasks| ==> tasks[k].node == node
    ensures forall i :: 0 <= i < k ==> tasks[i].node != node
  {
    if tasks == [] || tasks[0].node == node then 0 else 1 + Find(tasks[1..], node)
  }

  /** `tasks.erase(iterator)`. */
  function Erased(q: Queue, node: nat): Queue
    requires Find(q.tasks, node) < |q.tasks|
  {
    var k := Find(q.tasks, node);
    q.(tasks := Remove(q.tasks, k))
  }

  /** The locked region of the destructor. */
  function ShutDown(q: Queue): Queue {
    q.(running := false, tasks := [], idMap := map[])
  }

  /** Inserting adds the entry and loses none. */
  lemma InsertAdds(s: seq<Entry>, k: nat, e: Entry)
    requires k <= |s|
    ensures forall x :: x in Insert(s, k, e) <==> x in s || x == e
  {
  }

  // What every locked region keeps.

  lemma SubmittedKeeps(q: Queue, p: Priority, node: nat)
    requires Ordered(q) && Indexed(q, {}) && !HasNode(q.tasks, node)
    ensures Ordered(Submitted(q, p, node)) && Indexed(Submitted(q, p, node), {})
  {
    SubmittedOrders(q, p, node);
    SubmittedIndexes(q, p, node);
  }

  lemma SubmittedOrders(q: Queue, p: Priority, node: nat)
    requires Ordered(q) && !HasNode(q.tasks, node)
    ensures Ordered(Submitted(q, p, node))
  {
    hide Insert, UpperBound, Urgent, Rank;
    var q' := Submitted(q, p, node);
    var k := UpperBound(q.tasks, p);
    forall i, j | 0 <= i < j < |q'.tasks|
      ensures Before(q'.tasks[i].task, q'.tasks[j].task)
      ensures q'.tasks[i].task.id != q'.tasks[j].task.id && q'.tasks[i].node != q'.tasks[j].node
    {
      if k == i {
        BelowUpperBound(q, p, j - 1);
        UrgentIsRankedHigher(p, q'.tasks[j].task.priority);
      } else if k == j {
        UrgentIsRankedHigher(q'.tasks[i].task.priority, p);
      }
    }
  }

  lemma OrderedAt(q: Queue, i: nat, j: nat)
    requires Ordered(q) && i < j < |q.tasks|
    ensures Before(q.tasks[i].task, q.tasks[j].task)
  {
    hide Before;
  }

  /** The enumerators are numbered by urgency. */
  lemma UrgentIsRankedHigher(p: Priority, q: Priority)
    ensures Urgent(p, q) <==> Rank(p) > Rank(q)
    ensures p == q <==> Rank(p) == Rank(q)
  {
  }

  /** Past the upper bound every priority is lower. */
  lemma BelowUpperBound(q: Queue, p: Priority, i: nat)
    requires Ordered(q) && UpperBound(q.tasks, p) <= i < |q.tasks|
    ensures Rank(q.tasks[i].task.priority) < Rank(p)
  {
    hide UpperBound, Ordered, Urgent, Rank;
    var k := UpperBound(q.tasks, p);
    if k < i {
      OrderedAt(q, k, i);
      UrgentIsRankedHigher(q.tasks[k].task.priority, q.tasks[i].task.priority);
    }
  }

  lemma SubmittedIndexes(q: Queue, p: Priority, node: nat)
    requires Ordered(q) && Indexed(q, {})
    ensures Indexed(Submitted(q, p, node), {})
  {
    hide Insert, UpperBound, HasTask;
    var q' := Submitted(q, p, node);
    var k := UpperBound(q.tasks, p);
    forall id | id in q'.idMap ensures HasTask(q'.tasks, id) {
      if id == q.nextTaskId {
        HasTaskAt(q'.tasks, k);
      } else {
        var i := TaskIndex(q.tasks, id);
        HasTaskAt(q'.tasks, if i < k then i else i + 1);
      }
    }
  }

  lemma PoppedKeeps(q: Queue)
    requires Ordered(q) && Indexed(q, {}) && q.tasks != []
    ensures Ordered(Popped(q)) && Indexed(Popped(q), {})
  {
    hide HasTask;
    var q' := Popped(q);
    forall id | id in q'.idMap ensures HasTask(q'.tasks, id) {
      var i := TaskIndex(q.tasks, id);
      HasTaskAt(q'.tasks, i - 1);
    }
  }

  /** The front of the queue is the most urgent task and the oldest of its priority. */
  lemma FrontComesFirst(q: Queue, e: Entry)
    requires Ordered(q) && q.tasks != [] && e in q.tasks[1..]
    ensures var first := q.tasks[0].task;
      && (e.task.priority == High ==> first.priority == High)
      && (first.priority == Low ==> e.task.priority == Low)
      && (e.task.priority == first.priority ==> first.id < e.task.id)
  {
    hide Ordered;
    var i := EntryIndex(q.tasks[1..], e);
    OrderedAt(q, 0, i + 1);
  }

  /** An extracted id is the only one the index lacks, and its iterator leads to its own task. */
  lemma ExtractedKeeps(q: Queue, id: nat)
    requires Ordered(q) && Indexed(q, {}) && id in q.idMap
    ensures Ordered(Extracted(q, id)) && Indexed(Extracted(q, id), {id})
    ensures var k := Find(q.tasks, q.idMap[id]); k < |q.tasks| && q.tasks[k].task.id == id
  {
    hide HasTask;
    var i := TaskIndex(q.tasks, id);
  }

  /** The next id has never been handed out. */
  lemma NextIsUnused(q: Queue)
    requires Ordered(q) && Indexed(q, {})
    ensures q.nextTaskId !in q.idMap
  {
    if q.nextTaskId in q.idMap {
      var i := TaskIndex(q.tasks, q.nextTaskId);
    }
  }

  /** Erasing the extracted task's node makes index and tasks agree again. */
  lemma ErasedKeeps(q: Queue, id: nat, node: nat)
    requires Ordered(q) && Indexed(q, {id})
    requires var k := Find(q.tasks, node); k < |q.tasks| && q.tasks[k].task.id == id
    ensures Ordered(Erased(q, node)) && Indexed(Erased(q, node), {})
  {
    hide HasTask, Remove, Find;
    var k := Find(q.tasks, node);
    var q' := Erased(q, node);
    forall j | j in q'.idMap ensures HasTask(q'.tasks, j) {
      var i := TaskIndex(q.tasks, j);
      assert i != k;
      HasTaskAt(q'.tasks, if i < k then i else i - 1);
    }
  }

  lemma EntryIndex(tasks: seq<Entry>, e: Entry) returns (i: nat)
    requires e in tasks
    ensures i < |tasks| && tasks[i] == e
  {
    i :| i < |tasks| && tasks[i] == e;
  }

  lemma FindsEntry(q: Queue, i: nat)
    requires Ordered(q) && i < |q.tasks|
    ensures Find(q.tasks, q.tasks[i].node) == i
  {
    hide Find;
    var k := Find(q.tasks, q.tasks[i].node);
  }

  /** Removing an entry removes it and no other. */
  lemma RemovesOne(q: Queue, i: nat)
    requires Ordered(q) && i < |q.tasks|
    ensures q.tasks[i] !in Remove(q.tasks, i)
    ensures forall x :: x in q.tasks && x != q.tasks[i] ==> x in Remove(q.tasks, i)
  {
    hide Remove;
    var r := Remove(q.tasks, i);
    forall x | x in q.tasks && x != q.tasks[i]
      ensures x in r
    {
      var j := EntryIndex(q.tasks, x);
      assert r[if j < i then j else j - 1] == x;
    }
  }

  datatype Option<T> = None | Some(value: T)

  /** The queue object. Each method is what the source does between taking and releasing the mutex. */
  class SharedQueue {
    var nextTaskId: nat
    var tasks: seq<Entry>
    var idMap: map<nat, nat>
    var running: bool

    function View(): Queue
      reads this
    {
      Queue(nextTaskId, tasks, idMap, running)
    }

    ghost predicate Valid()
      reads this
    {
      Ordered(View()) && Indexed(View(), {})
    }

    constructor ()
      ensures Valid() && View() == EMPTY
    {
      nextTaskId, tasks, idMap, running := 1, [], map[], true;
    }

    /** Takes the task that every other queued task comes after. */
    method PopFront() returns (task: Task)
      requires Valid() && tasks != []
      modifies this
      ensures Valid() && View() == Popped(old(View()))
      ensures task == old(tasks)[0].task
      ensures forall e :: e in tasks ==>
        && (e.task.priority == High ==> task.priority == High)
        && (task.priority == Low ==> e.task.priority == Low)
        && (e.task.priority == task.priority ==> task.id < e.task.id)
    {
      hide Ordered, Indexed;
      PoppedKeeps(View());
      forall e | e in tasks[1..]
        ensures e.task.priority == High ==> tasks[0].task.priority == High
        ensures tasks[0].task.priority == Low ==> e.task.priority == Low
        ensures e.task.priority == tasks[0].task.priority ==> tasks[0].task.id < e.task.id
      {
        FrontComesFirst(View(), e);
      }
      var node := tasks[0];
      tasks := tasks[1..];
      idMap := idMap - {node.task.id};
      task := node.task;
    }

    /** The rest of `DequeueTask` once the wait is over. */
    method Dequeue() returns (task: Option<Task>)
      requires Valid() && (tasks != [] || !running)
      modifies this
      ensures Valid()
      ensures task.None? <==> !old(running)
      ensures task.None? ==> View() == old(View())
      ensures task.Some? ==> View() == Popped(old(View())) && task.value == old(tasks)[0].task
    {
      if !running {
        return None;
      }
      var t := PopFront();
      return Some(t);
    }

    method Submit(priority: Priority, node: nat) returns (id: nat)
      requires Valid() && !HasNode(tasks, node)
      modifies this
      ensures Valid() && View() == Submitted(old(View()), priority, node)
      ensures id == old(nextTaskId) && id !in old(idMap)
      ensures forall e :: e in tasks <==> e in old(tasks) || e == Entry(node, Task(id, priority))
    {
      hide HasTask, Insert, UpperBound, Ordered;
      SubmittedKeeps(View(), priority, node);
      InsertAdds(tasks, UpperBound(tasks, priority), Entry(node, Task(nextTaskId, priority)));
      NextIsUnused(View());
      id := nextTaskId;
      nextTaskId := nextTaskId + 1;
      tasks := Insert(tasks, UpperBound(tasks, priority), Entry(node, Task(id, priority)));
      idMap := idMap[id := node];
    }

    /** `Cancel` up to its completer call: the task found is the one with the id asked for. */
    method Extract(id: nat) returns (task: Option<Entry>)
      requires Valid()
      modifies this
      ensures task.None? <==> !HasTask(old(tasks), id)
      ensures task.None? ==> View() == old(View())
      ensures task.Some? ==> View() == Extracted(old(View()), id) && task.value in tasks && task.value.task.id == id
      ensures task.Some? ==> Ordered(View()) && Indexed(View(), {id})
    {
      hide HasTask;
      if id !in idMap {
        if HasTask(tasks, id) {
          var i := TaskIndex(tasks, id);
          assert false;
        }
        return None;
      }
      ExtractedKeeps(View(), id);
      var node := idMap[id];
      idMap := idMap - {id};
      return Some(tasks[Find(tasks, node)]);
    }

    /** The end of `Cancel`. */
    method Erase(e: Entry)
      requires Ordered(View()) && Indexed(View(), {e.task.id}) && e in tasks
      modifies this
      ensures Valid() && e !in tasks
      ensures View() == Erased(old(View()), e.node)
      ensures forall x :: x in old(tasks) && x != e ==> x in tasks
    {
      hide Remove, Find, HasTask;
      ghost var i := EntryIndex(tasks, e);
      FindsEntry(View(), i);
      ErasedKeeps(View(), e.task.id, e.node);
      RemovesOne(View(), i);
      tasks := Remove(tasks, Find(tasks, e.node));
    }

    /** The locked region of the destructor. */
    method ShutDownNow() returns (swapped: seq<Entry>)
      requires Valid()
      modifies this
      ensures Valid() && View() == ShutDown(old(View())) && swapped == old(tasks)
    {
      swapped := tasks;
      running, tasks, idMap := false, [], map[];
    }
  }
}

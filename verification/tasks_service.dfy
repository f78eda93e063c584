/**
  The backend task service: `findAll`, `create`, `update` and `remove`, each
  one sequential transition of the task collection and the activity log.
  A call that cannot find its task fails with `NotFound` and changes nothing.
 */
module TasksService {
  import opened Seqs
  import opened Schema

  /**
    An activity record. The source renders each kind into a sentence naming
    the task's title (and, for a move, the destination status); the model
    keeps the fields the sentence is rendered from.
   */
  datatype LogEntry = Created(title: string) | Moved(title: string, to: string) | Deleted(title: string)

  datatype Store = Store(tasks: seq<Task>, log: seq<LogEntry>)

  /** A call either finds its task or throws `NotFoundException`. */
  datatype Result<T> = Ok(value: T) | NotFound

  /** The state after a call and the task document the call returns. */
  datatype Reply = Reply(store: Store, task: Task)

  /** The PATCH body `{ status?, targetId? }`. */
  datatype UpdateData = UpdateData(status: Option<string>, targetId: Option<Id>)

  /** JavaScript truthiness of an optional string: both a missing value and "" are false. */
  predicate Truthy(o: Option<string>) {
    o.Some? && o.value != ""
  }

  /** The JavaScript expression `o || fallback`. */
  function OrElse(o: Option<string>, fallback: string): (r: string)
    ensures r == fallback || (o.Some? && r == o.value)
    ensures r == fallback <== !Truthy(o)
    ensures Truthy(o) ==> r == o.value
    ensures r != "" <== r != fallback
  {
    if Truthy(o) then o.value else fallback
  }

  // ---------------------------------------------------------------- findAll

  /** Each task's position is at most its successor's. */
  predicate SortedByPosition(tasks: seq<Task>) {
    forall i :: 0 < i < |tasks| ==> tasks[i - 1].position <= tasks[i].position
  }

  function InsertByPosition(t: Task, sorted: seq<Task>): (r: seq<Task>)
    requires SortedByPosition(sorted)
    ensures SortedByPosition(r)
    ensures |r| == |sorted| + 1
    ensures r[0] == t || (sorted != [] && r[0] == sorted[0])
    ensures multiset(r) == multiset(sorted) + multiset{t}
  {
    if sorted == [] || t.position <= sorted[0].position then [t] + sorted
    else
      assert sorted == [sorted[0]] + sorted[1..];
      [sorted[0]] + InsertByPosition(t, sorted[1..])
  }

  /** `find().sort({ position: 1 })`: every task, in ascending position order. */
  function FindAll(tasks: seq<Task>): (r: seq<Task>)
    ensures SortedByPosition(r)
    ensures multiset(r) == multiset(tasks)
  {
    if tasks == [] then []
    else
      assert tasks == [tasks[0]] + tasks[1..];
      InsertByPosition(tasks[0], FindAll(tasks[1..]))
  }

  // ----------------------------------------------------------------- create

  /**
    The end of `create`: `save()` either stores the new document and returns
    it, or rejects it in schema validation and throws, leaving the store as it
    was apart from the entry already written.
   */
  datatype Saved = Stored(reply: Reply) | Invalid(store: Store)

  /**
    `create(title)`: a "todo" task numbered by the count of ALL tasks, of every
    status. The CREATED entry is written before `save()`, whose `required`
    check on `title` rejects the empty string. `id` is the identifier the
    store assigns.
   */
  function Create(s: Store, id: Id, title: string): (r: Saved)
    ensures r.Invalid? <==> title == ""
    ensures r.Stored? ==>
      && r.reply.task == Task(id, title, Todo, |s.tasks|)
      && |r.reply.store.tasks| == |s.tasks| + 1
      && r.reply.store.tasks[..|s.tasks|] == s.tasks
      && r.reply.store.tasks[|s.tasks|] == r.reply.task
      && r.reply.store.log == s.log + [Created(title)]
    ensures r.Invalid? ==> r.store.tasks == s.tasks && r.store.log == s.log + [Created(title)]
  {
    var task := Task(id, title, Todo, |s.tasks|);
    var log := s.log + [Created(title)];
    if title == "" then Invalid(Store(s.tasks, log))
    else Stored(Reply(Store(s.tasks + [task], log), task))
  }

  // ----------------------------------------------------------------- update

  /**
    One task under the bulk `updateMany` of a move from `oldPos` to `newPos`.
    The filter looks at `position` only, so tasks of every status shift.
   */
  function Shifted(t: Task, oldPos: int, newPos: int): Task {
    if oldPos < newPos && oldPos < t.position <= newPos then t.(position := t.position - 1)
    else if newPos < oldPos && newPos <= t.position < oldPos then t.(position := t.position + 1)
    else t
  }

  /**
    Moving down (`oldPos < newPos`) pulls exactly the tasks in (oldPos, newPos]
    one place up; moving up pushes exactly those in [newPos, oldPos) one place
    down; nothing else changes, and no field but `position` ever does.
   */
  function ShiftSiblings(tasks: seq<Task>, oldPos: int, newPos: int): (r: seq<Task>)
    ensures |r| == |tasks|
    ensures forall j :: 0 <= j < |tasks| ==>
      r[j].id == tasks[j].id && r[j].title == tasks[j].title && r[j].status == tasks[j].status
    ensures oldPos < newPos ==> forall j :: 0 <= j < |tasks| ==>
      if oldPos < tasks[j].position <= newPos then r[j].position == tasks[j].position - 1
      else r[j] == tasks[j]
    ensures newPos < oldPos ==> forall j :: 0 <= j < |tasks| ==>
      if newPos <= tasks[j].position < oldPos then r[j].position == tasks[j].position + 1
      else r[j] == tasks[j]
    ensures oldPos == newPos ==> r == tasks
  {
    seq(|tasks|, j requires 0 <= j < |tasks| => Shifted(tasks[j], oldPos, newPos))
  }

  /** The target task, when `targetId` is truthy and resolves. */
  function ResolvedTarget(tasks: seq<Task>, data: UpdateData): Option<Task> {
    if Truthy(data.targetId) then Find(tasks, data.targetId.value) else None
  }

  /**
    After repositioning: the moved task takes its new status and position
    over the shifted siblings, and a MOVED entry is written when the status
    changed.
   */
  function Settle(s: Store, i: nat, siblings: seq<Task>, newStatus: string, newPos: int): (r: Reply)
    requires i < |s.tasks| == |siblings|
    ensures r.task.id == s.tasks[i].id && r.task.title == s.tasks[i].title
    ensures r.task.status == newStatus && r.task.position == newPos
    ensures |r.store.tasks| == |siblings| && r.store.tasks[i] == r.task
    ensures forall j :: 0 <= j < |siblings| && j != i ==> r.store.tasks[j] == siblings[j]
    ensures s.tasks[i].status != newStatus <==> r.store.log == s.log + [Moved(s.tasks[i].title, newStatus)]
    ensures s.tasks[i].status == newStatus <==> r.store.log == s.log
  {
    var task := s.tasks[i];
    var moved := task.(status := newStatus, position := newPos);
    var log := if task.status != newStatus then s.log + [Moved(task.title, newStatus)] else s.log;
    Reply(Store(siblings[i := moved], log), moved)
  }

  /**
    `update(id, { status, targetId })`. With a target that resolves, the
    siblings shift and the task takes the target's old position; with no
    (falsy) target and a new truthy status, the task goes to the end of the
    destination column, numbered by that column's count; otherwise the
    position is kept. The status becomes `status || oldStatus` in every case.
   */
  function Update(s: Store, id: Id, data: UpdateData): (r: Result<Reply>)
    ensures r.NotFound? <==> id !in Ids(s.tasks)
    ensures r.Ok? ==>
      var i := IndexOf(s.tasks, id).value;
      var before := s.tasks[i];
      var after := r.value.store;
      && |after.tasks| == |s.tasks|
      && r.value.task == after.tasks[i]
      && r.value.task.id == id && r.value.task.title == before.title
      && r.value.task.status == OrElse(data.status, before.status)
      && (forall j :: 0 <= j < |s.tasks| ==>
            after.tasks[j].id == s.tasks[j].id && after.tasks[j].title == s.tasks[j].title)
      && (forall j :: 0 <= j < |s.tasks| && j != i ==> after.tasks[j].status == s.tasks[j].status)
      && (before.status != r.value.task.status ==>
            after.log == s.log + [Moved(before.title, r.value.task.status)])
      && (before.status == r.value.task.status ==> after.log == s.log)
  {
    match IndexOf(s.tasks, id)
    case None => NotFound
    case Some(i) =>
      var task := s.tasks[i];
      var newStatus := OrElse(data.status, task.status);
      var target := ResolvedTarget(s.tasks, data);
      var siblings :=
        if target.Some? then ShiftSiblings(s.tasks, task.position, target.value.position)
        else s.tasks;
      var newPos :=
        if target.Some? then target.value.position
        else if !Truthy(data.targetId) && Truthy(data.status) && data.status.value != task.status
        then |Column(s.tasks, data.status.value)|
        else task.position;
      Ok(Settle(s, i, siblings, newStatus, newPos))
  }

  // ----------------------------------------------------------------- remove

  /**
    `remove(id)`: deletes exactly that record and writes a DELETED entry; the
    other tasks keep their positions, so a gap may open.
   */
  function Remove(s: Store, id: Id): (r: Result<Reply>)
    ensures r.NotFound? <==> id !in Ids(s.tasks)
    ensures r.Ok? ==>
      && r.value.task.id == id
      && r.value.task in s.tasks
      && multiset(r.value.store.tasks) + multiset{r.value.task} == multiset(s.tasks)
      && r.value.store.log == s.log + [Deleted(r.value.task.title)]
  {
    match IndexOf(s.tasks, id)
    case None => NotFound
    case Some(i) =>
      var task := s.tasks[i];
      RemoveAtMultiset(s.tasks, i);
      Ok(Reply(Store(s.tasks[..i] + s.tasks[i + 1..], s.log + [Deleted(task.title)]), task))
  }
}

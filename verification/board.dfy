/**
  The board's drop handler (`onDragEnd`) without its network call: the
  optimistic local reorder and the PATCH body it sends to the task service.
 */
module Board {
  import opened Seqs
  import opened Schema

  /** A droppable column and an index within it. */
  datatype Location = Location(droppableId: string, index: nat)

  /** What the drag-and-drop library reports when a drag ends. */
  datatype DropResult = DropResult(destination: Option<Location>, source: Location, draggableId: Id)

  /** The PATCH body `{ status, targetId }`; `None` is `null`. */
  datatype Patch = Patch(status: string, targetId: Option<Id>)

  /** Either the handler returns early, or it sets the new list and sends a PATCH. */
  datatype Drop = Ignored | Reordered(tasks: seq<Task>, patch: Patch)

  /** The drop lands somewhere, and somewhere other than where the drag started. */
  predicate IsMove(drop: DropResult) {
    && drop.destination.Some?
    && !(drop.destination.value.droppableId == drop.source.droppableId
         && drop.destination.value.index == drop.source.index)
  }

  function HasId(id: Id): Task -> bool {
    (t: Task) => t.id == id
  }

  function LacksId(id: Id): Task -> bool {
    (t: Task) => t.id != id
  }

  /** The dragged id names exactly one task of the list. */
  predicate OccursOnce(tasks: seq<Task>, id: Id) {
    |Filter(HasId(id), tasks)| == 1
  }

  lemma OccursOnceIsFound(tasks: seq<Task>, id: Id)
    requires OccursOnce(tasks, id)
    ensures id in Ids(tasks)
  {
    FilterMembers(HasId(id), tasks);
    var t := Filter(HasId(id), tasks)[0];
    var j :| 0 <= j < |tasks| && tasks[j] == t;
    assert Ids(tasks)[j] == id;
  }

  /** `find`: the dragged task as it was before the drop. */
  function Dragged(tasks: seq<Task>, id: Id): (t: Task)
    requires OccursOnce(tasks, id)
    ensures t.id == id && t in tasks
  {
    OccursOnceIsFound(tasks, id);
    tasks[IndexOf(tasks, id).value]
  }

  /** `filter(t => t._id !== draggableId)`. */
  function Remaining(tasks: seq<Task>, id: Id): seq<Task> {
    Filter(LacksId(id), tasks)
  }

  /** The destination column after the splice. */
  function Placed(tasks: seq<Task>, drop: DropResult): seq<Task>
    requires IsMove(drop) && OccursOnce(tasks, drop.draggableId)
  {
    var dest := drop.destination.value;
    Splice(Column(Remaining(tasks, drop.draggableId), dest.droppableId), dest.index,
           Dragged(tasks, drop.draggableId).(status := dest.droppableId))
  }

  /**
    `onDragEnd`: a drop outside every column, or back on its own spot, does
    nothing. Otherwise the dragged task is taken out, the rest is split into
    the destination column and the other tasks, the dragged task (with the
    destination as its status) is spliced into the column at the drop index,
    the list becomes the other tasks followed by the column, and the PATCH
    names the task at `destination.index + 1` of the column, the one right
    after the inserted task, as `targetId`.
   */
  function OnDragEnd(tasks: seq<Task>, drop: DropResult): (r: Drop)
    requires IsMove(drop) ==> OccursOnce(tasks, drop.draggableId)
    ensures r.Ignored? <==> !IsMove(drop)
    ensures r.Reordered? ==> r.patch.status == drop.destination.value.droppableId
  {
    if !IsMove(drop) then Ignored
    else
      var dest := drop.destination.value;
      var placed := Placed(tasks, drop);
      var target := if dest.index + 1 < |placed| then Some(placed[dest.index + 1].id) else None;
      Reordered(OtherColumns(Remaining(tasks, drop.draggableId), dest.droppableId) + placed,
                Patch(dest.droppableId, target))
  }
}

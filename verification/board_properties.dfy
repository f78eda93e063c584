/**
  What the board's optimistic reorder promises: it is a permutation that
  only restyles the dragged task, it keeps every other task's relative
  order, it puts the dragged task at the drop index of its new column, and
  the PATCH it sends names the task that now follows the dragged one.
 */
module BoardProperties {
  import opened Seqs
  import opened Schema
  import opened Board

  /** The id of the task right after index `k`, or `None` when there is none. */
  function IdAfter(tasks: seq<Task>, k: int): Option<Id> {
    if 0 <= k && k + 1 < |tasks| then Some(tasks[k + 1].id) else None
  }

  /** Under `OccursOnce`, `find` and `filter` agree on which task is dragged. */
  lemma OnlyTheDraggedTask(tasks: seq<Task>, id: Id)
    requires OccursOnce(tasks, id)
    ensures id in Ids(tasks)
    ensures Filter(HasId(id), tasks) == [Dragged(tasks, id)]
  {
    OccursOnceIsFound(tasks, id);
    FilterMembers(HasId(id), tasks);
    var w := Filter(HasId(id), tasks);
    var i := IndexOf(tasks, id).value;
    assert HasId(id)(tasks[i]);
    assert tasks[i] in w;
    assert w == [w[0]];
  }

  /** The new list is the other columns' tasks followed by the spliced destination column. */
  lemma DropAnatomy(tasks: seq<Task>, drop: DropResult)
    requires IsMove(drop) && OccursOnce(tasks, drop.draggableId)
    ensures var dest := drop.destination.value.droppableId;
            var r := OnDragEnd(tasks, drop);
            && r.tasks == OtherColumns(Remaining(tasks, drop.draggableId), dest) + Placed(tasks, drop)
            && Column(r.tasks, dest) == Placed(tasks, drop)
  {
    var dest := drop.destination.value.droppableId;
    var column := Column(Remaining(tasks, drop.draggableId), dest);
    var others := OtherColumns(Remaining(tasks, drop.draggableId), dest);
    var placed := Placed(tasks, drop);
    assert forall j :: 0 <= j < |others| ==> !InColumn(dest)(others[j]);
    FilterDropsAll(InColumn(dest), others);
    SpliceKeeps(InColumn(dest), column, drop.destination.value.index, Dragged(tasks, drop.draggableId).(status := dest));
    FilterKeepsAll(InColumn(dest), placed);
    FilterAppend(InColumn(dest), others, placed);
  }

  /** Replacing one element by another, as multisets. */
  lemma ReplaceMultiset<T>(s: seq<T>, i: nat, x: T)
    requires i < |s|
    ensures multiset(s[i := x]) + multiset{s[i]} == multiset(s) + multiset{x}
  {
    assert s == s[..i] + [s[i]] + s[i + 1..];
    assert s[i := x] == s[..i] + [x] + s[i + 1..];
  }

  /** The multiset bookkeeping of the drop, over its named pieces. */
  lemma RegroupMultiset<T>(all: seq<T>, dragged: T, remaining: seq<T>, column: seq<T>,
                           others: seq<T>, placed: seq<T>, moved: T)
    requires multiset{dragged} + multiset(remaining) == multiset(all)
    requires multiset(column) + multiset(others) == multiset(remaining)
    requires multiset(placed) == multiset(column) + multiset{moved}
    ensures multiset(others + placed) + multiset{dragged} == multiset(all) + multiset{moved}
  {
  }

  lemma CancelOne<T>(a: seq<T>, b: seq<T>, x: T)
    requires multiset(a) + multiset{x} == multiset(b) + multiset{x}
    ensures multiset(a) == multiset(b)
  {
    forall y
      ensures multiset(a)[y] == multiset(b)[y]
    {
      assert (multiset(a) + multiset{x})[y] == (multiset(b) + multiset{x})[y];
    }
  }

  /**
    The reorder loses and invents no task: the new list is the old one with
    the dragged task exchanged for its restyled copy, so it has the same length.
   */
  lemma DropIsPermutation(tasks: seq<Task>, drop: DropResult)
    requires IsMove(drop) && OccursOnce(tasks, drop.draggableId)
    ensures var r := OnDragEnd(tasks, drop);
            var dragged := Dragged(tasks, drop.draggableId);
            && |r.tasks| == |tasks|
            && multiset(r.tasks) + multiset{dragged}
               == multiset(tasks) + multiset{dragged.(status := drop.destination.value.droppableId)}
  {
    var id := drop.draggableId;
    var dest := drop.destination.value.droppableId;
    var dragged := Dragged(tasks, id);
    var moved := dragged.(status := dest);
    var remaining := Remaining(tasks, id);
    var column := Column(remaining, dest);
    var others := OtherColumns(remaining, dest);
    var placed := Placed(tasks, drop);
    assert multiset{dragged} + multiset(remaining) == multiset(tasks) by {
      OnlyTheDraggedTask(tasks, id);
      FilterPartition(HasId(id), LacksId(id), tasks);
    }
    assert multiset(column) + multiset(others) == multiset(remaining) by {
      ColumnPartition(remaining, dest);
    }
    RegroupMultiset(tasks, dragged, remaining, column, others, placed, moved);
    DropAnatomy(tasks, drop);
    var r := OnDragEnd(tasks, drop).tasks;
    assert |multiset(r) + multiset{dragged}| == |multiset(tasks) + multiset{moved}|;
  }

  /** The ids of the new list are those of the old one, each as often. */
  lemma DropKeepsIds(tasks: seq<Task>, drop: DropResult)
    requires IsMove(drop) && OccursOnce(tasks, drop.draggableId)
    ensures multiset(Ids(OnDragEnd(tasks, drop).tasks)) == multiset(Ids(tasks))
  {
    var id := drop.draggableId;
    var r := OnDragEnd(tasks, drop).tasks;
    var dragged := Dragged(tasks, id);
    var moved := dragged.(status := drop.destination.value.droppableId);
    DropIsPermutation(tasks, drop);
    OccursOnceIsFound(tasks, id);
    var i := IndexOf(tasks, id).value;
    var restyled := tasks[i := moved];
    ReplaceMultiset(tasks, i, moved);
    CancelOne(r, restyled, dragged);
    PermutationKeepsIds(r, restyled);
    assert Ids(restyled) == Ids(tasks);
  }

  /**
    The dragged task, restyled to the destination column and otherwise
    unchanged, sits in that column at the drop index, or last when the index
    is past the end.
   */
  lemma DraggedLandsAtDropIndex(tasks: seq<Task>, drop: DropResult)
    requires IsMove(drop) && OccursOnce(tasks, drop.draggableId)
    ensures var dest := drop.destination.value;
            var column := Column(OnDragEnd(tasks, drop).tasks, dest.droppableId);
            && |column| >= 1
            && column[Min(dest.index, |column| - 1)]
               == Dragged(tasks, drop.draggableId).(status := dest.droppableId)
  {
    DropAnatomy(tasks, drop);
  }

  /** Every task of `others` lies outside column `dest` and every task of `placed` inside it. */
  lemma SplitByColumn(others: seq<Task>, placed: seq<Task>, dest: string)
    requires forall j :: 0 <= j < |others| ==> NotInColumn(dest)(others[j])
    requires forall j :: 0 <= j < |placed| ==> InColumn(dest)(placed[j])
    ensures var r := others + placed;
            && (forall j :: 0 <= j < |others| ==> r[j].status != dest)
            && (forall j :: |others| <= j < |r| ==> r[j].status == dest)
            && r[..|others|] == others
  {
    var r := others + placed;
    forall j | 0 <= j < |others|
      ensures r[j].status != dest
    {
      assert r[j] == others[j] && NotInColumn(dest)(others[j]);
    }
    forall j | |others| <= j < |r|
      ensures r[j].status == dest
    {
      assert r[j] == placed[j - |others|] && InColumn(dest)(placed[j - |others|]);
    }
  }

  /**
    Tasks outside the destination column come first and the destination
    column follows.
   */
  lemma OtherColumnsComeFirst(tasks: seq<Task>, drop: DropResult)
    requires IsMove(drop) && OccursOnce(tasks, drop.draggableId)
    ensures var dest := drop.destination.value.droppableId;
            var r := OnDragEnd(tasks, drop).tasks;
            var n := |r| - |Column(r, dest)|;
            && 0 <= n <= |r|
            && (forall j :: 0 <= j < n ==> r[j].status != dest)
            && (forall j :: n <= j < |r| ==> r[j].status == dest)
  {
    var dest := drop.destination.value;
    var remaining := Remaining(tasks, drop.draggableId);
    var column := Column(remaining, dest.droppableId);
    var others := OtherColumns(remaining, dest.droppableId);
    DropAnatomy(tasks, drop);
    SpliceKeeps(InColumn(dest.droppableId), column, dest.index,
                Dragged(tasks, drop.draggableId).(status := dest.droppableId));
    SplitByColumn(others, Placed(tasks, drop), dest.droppableId);
  }

  /** The tasks outside the destination column keep their original relative order. */
  lemma OtherColumnsKeepOrder(tasks: seq<Task>, drop: DropResult)
    requires IsMove(drop) && OccursOnce(tasks, drop.draggableId)
    ensures var r := OnDragEnd(tasks, drop).tasks;
            var n := |r| - |Column(r, drop.destination.value.droppableId)|;
            && 0 <= n <= |r|
            && IsSubseq(r[..n], tasks)
  {
    var id := drop.draggableId;
    var dest := drop.destination.value.droppableId;
    var remaining := Remaining(tasks, id);
    var others := OtherColumns(remaining, dest);
    DropAnatomy(tasks, drop);
    var r := OnDragEnd(tasks, drop).tasks;
    assert r[..|others|] == others;
    FilterIsSubseq(NotInColumn(dest), remaining);
    FilterIsSubseq(LacksId(id), tasks);
    SubseqTransitive(others, remaining, tasks);
  }

  /**
    Around the inserted task, the destination column's other tasks keep their
    original relative order, and none of them is the dragged task.
   */
  lemma ColumnKeepsOrder(tasks: seq<Task>, drop: DropResult)
    requires IsMove(drop) && OccursOnce(tasks, drop.draggableId)
    ensures var dest := drop.destination.value;
            var column := Column(OnDragEnd(tasks, drop).tasks, dest.droppableId);
            var k := Min(dest.index, |column| - 1);
            && 0 <= k < |column|
            && var rest := column[..k] + column[k + 1..];
               && IsSubseq(rest, tasks)
               && forall j :: 0 <= j < |rest| ==> rest[j].id != drop.draggableId
  {
    var id := drop.draggableId;
    var dest := drop.destination.value;
    var remaining := Remaining(tasks, id);
    var before := Column(remaining, dest.droppableId);
    var placed := Placed(tasks, drop);
    DropAnatomy(tasks, drop);
    var k := Min(dest.index, |placed| - 1);
    assert k == Min(dest.index, |before|);
    assert placed[..k] + placed[k + 1..] == before;
    assert IsSubseq(before, tasks) by {
      FilterIsSubseq(InColumn(dest.droppableId), remaining);
      FilterIsSubseq(LacksId(id), tasks);
      SubseqTransitive(before, remaining, tasks);
    }
    forall j | 0 <= j < |before|
      ensures before[j].id != id
    {
      FilterMembers(InColumn(dest.droppableId), remaining);
      var m :| 0 <= m < |remaining| && remaining[m] == before[j];
      assert LacksId(id)(remaining[m]);
    }
  }

  /**
    `targetId` names the task immediately after the dragged one in the new
    destination column, and is `null` when the dragged task is last there.
   */
  lemma TargetIsNextInColumn(tasks: seq<Task>, drop: DropResult)
    requires IsMove(drop) && OccursOnce(tasks, drop.draggableId)
    ensures var dest := drop.destination.value;
            var r := OnDragEnd(tasks, drop);
            var column := Column(r.tasks, dest.droppableId);
            var k := Min(dest.index, |column| - 1);
            && r.Reordered?
            && 0 <= k < |column|
            && column[k].id == drop.draggableId
            && r.patch.targetId == IdAfter(column, k)
  {
    DropAnatomy(tasks, drop);
  }

  /** `onDragEnd` once its pieces are known. */
  lemma DropOfPieces(tasks: seq<Task>, drop: DropResult, others: seq<Task>, placed: seq<Task>,
                     list: seq<Task>, target: Option<Id>)
    requires IsMove(drop) && OccursOnce(tasks, drop.draggableId)
    requires OtherColumns(Remaining(tasks, drop.draggableId), drop.destination.value.droppableId) == others
    requires Placed(tasks, drop) == placed
    requires others + placed == list
    requires IdAfter(placed, drop.destination.value.index) == target
    ensures OnDragEnd(tasks, drop) == Reordered(list, Patch(drop.destination.value.droppableId, target))
  {
  }

  // The filters of the example below, one at a time.

  lemma ExampleDragged(a: Task, b: Task, c: Task)
    requires b.id != a.id && c.id != a.id
    ensures Filter(HasId(a.id), [a, b, c]) == [a]
    ensures Filter(LacksId(a.id), [a, b, c]) == [b, c]
  {
    var tasks := [a, b, c];
    assert Filter(HasId(a.id), tasks[2..]) == [];
    assert Filter(HasId(a.id), tasks[1..]) == [];
    assert Filter(LacksId(a.id), tasks[2..]) == [c];
    assert Filter(LacksId(a.id), tasks[1..]) == [b, c];
  }

  lemma ExampleColumns(b: Task, c: Task)
    requires b.status == Todo && c.status == Todo
    ensures Column([b, c], Todo) == [b, c]
    ensures OtherColumns([b, c], Todo) == []
  {
    assert Filter(InColumn(Todo), [b, c][1..]) == [c];
    assert Filter(NotInColumn(Todo), [b, c][1..]) == [];
  }

  lemma ExamplePlaced(a: Task, b: Task, c: Task)
    requires a.status == Todo && b.status == Todo && c.status == Todo
    requires b.id != a.id && c.id != a.id
    ensures var drop := DropResult(Some(Location(Todo, 1)), Location(Todo, 0), a.id);
            && OccursOnce([a, b, c], a.id)
            && OtherColumns(Remaining([a, b, c], a.id), Todo) == []
            && Placed([a, b, c], drop) == [b, a, c]
  {
    var tasks := [a, b, c];
    ExampleDragged(a, b, c);
    ExampleColumns(b, c);
    assert Dragged(tasks, a.id) == a by {
      assert IndexOf(tasks, a.id) == Some(0);
    }
    assert Splice([b, c], 1, a) == [b, a, c];
  }

  /**
    Three "todo" tasks A, B, C, in that order, with distinct ids; A is dragged
    down to index 1. The board shows B, A, C and asks the service to put A
    onto C's position.
   */
  lemma DragDownExample(a: Task, b: Task, c: Task)
    requires a.status == Todo && b.status == Todo && c.status == Todo
    requires b.id != a.id && c.id != a.id
    ensures var drop := DropResult(Some(Location(Todo, 1)), Location(Todo, 0), a.id);
            && OccursOnce([a, b, c], a.id)
            && OnDragEnd([a, b, c], drop) == Reordered([b, a, c], Patch(Todo, Some(c.id)))
  {
    assert IdAfter([b, a, c], 1) == Some(c.id) && [] + [b, a, c] == [b, a, c];
    ExamplePlaced(a, b, c);
    DropOfPieces([a, b, c], DropResult(Some(Location(Todo, 1)), Location(Todo, 0), a.id),
                 [], [b, a, c], [b, a, c], Some(c.id));
  }
}

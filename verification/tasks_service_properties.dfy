/**
  Properties of the task service transitions: what each branch of `update`
  changes and what it leaves alone, the rotation a targeted move performs,
  the inverse of `create`, and the invariants every call keeps.
 */
module TasksServiceProperties {
  import opened Seqs
  import opened Schema
  import opened TasksService

  predicate NonNegativePositions(tasks: seq<Task>) {
    forall j :: 0 <= j < |tasks| ==> tasks[j].position >= 0
  }

  predicate DistinctPositions(tasks: seq<Task>) {
    forall i, j :: 0 <= i < j < |tasks| ==> tasks[i].position != tasks[j].position
  }

  function Positions(tasks: seq<Task>): set<int> {
    set j | 0 <= j < |tasks| :: tasks[j].position
  }

  // ----------------------------------------------------------------- create

  /**
    A new task is numbered by the count of every column together, so it lands
    past the end of its own "todo" column whenever another column holds a task.
   */
  lemma CreateCountsEveryColumn(s: Store, id: Id, title: string)
    ensures var c := Create(s, id, title);
            c.Stored? ==> c.reply.task.position == |Column(s.tasks, Todo)| + |OtherColumns(s.tasks, Todo)|
    ensures var c := Create(s, id, title);
            c.Stored? && OtherColumns(s.tasks, Todo) != [] ==> c.reply.task.position > |Column(s.tasks, Todo)|
  {
    ColumnPartition(s.tasks, Todo);
  }

  /**
    Deleting the task just created restores the collection and the log keeps
    both entries; a create the schema rejected leaves nothing to delete, and
    its CREATED entry stays.
   */
  lemma RemoveUndoesCreate(s: Store, id: Id, title: string)
    requires id !in Ids(s.tasks)
    ensures var c := Create(s, id, title);
            c.Stored? ==>
              var r := Remove(c.reply.store, id);
              && r.Ok?
              && r.value.task == c.reply.task
              && r.value.store.tasks == s.tasks
              && r.value.store.log == s.log + [Created(title), Deleted(title)]
    ensures var c := Create(s, id, title);
            c.Invalid? ==>
              && Remove(c.store, id).NotFound?
              && c.store.tasks == s.tasks
              && c.store.log == s.log + [Created(title)]
  {
    var c := Create(s, id, title);
    if c.Stored? {
      var n := |s.tasks|;
      assert c.reply.store.tasks == s.tasks + [c.reply.task];
      IndexOfAppended(s.tasks, c.reply.task);
      assert c.reply.store.tasks[..n] + c.reply.store.tasks[n + 1..] == s.tasks;
    }
  }

  /** Whether `save()` accepts or rejects the new document, ids stay unique. */
  lemma CreateKeepsIdsUnique(s: Store, id: Id, title: string)
    requires UniqueIds(s.tasks)
    requires id !in Ids(s.tasks)
    ensures var c := Create(s, id, title);
            UniqueIds(if c.Stored? then c.reply.store.tasks else c.store.tasks)
  {
    var c := Create(s, id, title);
    if c.Stored? {
      var after := c.reply.store.tasks;
      forall i, j | 0 <= i < j < |after|
        ensures after[i].id != after[j].id
      {
        if j == |s.tasks| {
          assert Ids(s.tasks)[i] == s.tasks[i].id;
        }
      }
    }
  }

  // ----------------------------------------------------------------- remove

  /** Element `k` of `s` with element `i` taken out is element `k` or `k + 1` of `s`. */
  lemma RemoveAtIndex<T>(s: seq<T>, i: nat, k: nat)
    requires i < |s| && k < |s| - 1
    ensures |s[..i] + s[i + 1..]| == |s| - 1
    ensures (s[..i] + s[i + 1..])[k] == s[if k < i then k else k + 1]
  {
  }

  /** With unique ids, the deleted id is gone and no other task is touched. */
  lemma RemoveDeletesExactlyOne(s: Store, id: Id)
    requires UniqueIds(s.tasks)
    ensures var r := Remove(s, id);
            r.Ok? ==>
              && id !in Ids(r.value.store.tasks)
              && UniqueIds(r.value.store.tasks)
              && |r.value.store.tasks| == |s.tasks| - 1
              && forall t :: t in s.tasks && t.id != id ==> t in r.value.store.tasks
  {
    var r := Remove(s, id);
    if r.Ok? {
      var i := IndexOf(s.tasks, id).value;
      var after := s.tasks[..i] + s.tasks[i + 1..];
      assert r.value.store.tasks == after;
      assert |after| == |s.tasks| - 1;
      forall k | 0 <= k < |after|
        ensures after[k].id != id
      {
        RemoveAtIndex(s.tasks, i, k);
      }
      assert id !in Ids(after);
      forall a, b | 0 <= a < b < |after|
        ensures after[a].id != after[b].id
      {
        RemoveAtIndex(s.tasks, i, a);
        RemoveAtIndex(s.tasks, i, b);
      }
      forall t | t in s.tasks && t.id != id
        ensures t in after
      {
        var k :| 0 <= k < |s.tasks| && s.tasks[k] == t;
        var m := if k < i then k else k - 1;
        RemoveAtIndex(s.tasks, i, m);
        assert after[m] == t;
      }
    }
  }

  // ----------------------------------------------------------------- update

  /**
    A resolved target: the moved task takes the target's old position, and
    every OTHER task, of any status, moves by one exactly when its position
    lies between the two positions.
   */
  lemma UpdateOntoTarget(s: Store, id: Id, data: UpdateData)
    requires id in Ids(s.tasks)
    requires ResolvedTarget(s.tasks, data).Some?
    ensures var i := IndexOf(s.tasks, id).value;
            var oldPos := s.tasks[i].position;
            var newPos := ResolvedTarget(s.tasks, data).value.position;
            var after := Update(s, id, data).value.store.tasks;
            && after[i].position == newPos
            && (oldPos < newPos ==> forall j :: 0 <= j < |s.tasks| && j != i ==>
                  if oldPos < s.tasks[j].position <= newPos
                  then after[j] == s.tasks[j].(position := s.tasks[j].position - 1)
                  else after[j] == s.tasks[j])
            && (newPos < oldPos ==> forall j :: 0 <= j < |s.tasks| && j != i ==>
                  if newPos <= s.tasks[j].position < oldPos
                  then after[j] == s.tasks[j].(position := s.tasks[j].position + 1)
                  else after[j] == s.tasks[j])
            && (newPos == oldPos ==> forall j :: 0 <= j < |s.tasks| && j != i ==> after[j] == s.tasks[j])
  {
    var i := IndexOf(s.tasks, id).value;
    var oldPos := s.tasks[i].position;
    var newPos := ResolvedTarget(s.tasks, data).value.position;
    var after := Update(s, id, data).value.store.tasks;
    MovedTaskTakesTarget(s, id, data);
    forall j | 0 <= j < |s.tasks| && j != i
      ensures after[j] == Shifted(s.tasks[j], oldPos, newPos)
    {
      OtherTaskShifted(s, id, data, j);
    }
  }

  /**
    No truthy target and a new truthy status: the task goes to the end of the
    destination column as counted before the call; nothing else changes.
   */
  lemma UpdateAppendsToColumn(s: Store, id: Id, data: UpdateData)
    requires id in Ids(s.tasks)
    requires !Truthy(data.targetId)
    requires Truthy(data.status) && data.status.value != Find(s.tasks, id).value.status
    ensures var i := IndexOf(s.tasks, id).value;
            var after := Update(s, id, data).value.store.tasks;
            && after[i] == s.tasks[i].(status := data.status.value,
                                        position := |Column(s.tasks, data.status.value)|)
            && forall j :: 0 <= j < |s.tasks| && j != i ==> after[j] == s.tasks[j]
  {
  }

  /**
    A truthy target that does not resolve is ignored: the position is kept
    even when the status changes, and nothing else changes.
   */
  lemma UpdateUnresolvedTargetKeepsPosition(s: Store, id: Id, data: UpdateData)
    requires id in Ids(s.tasks)
    requires Truthy(data.targetId) && data.targetId.value !in Ids(s.tasks)
    ensures var i := IndexOf(s.tasks, id).value;
            Update(s, id, data).value.store.tasks
              == s.tasks[i := s.tasks[i].(status := OrElse(data.status, s.tasks[i].status))]
  {
  }

  /** No truthy target and no new status: neither the tasks nor the log change. */
  lemma UpdateWithoutMoveIsNoOp(s: Store, id: Id, data: UpdateData)
    requires id in Ids(s.tasks)
    requires !Truthy(data.targetId)
    requires OrElse(data.status, Find(s.tasks, id).value.status) == Find(s.tasks, id).value.status
    ensures Update(s, id, data).value.store == s
  {
    var i := IndexOf(s.tasks, id).value;
    assert s.tasks[i := s.tasks[i]] == s.tasks;
  }

  /** Repeating an update that names no target changes nothing the second time. */
  lemma UpdateWithoutTargetIsIdempotent(s: Store, id: Id, data: UpdateData)
    requires id in Ids(s.tasks)
    requires !Truthy(data.targetId)
    ensures var once := Update(s, id, data).value.store;
            Update(once, id, data).Ok? && Update(once, id, data).value.store == once
  {
    var once := Update(s, id, data).value.store;
    IndexOfSeesOnlyIds(s.tasks, once.tasks, id);
    var i := IndexOf(s.tasks, id).value;
    assert Ids(once.tasks)[i] == id;
    UpdateWithoutMoveIsNoOp(once, id, data);
  }

  /** Outside the vacated position, the shift sends distinct positions to distinct positions. */
  lemma ShiftedInjective(x: Task, y: Task, oldPos: int, newPos: int)
    requires x.position != oldPos && y.position != oldPos && x.position != y.position
    ensures Shifted(x, oldPos, newPos).position != Shifted(y, oldPos, newPos).position
  {
  }

  /** Outside the vacated position, no shifted task lands on the moved task's new position. */
  lemma ShiftedAvoidsLanding(x: Task, oldPos: int, newPos: int)
    requires x.position != oldPos
    ensures Shifted(x, oldPos, newPos).position != newPos
  {
  }

  /**
    A targeted move is a rotation of the positions between the old and the
    new one: positions that were pairwise distinct stay pairwise distinct.
   */
  lemma UpdateOntoTargetKeepsPositionsDistinct(s: Store, id: Id, data: UpdateData)
    requires id in Ids(s.tasks)
    requires ResolvedTarget(s.tasks, data).Some?
    requires DistinctPositions(s.tasks)
    ensures DistinctPositions(Update(s, id, data).value.store.tasks)
  {
    var i := IndexOf(s.tasks, id).value;
    var oldPos := s.tasks[i].position;
    var newPos := ResolvedTarget(s.tasks, data).value.position;
    var after := Update(s, id, data).value.store.tasks;
    assert after[i].position == newPos by {
      UpdateOntoTarget(s, id, data);
    }
    forall a, b | 0 <= a < b < |after|
      ensures after[a].position != after[b].position
    {
      if a == i {
        OtherTaskShifted(s, id, data, b);
        ShiftedAvoidsLanding(s.tasks[b], oldPos, newPos);
      } else if b == i {
        OtherTaskShifted(s, id, data, a);
        ShiftedAvoidsLanding(s.tasks[a], oldPos, newPos);
      } else {
        OtherTaskShifted(s, id, data, a);
        OtherTaskShifted(s, id, data, b);
        ShiftedInjective(s.tasks[a], s.tasks[b], oldPos, newPos);
      }
    }
  }

  /** The range of positions a targeted move rotates, when each of them is occupied. */
  predicate RangeOccupied(s: Store, id: Id, data: UpdateData)
    requires id in Ids(s.tasks)
    requires ResolvedTarget(s.tasks, data).Some?
  {
    var oldPos := Find(s.tasks, id).value.position;
    var newPos := ResolvedTarget(s.tasks, data).value.position;
    forall p :: Min(oldPos, newPos) <= p <= oldPos + newPos - Min(oldPos, newPos) ==> p in Positions(s.tasks)
  }

  /**
    When every position between the old and the new one is occupied, the
    targeted move only permutes positions: the set of positions is unchanged.
   */
  lemma UpdateOntoTargetKeepsPositionSet(s: Store, id: Id, data: UpdateData)
    requires id in Ids(s.tasks)
    requires ResolvedTarget(s.tasks, data).Some?
    requires RangeOccupied(s, id, data)
    ensures Positions(Update(s, id, data).value.store.tasks) == Positions(s.tasks)
  {
    TargetMoveInventsNoPosition(s, id, data);
    TargetMoveLosesNoPosition(s, id, data);
  }

  lemma TargetMoveInventsNoPosition(s: Store, id: Id, data: UpdateData)
    requires id in Ids(s.tasks)
    requires ResolvedTarget(s.tasks, data).Some?
    requires RangeOccupied(s, id, data)
    ensures Positions(Update(s, id, data).value.store.tasks) <= Positions(s.tasks)
  {
    var i := IndexOf(s.tasks, id).value;
    var newPos := ResolvedTarget(s.tasks, data).value.position;
    var after := Update(s, id, data).value.store.tasks;
    UpdateOntoTarget(s, id, data);
    var k := IndexOf(s.tasks, data.targetId.value).value;
    assert s.tasks[k].position == newPos;
    forall q | q in Positions(after)
      ensures q in Positions(s.tasks)
    {
      var j :| 0 <= j < |after| && after[j].position == q;
      if j == i {
        assert s.tasks[k].position == q;
      } else if after[j] == s.tasks[j] {
        assert s.tasks[j].position == q;
      }
    }
  }

  /** A targeted move, seen from one task other than the moved one. */
  lemma OtherTaskShifted(s: Store, id: Id, data: UpdateData, j: nat)
    requires id in Ids(s.tasks)
    requires ResolvedTarget(s.tasks, data).Some?
    requires j < |s.tasks| && j != IndexOf(s.tasks, id).value
    ensures Update(s, id, data).value.store.tasks[j]
         == Shifted(s.tasks[j], Find(s.tasks, id).value.position, ResolvedTarget(s.tasks, data).value.position)
  {
  }

  /** A targeted move, seen from the moved task. */
  lemma MovedTaskTakesTarget(s: Store, id: Id, data: UpdateData)
    requires id in Ids(s.tasks)
    requires ResolvedTarget(s.tasks, data).Some?
    ensures Update(s, id, data).value.store.tasks[IndexOf(s.tasks, id).value].position
         == ResolvedTarget(s.tasks, data).value.position
  {
  }

  lemma TargetMoveLosesNoPosition(s: Store, id: Id, data: UpdateData)
    requires id in Ids(s.tasks)
    requires ResolvedTarget(s.tasks, data).Some?
    requires RangeOccupied(s, id, data)
    ensures Positions(s.tasks) <= Positions(Update(s, id, data).value.store.tasks)
  {
    var i := IndexOf(s.tasks, id).value;
    var oldPos := s.tasks[i].position;
    var newPos := ResolvedTarget(s.tasks, data).value.position;
    var after := Update(s, id, data).value.store.tasks;
    forall q | q in Positions(s.tasks)
      ensures q in Positions(after)
    {
      var j :| 0 <= j < |s.tasks| && s.tasks[j].position == q;
      if q == newPos {
        MovedTaskTakesTarget(s, id, data);
        assert after[i].position == q;
      } else if oldPos < newPos && oldPos <= q < newPos {
        assert q + 1 in Positions(s.tasks);
        var m :| 0 <= m < |s.tasks| && s.tasks[m].position == q + 1;
        OtherTaskShifted(s, id, data, m);
        assert after[m].position == q;
      } else if newPos < oldPos && newPos < q <= oldPos {
        assert q - 1 in Positions(s.tasks);
        var m :| 0 <= m < |s.tasks| && s.tasks[m].position == q - 1;
        OtherTaskShifted(s, id, data, m);
        assert after[m].position == q;
      } else {
        OtherTaskShifted(s, id, data, j);
        assert after[j].position == q;
      }
    }
  }

  /** No call ever makes a position negative. */
  lemma UpdateKeepsPositionsNonNegative(s: Store, id: Id, data: UpdateData)
    requires NonNegativePositions(s.tasks)
    ensures Update(s, id, data).Ok? ==> NonNegativePositions(Update(s, id, data).value.store.tasks)
  {
    if id in Ids(s.tasks) {
      var i := IndexOf(s.tasks, id).value;
      var after := Update(s, id, data).value.store.tasks;
      if ResolvedTarget(s.tasks, data).Some? {
        UpdateOntoTarget(s, id, data);
        var k := IndexOf(s.tasks, data.targetId.value).value;
        assert s.tasks[k].position == after[i].position;
      }
    }
  }

  lemma UpdateKeepsIdsUnique(s: Store, id: Id, data: UpdateData)
    requires UniqueIds(s.tasks)
    ensures Update(s, id, data).Ok? ==> UniqueIds(Update(s, id, data).value.store.tasks)
  {
  }

  /**
    Moving DOWN onto a target puts the task immediately AFTER the target: the
    target is pulled up to `newPos - 1` and the moved task takes `newPos`.
   */
  lemma MoveDownLandsAfterTarget(s: Store, id: Id, data: UpdateData)
    requires id in Ids(s.tasks)
    requires ResolvedTarget(s.tasks, data).Some?
    requires Find(s.tasks, id).value.position < ResolvedTarget(s.tasks, data).value.position
    ensures var i := IndexOf(s.tasks, id).value;
            var k := IndexOf(s.tasks, data.targetId.value).value;
            var after := Update(s, id, data).value.store.tasks;
            after[i].position == after[k].position + 1
  {
    UpdateOntoTarget(s, id, data);
  }

  /**
    Three "todo" tasks A:0, B:1, C:2 and a "done" task D:1. Moving A onto C
    gives B:0, C:1, A:2, and D, in another column, is pulled to 0 as well.
   */
  lemma MoveOntoTargetExample()
    ensures var a := Task("a", "A", Todo, 0);
            var b := Task("b", "B", Todo, 1);
            var c := Task("c", "C", Todo, 2);
            var d := Task("d", "D", "done", 1);
            var s := Store([a, b, c, d], []);
            Update(s, "a", UpdateData(None, Some("c")))
              == Ok(Reply(Store([a.(position := 2), b.(position := 0), c.(position := 1),
                                 d.(position := 0)], []), a.(position := 2)))
  {
    var a := Task("a", "A", Todo, 0);
    var b := Task("b", "B", Todo, 1);
    var c := Task("c", "C", Todo, 2);
    var d := Task("d", "D", "done", 1);
    var s := Store([a, b, c, d], []);
    assert IndexOf(s.tasks, "a") == Some(0);
    assert IndexOf(s.tasks, "c") == Some(2) by {
      assert "a" != "c" && "b" != "c";
      assert IndexOf(s.tasks[2..], "c") == Some(0);
      assert IndexOf(s.tasks[1..], "c") == Some(1);
    }
    assert ResolvedTarget(s.tasks, UpdateData(None, Some("c"))) == Some(c);
    var shifted := ShiftSiblings(s.tasks, 0, 2);
    assert shifted == [a, b.(position := 0), c.(position := 1), d.(position := 0)];
    var r := Update(s, "a", UpdateData(None, Some("c")));
    assert r.Ok?;
    assert r.value.task == a.(position := 2);
    assert r.value.store.log == [];
    var expected := [a.(position := 2), b.(position := 0), c.(position := 1), d.(position := 0)];
    assert r.value.store.tasks == shifted[0 := a.(position := 2)] == expected;
    assert r == Ok(Reply(Store(expected, []), a.(position := 2)));
  }
}

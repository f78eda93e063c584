/**
  `update` as the board uses it: the client sends as `targetId` the task the
  moved one should end up immediately BEFORE. Moving up, the service already
  does that; moving down it lands one place too far, after the target. This
  module keeps every branch of `update` and changes only where a task moved
  down onto a target lands: at `newPos - 1`, with the tasks strictly between
  the two positions pulled up.
 */
module CorrectedUpdate {
  import opened Seqs
  import opened Schema
  import opened TasksService

  /** Where the moved task lands so that it sits right before the target. */
  function LandingBefore(oldPos: int, targetPos: int): int {
    if oldPos < targetPos then targetPos - 1 else targetPos
  }

  function UpdateLandingBefore(s: Store, id: Id, data: UpdateData): (r: Result<Reply>)
    ensures r.NotFound? <==> id !in Ids(s.tasks)
  {
    match IndexOf(s.tasks, id)
    case None => NotFound
    case Some(i) =>
      var task := s.tasks[i];
      var newStatus := OrElse(data.status, task.status);
      var target := ResolvedTarget(s.tasks, data);
      var newPos :=
        if target.Some? then LandingBefore(task.position, target.value.position)
        else if !Truthy(data.targetId) && Truthy(data.status) && data.status.value != task.status
        then |Column(s.tasks, data.status.value)|
        else task.position;
      var siblings :=
        if target.Some? then ShiftSiblings(s.tasks, task.position, newPos)
        else s.tasks;
      Ok(Settle(s, i, siblings, newStatus, newPos))
  }

  /**
    With the correction, a task moved onto a different position's target ends
    immediately before it, in either direction.
   */
  lemma LandsImmediatelyBeforeTarget(s: Store, id: Id, data: UpdateData)
    requires id in Ids(s.tasks)
    requires ResolvedTarget(s.tasks, data).Some?
    requires Find(s.tasks, id).value.position != ResolvedTarget(s.tasks, data).value.position
    ensures var i := IndexOf(s.tasks, id).value;
            var k := IndexOf(s.tasks, data.targetId.value).value;
            var after := UpdateLandingBefore(s, id, data).value.store.tasks;
            after[i].position + 1 == after[k].position
  {
  }

  /**
    The correction changes nothing but a downward targeted move: without a
    resolved target, or moving up, it is the service's own `update`.
   */
  lemma AgreesExceptMovingDown(s: Store, id: Id, data: UpdateData)
    requires id in Ids(s.tasks) ==>
             ResolvedTarget(s.tasks, data).None?
             || ResolvedTarget(s.tasks, data).value.position <= Find(s.tasks, id).value.position
    ensures UpdateLandingBefore(s, id, data) == Update(s, id, data)
  {
  }
}

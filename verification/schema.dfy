/**
  The task record shared by the backend store and the board view, and the
  lookups both sides make over a collection of tasks.
 */
module Schema {
  import opened Seqs

  datatype Option<T> = None | Some(value: T)

  /** A store-assigned document identifier (`_id`). */
  type Id = string

  /**
    A task document. `status` names the column the task is shown in;
    `position` orders tasks for display. Timestamps are not modelled.
   */
  datatype Task = Task(id: Id, title: string, status: string, position: int)

  /** The status every new task starts in. */
  const Todo: string := "todo"

  function Ids(tasks: seq<Task>): seq<Id> {
    seq(|tasks|, j requires 0 <= j < |tasks| => tasks[j].id)
  }

  predicate UniqueIds(tasks: seq<Task>) {
    forall i, j :: 0 <= i < j < |tasks| ==> tasks[i].id != tasks[j].id
  }

  /** `findById`: where the first task carrying `id` sits, if any does. */
  function IndexOf(tasks: seq<Task>, id: Id): (r: Option<nat>)
    ensures r.None? <==> id !in Ids(tasks)
    ensures r.Some? ==> r.value < |tasks| && tasks[r.value].id == id
    ensures r.Some? ==> forall j :: 0 <= j < r.value ==> tasks[j].id != id
  {
    if tasks == [] then None
    else if tasks[0].id == id then
      assert Ids(tasks)[0] == id;
      Some(0)
    else
      assert Ids(tasks) == [tasks[0].id] + Ids(tasks[1..]);
      match IndexOf(tasks[1..], id)
      case None => None
      case Some(k) => Some(k + 1)
  }

  /** A task appended under a fresh id is found at the end. */
  lemma {:induction false} IndexOfAppended(tasks: seq<Task>, t: Task)
    requires t.id !in Ids(tasks)
    ensures IndexOf(tasks + [t], t.id) == Some(|tasks|)
    decreases |tasks|
  {
    if tasks != [] {
      assert Ids(tasks)[0] == tasks[0].id;
      assert (tasks + [t])[1..] == tasks[1..] + [t];
      assert t.id !in Ids(tasks[1..]) by {
        assert Ids(tasks) == [tasks[0].id] + Ids(tasks[1..]);
      }
      IndexOfAppended(tasks[1..], t);
    }
  }

  function Find(tasks: seq<Task>, id: Id): Option<Task> {
    match IndexOf(tasks, id)
    case None => None
    case Some(i) => Some(tasks[i])
  }

  /** `t.status === status`, the test of `countDocuments({ status })` and of the board's column filter. */
  function InColumn(status: string): Task -> bool {
    (t: Task) => t.status == status
  }

  function NotInColumn(status: string): Task -> bool {
    (t: Task) => t.status != status
  }

  function Column(tasks: seq<Task>, status: string): seq<Task> {
    Filter(InColumn(status), tasks)
  }

  function OtherColumns(tasks: seq<Task>, status: string): seq<Task> {
    Filter(NotInColumn(status), tasks)
  }

  /** Every task is in exactly one of `Column(status)` and `OtherColumns(status)`. */
  lemma ColumnPartition(tasks: seq<Task>, status: string)
    ensures multiset(Column(tasks, status)) + multiset(OtherColumns(tasks, status)) == multiset(tasks)
    ensures |Column(tasks, status)| + |OtherColumns(tasks, status)| == |tasks|
  {
    FilterPartition(InColumn(status), NotInColumn(status), tasks);
    assert |multiset(Column(tasks, status))| + |multiset(OtherColumns(tasks, status))| == |multiset(tasks)|;
  }

  /** Lookups see only the ids: two collections with the same ids, index by index, agree. */
  lemma {:induction false} IndexOfSeesOnlyIds(a: seq<Task>, b: seq<Task>, id: Id)
    requires |a| == |b|
    requires forall j :: 0 <= j < |a| ==> a[j].id == b[j].id
    ensures IndexOf(a, id) == IndexOf(b, id)
    decreases |a|
  {
    if a != [] {
      assert a[0].id == b[0].id;
      IndexOfSeesOnlyIds(a[1..], b[1..], id);
    }
  }

  /** Under unique ids the first task carrying `id` is the only one. */
  lemma IndexOfUnique(tasks: seq<Task>, id: Id, j: nat)
    requires UniqueIds(tasks)
    requires j < |tasks| && tasks[j].id == id
    ensures IndexOf(tasks, id) == Some(j)
  {
    assert Ids(tasks)[j] == id;
  }

  lemma IdsAppend(a: seq<Task>, b: seq<Task>)
    ensures Ids(a + b) == Ids(a) + Ids(b)
  {
  }

  lemma RemoveAtMultiset<T>(s: seq<T>, k: nat)
    requires k < |s|
    ensures multiset(s[..k] + s[k + 1..]) == multiset(s) - multiset{s[k]}
  {
    assert s == s[..k] + [s[k]] + s[k + 1..];
  }

  lemma RemoveAtIdsMultiset(s: seq<Task>, k: nat)
    requires k < |s|
    ensures multiset(Ids(s)) == multiset(Ids(s[..k] + s[k + 1..])) + multiset{s[k].id}
  {
    IdsAppend(s[..k], s[k + 1..]);
    assert Ids(s[..k] + s[k + 1..]) == Ids(s)[..k] + Ids(s)[k + 1..];
    RemoveAtMultiset(Ids(s), k);
  }

  /** Rearranging tasks rearranges their ids the same way. */
  lemma {:induction false} PermutationKeepsIds(a: seq<Task>, b: seq<Task>)
    requires multiset(a) == multiset(b)
    ensures multiset(Ids(a)) == multiset(Ids(b))
    decreases |a|
  {
    if a == [] {
      assert |multiset(b)| == 0;
    } else {
      var x := a[0];
      assert x in multiset(a);
      assert x in b;
      var k :| 0 <= k < |b| && b[k] == x;
      var rest := b[..k] + b[k + 1..];
      assert multiset(a[1..]) == multiset(rest) by {
        RemoveAtMultiset(b, k);
        assert a == [x] + a[1..];
      }
      PermutationKeepsIds(a[1..], rest);
      RemoveAtIdsMultiset(b, k);
      RemoveAtIdsMultiset(a, 0);
      assert a[..0] + a[1..] == a[1..];
    }
  }
}

/**
 * The admin task page (client/src/pages/admin/Tasks/Tasks.tsx): the lists
 * of incomplete and completed tasks, and the edit and delete handlers that
 * keep a task in the list its status belongs to.
 */
module AdminTasks {
  import opened Common

  const Completed: string := "Completed"
  const AvailableForSignUp: string := "Available for Sign Up"

  /** One row of either list; `evaluatorName` is None for null. */
  datatype Task = Task(assignedMember: Option<int>, dueDate: string, evaluatorName: Option<string>,
                       id: int, status: string, title: string)

  /** The edit form's values. */
  datatype EditTaskData = EditTaskData(title: string, dueDate: string, assignedMember: Option<int>, status: string)

  /** An evaluator a task can be assigned to. */
  datatype Evaluator = Evaluator(id: int, name: string, nickname: string)

  /** `list.find(t => t.task_id === id)`. */
  function FindTask(s: seq<Task>, id: int): (r: Option<Task>)
    ensures r.Some? ==> r.value in s && r.value.id == id
    ensures r.None? <==> forall t :: t in s ==> t.id != id
    ensures forall k :: 0 <= k < |s| && s[k].id == id && (forall j :: 0 <= j < k ==> s[j].id != id) ==>
              r == Some(s[k])
  {
    if |s| == 0 then None
    else if s[0].id == id then Some(s[0])
    else
      assert s == [s[0]] + s[1..];
      assert forall k :: 1 <= k < |s| ==> s[k] == s[1..][k - 1];
      FindTask(s[1..], id)
  }

  /** `list.filter(t => t.task_id !== id)`. */
  function WithoutTask(s: seq<Task>, id: int): (r: seq<Task>)
    ensures forall t :: t in r <==> t in s && t.id != id
    ensures |r| <= |s|
  {
    if |s| == 0 then []
    else WithoutTask(s[..|s| - 1], id) + (if s[|s| - 1].id != id then [s[|s| - 1]] else [])
  }

  /** Filtering keeps order: it acts on each part of a concatenation separately. */
  lemma {:induction false} WithoutTaskAppend(a: seq<Task>, b: seq<Task>, id: int)
    ensures WithoutTask(a + b, id) == WithoutTask(a, id) + WithoutTask(b, id)
  {
    if |b| == 0 {
      assert a + b == a;
    } else {
      var b' := b[..|b| - 1];
      assert (a + b)[..|a + b| - 1] == a + b';
      WithoutTaskAppend(a, b', id);
    }
  }

  /** Filtering out an id no task has keeps the list as it is. */
  lemma {:induction false} WithoutAbsentTask(s: seq<Task>, id: int)
    requires forall i :: 0 <= i < |s| ==> s[i].id != id
    ensures WithoutTask(s, id) == s
  {
    if |s| > 0 {
      var p := s[..|s| - 1];
      WithoutAbsentTask(p, id);
      assert p + [s[|s| - 1]] == s;
    }
  }

  /** getEvaluatorNameById: the first evaluator with the id, its name, or null when missing or empty. */
  function EvaluatorName(evaluators: seq<Evaluator>, id: int): (r: Option<string>)
    ensures r.Some? ==> r.value != "" && exists e :: e in evaluators && e.id == id && e.name == r.value
    ensures (forall e :: e in evaluators ==> e.id != id) ==> r.None?
    ensures forall k :: 0 <= k < |evaluators| && evaluators[k].id == id
                        && (forall j :: 0 <= j < k ==> evaluators[j].id != id) ==>
              r == (if evaluators[k].name != "" then Some(evaluators[k].name) else None)
  {
    if |evaluators| == 0 then None
    else if evaluators[0].id == id then (if evaluators[0].name != "" then Some(evaluators[0].name) else None)
    else
      assert evaluators == [evaluators[0]] + evaluators[1..];
      assert forall k :: 1 <= k < |evaluators| ==> evaluators[k] == evaluators[1..][k - 1];
      EvaluatorName(evaluators[1..], id)
  }

  /**
   * The evaluator_name stored with an edited task: the sign-up label for
   * no member (null or 0); otherwise the name of the first evaluator with
   * the member's id, or null when there is none or its name is empty.
   */
  function AssigneeName(evaluators: seq<Evaluator>, member: Option<int>): (r: Option<string>)
    ensures member.None? || member == Some(0) ==> r == Some(AvailableForSignUp)
    ensures member.Some? && member.value != 0 ==>
              forall k :: 0 <= k < |evaluators| && evaluators[k].id == member.value
                          && (forall j :: 0 <= j < k ==> evaluators[j].id != member.value) ==>
                r == (if evaluators[k].name != "" then Some(evaluators[k].name) else None)
    ensures member.Some? && member.value != 0 && (forall e :: e in evaluators ==> e.id != member.value) ==> r.None?
  {
    if member.Some? && member.value != 0 then EvaluatorName(evaluators, member.value) else Some(AvailableForSignUp)
  }

  /** The record the form's values make for task `id`. */
  function Edited(evaluators: seq<Evaluator>, id: int, data: EditTaskData): (t: Task)
    ensures t.id == id && t.status == data.status && t.title == data.title
            && t.dueDate == data.dueDate && t.assignedMember == data.assignedMember
  {
    Task(data.assignedMember, data.dueDate, AssigneeName(evaluators, data.assignedMember), id, data.status, data.title)
  }

  /** Every list holds only tasks of its status class. */
  predicate Sorted(incomplete: seq<Task>, complete: seq<Task>) {
    (forall t :: t in incomplete ==> t.status != Completed) && (forall t :: t in complete ==> t.status == Completed)
  }

  /** The page's state. */
  class TaskPage {
    var incompleteTasks: seq<Task>
    var completeTasks: seq<Task>
    var evaluators: seq<Evaluator>
    var editTask: Option<Task>
    var deleteTaskId: Option<int>

    /** The page once its lists and evaluators are fetched. */
    constructor(incomplete: seq<Task>, complete: seq<Task>, evaluators: seq<Evaluator>)
      ensures incompleteTasks == incomplete && completeTasks == complete && this.evaluators == evaluators
      ensures editTask.None? && deleteTaskId.None?
    {
      incompleteTasks := incomplete;
      completeTasks := complete;
      this.evaluators := evaluators;
      editTask := None;
      deleteTaskId := None;
    }

    /** Every list holds only tasks of its status class. */
    predicate Valid()
      reads this
    {
      Sorted(incompleteTasks, completeTasks)
    }

    /** openEditTaskModal: the task with the id, looked up among the incomplete tasks first. */
    method OpenEditTaskModal(id: int)
      modifies this
      ensures editTask == (if FindTask(incompleteTasks, id).Some? then FindTask(incompleteTasks, id)
                           else FindTask(completeTasks, id))
      ensures incompleteTasks == old(incompleteTasks) && completeTasks == old(completeTasks)
      ensures evaluators == old(evaluators) && deleteTaskId == old(deleteTaskId)
    {
      var task := FindTask(incompleteTasks, id);
      if task.None? {
        task := FindTask(completeTasks, id);
      }
      editTask := task;
    }

    /** The edit applied to every record of the edited task's id in `s`, by a scan. */
    method EditInPlace(s: seq<Task>, id: int, data: EditTaskData) returns (r: seq<Task>)
      ensures |r| == |s|
      ensures forall i :: 0 <= i < |s| ==> r[i] == (if s[i].id == id then Edited(evaluators, id, data) else s[i])
    {
      r := s;
      var i := 0;
      while i < |r|
        invariant 0 <= i <= |r| == |s|
        invariant forall j :: 0 <= j < i ==> r[j] == (if s[j].id == id then Edited(evaluators, id, data) else s[j])
        invariant forall j :: i <= j < |r| ==> r[j] == s[j]
      {
        if r[i].id == id {
          r := r[i := Edited(evaluators, id, data)];
        }
        i := i + 1;
      }
    }

    /**
     * handleEditTask: nothing without a task being edited. Otherwise, by
     * the old and new status: an edit within a class updates every record
     * of the id in that list; completing moves the task from the
     * incomplete list to the end of the complete one, reopening the other
     * way. The edit form then closes.
     */
    method HandleEditTask(data: EditTaskData)
      modifies this
      ensures old(editTask).None? ==> incompleteTasks == old(incompleteTasks) && completeTasks == old(completeTasks)
                                      && editTask == old(editTask)
      ensures old(editTask).Some? ==> editTask.None?
      ensures evaluators == old(evaluators) && deleteTaskId == old(deleteTaskId)
      ensures old(editTask).Some? ==>
                var id := old(editTask).value.id;
                var was := old(editTask).value.status == Completed;
                var now := data.status == Completed;
                (!was && !now ==>
                  completeTasks == old(completeTasks) && |incompleteTasks| == |old(incompleteTasks)|
                  && forall i :: 0 <= i < |incompleteTasks| ==>
                       incompleteTasks[i] == (if old(incompleteTasks)[i].id == id then Edited(evaluators, id, data)
                                              else old(incompleteTasks)[i]))
                && (!was && now ==>
                  incompleteTasks == WithoutTask(old(incompleteTasks), id)
                  && completeTasks == old(completeTasks) + [Edited(evaluators, id, data)])
                && (was && !now ==>
                  incompleteTasks == old(incompleteTasks) + [Edited(evaluators, id, data)]
                  && completeTasks == WithoutTask(old(completeTasks), id))
                && (was && now ==>
                  incompleteTasks == old(incompleteTasks) && |completeTasks| == |old(completeTasks)|
                  && forall i :: 0 <= i < |completeTasks| ==>
                       completeTasks[i] == (if old(completeTasks)[i].id == id then Edited(evaluators, id, data)
                                            else old(completeTasks)[i]))
      ensures old(Valid()) ==> Valid()
    {
      if editTask.None? {
        return;
      }
      var id := editTask.value.id;
      var was := editTask.value.status == Completed;
      var now := data.status == Completed;
      if !was && !now {
        var updated := EditInPlace(incompleteTasks, id, data);
        ghost var before := incompleteTasks;
        incompleteTasks := updated;
        assert forall t :: t in incompleteTasks ==> t in before || t == Edited(evaluators, id, data);
      } else if !was && now {
        incompleteTasks := WithoutTask(incompleteTasks, id);
        completeTasks := completeTasks + [Edited(evaluators, id, data)];
      } else if was && !now {
        incompleteTasks := incompleteTasks + [Edited(evaluators, id, data)];
        completeTasks := WithoutTask(completeTasks, id);
      } else {
        var updated := EditInPlace(completeTasks, id, data);
        ghost var before := completeTasks;
        completeTasks := updated;
        assert forall t :: t in completeTasks ==> t in before || t == Edited(evaluators, id, data);
      }
      editTask := None;
    }

    /** handleDeleteTask: every task with the id leaves both lists, the rest keep their order, and the confirmation closes. */
    method HandleDeleteTask(id: int)
      modifies this
      ensures incompleteTasks == WithoutTask(old(incompleteTasks), id)
      ensures completeTasks == WithoutTask(old(completeTasks), id)
      ensures deleteTaskId.None?
      ensures evaluators == old(evaluators) && editTask == old(editTask)
      ensures old(Valid()) ==> Valid()
    {
      incompleteTasks := WithoutTask(incompleteTasks, id);
      completeTasks := WithoutTask(completeTasks, id);
      deleteTaskId := None;
    }
  }

  /**
   * Completing a task and reopening it with the same values leaves the
   * task once at the end of the incomplete list, and no record of it
   * among the completed ones.
   */
  lemma CompleteThenReopen(incomplete: seq<Task>, complete: seq<Task>, evaluators: seq<Evaluator>,
                           id: int, done: EditTaskData, reopened: EditTaskData)
    requires done.status == Completed && reopened.status != Completed
    ensures var inc1 := WithoutTask(incomplete, id);
            var com1 := complete + [Edited(evaluators, id, done)];
            var inc2 := inc1 + [Edited(evaluators, id, reopened)];
            var com2 := WithoutTask(com1, id);
            (forall t :: t in inc2 && t.id == id ==> t == Edited(evaluators, id, reopened))
            && (forall t :: t in com2 ==> t.id != id)
            && com2 == WithoutTask(complete, id)
  {
    var com1 := complete + [Edited(evaluators, id, done)];
    WithoutTaskAppend(complete, [Edited(evaluators, id, done)], id);
    assert WithoutTask([Edited(evaluators, id, done)], id) == [];
  }
}

/**
 * The evaluator's task lists on the home page (client/src/pages/Home/Tasks.tsx):
 * the tasks assigned to them and the ones still open for sign-up, and the
 * two buttons that move tasks along.
 */
module HomeTasks {
  import opened Common

  const NotStarted: string := "Not Started"
  const Started: string := "Started"

  /** One task card's data. */
  datatype Task = Task(title: string, status: string, id: int, dueDate: string, assignedMember: int)

  /** Where the first task with `id` sits in `s`, if anywhere. */
  function FirstIndex(s: seq<Task>, id: int): (r: Option<nat>)
    ensures r.Some? ==> r.value < |s| && s[r.value].id == id && forall j :: 0 <= j < r.value ==> s[j].id != id
    ensures r.None? ==> forall j :: 0 <= j < |s| ==> s[j].id != id
  {
    if |s| == 0 then None
    else if s[0].id == id then Some(0)
    else match FirstIndex(s[1..], id)
      case Some(i) => Some(i + 1)
      case None => None
  }

  /** The page's two lists. */
  class TaskLists {
    var myTasks: seq<Task>
    var availableTasks: seq<Task>

    /** The lists as first fetched. */
    constructor(mine: seq<Task>, available: seq<Task>)
      ensures myTasks == mine && availableTasks == available
    {
      myTasks := mine;
      availableTasks := available;
    }

    /** Both lists together. */
    function All(): seq<Task>
      reads this
    {
      myTasks + availableTasks
    }

    /**
     * updateTaskStatus: the first of my tasks with `id` becomes Started
     * when it is Not Started and leaves the list otherwise; the others
     * stay as they are, and an id not in the list changes nothing.
     */
    method UpdateTaskStatus(id: int)
      modifies this
      ensures availableTasks == old(availableTasks)
      ensures FirstIndex(old(myTasks), id).None? ==> myTasks == old(myTasks)
      ensures FirstIndex(old(myTasks), id).Some? ==>
                var i := FirstIndex(old(myTasks), id).value;
                var t := old(myTasks)[i];
                if t.status == NotStarted then myTasks == old(myTasks)[i := t.(status := Started)]
                else myTasks == old(myTasks)[..i] + old(myTasks)[i + 1..]
    {
      var newTasks := myTasks;
      var i := 0;
      while i < |newTasks|
        invariant 0 <= i <= |newTasks|
        invariant newTasks == myTasks
        invariant forall j :: 0 <= j < i ==> newTasks[j].id != id
      {
        if newTasks[i].id == id {
          if newTasks[i].status == NotStarted {
            newTasks := newTasks[i := newTasks[i].(status := Started)];
          } else {
            newTasks := newTasks[..i] + newTasks[i + 1..];
          }
          break;
        }
        i := i + 1;
      }
      myTasks := newTasks;
    }

    /**
     * signupForTask: the first available task with `id` moves to the end
     * of my tasks; an id not on offer changes nothing.
     */
    method SignupForTask(id: int)
      modifies this
      ensures FirstIndex(old(availableTasks), id).None? ==>
                myTasks == old(myTasks) && availableTasks == old(availableTasks)
      ensures FirstIndex(old(availableTasks), id).Some? ==>
                var i := FirstIndex(old(availableTasks), id).value;
                availableTasks == old(availableTasks)[..i] + old(availableTasks)[i + 1..]
                && myTasks == old(myTasks) + [old(availableTasks)[i]]
      ensures |myTasks| + |availableTasks| == old(|myTasks| + |availableTasks|)
      ensures multiset(All()) == old(multiset(All()))
    {
      var i := 0;
      while i < |availableTasks|
        invariant 0 <= i <= |availableTasks|
        invariant myTasks == old(myTasks) && availableTasks == old(availableTasks)
        invariant forall j :: 0 <= j < i ==> availableTasks[j].id != id
      {
        if availableTasks[i].id == id {
          var task := availableTasks[i];
          var newAvailable := availableTasks[..i] + availableTasks[i + 1..];
          assert availableTasks == availableTasks[..i] + [task] + availableTasks[i + 1..];
          var newMine := myTasks + [task];
          availableTasks := newAvailable;
          myTasks := newMine;
          return;
        }
        i := i + 1;
      }
    }
  }

  /** Marking a task is at most one step: Started tasks leave the list, so marking twice removes a Not Started task. */
  lemma {:induction false} MarkTwiceRemoves(s: seq<Task>, i: nat)
    requires i < |s| && s[i].status == NotStarted
    requires forall j :: 0 <= j < i ==> s[j].id != s[i].id
    ensures var t := s[i := s[i].(status := Started)];
            FirstIndex(t, s[i].id) == Some(i) && t[i].status != NotStarted
  {
    var t := s[i := s[i].(status := Started)];
    FirstIndexAt(t, i);
  }

  /** A task with no earlier namesake is found where it is. */
  lemma {:induction false} FirstIndexAt(s: seq<Task>, i: nat)
    requires i < |s|
    requires forall j :: 0 <= j < i ==> s[j].id != s[i].id
    ensures FirstIndex(s, s[i].id) == Some(i)
  {
    if i > 0 {
      FirstIndexAt(s[1..], i - 1);
    }
  }
}

/**
 * internal/models/evaluations.go: the list of a user's completed
 * evaluations in a contest, each with its total score and whether the
 * caller may edit it, and the per-user evaluation counters.
 */
module Evaluations {
  import opened Common
  import opened Auth
  import opened EntryTable
  import opened JudgingTables

  /** An evaluation as the resolver returns it: the scanned row plus Total and CanEdit. */
  datatype EvaluationView = EvaluationView(
    id: int, entryId: int, userId: int,
    creativity: int, complexity: int, execution: int, interpretation: int,
    created: string, level: string, total: int, canEdit: bool)

  /** The evaluation table is kept in ascending evaluation_id order (its primary key). */
  predicate EvalIdsAscending(evals: seq<Evaluation>) {
    forall i, j :: 0 <= i < j < |evals| ==> evals[i].id < evals[j].id
  }

  /** The WHERE clause of the list query, over the joined entry row. */
  predicate Listed(ev: Evaluation, entries: seq<Entry>, userId: int, contestId: int) {
    ev.evaluatorId == userId && ev.complete
    && match EntryById(entries, ev.entryId)
       case Some(en) => en.contestId == contestId
       case None => false
  }

  /** The rows of the list query, in table order. */
  function Filtered(evals: seq<Evaluation>, entries: seq<Entry>, userId: int, contestId: int): seq<Evaluation> {
    if |evals| == 0 then []
    else
      Filtered(evals[..|evals| - 1], entries, userId, contestId)
      + (if Listed(evals[|evals| - 1], entries, userId, contestId) then [evals[|evals| - 1]] else [])
  }

  /**
   * Whether the caller may edit an evaluation of the listed user in the
   * listed contest: their own evaluations in the current contest (the
   * newest one, which GetCurrentContest returns), or any
   * evaluation with EditAllEvaluations. Being an admin does not count.
   */
  predicate CanEdit(caller: User, userId: int, contestId: int, currentContestId: int) {
    (contestId == currentContestId && userId == caller.id) || EditAllEvaluations in caller.perms
  }

  /** The resolver's view of a scanned row: every column as scanned, the four scores summed, and the edit flag. */
  function View(ev: Evaluation, canEdit: bool): EvaluationView {
    EvaluationView(ev.id, ev.entryId, ev.evaluatorId, ev.creativity, ev.complexity, ev.execution,
                   ev.interpretation, ev.created, ev.level,
                   ev.creativity + ev.complexity + ev.execution + ev.interpretation, canEdit)
  }

  /**
   * GetEvaluationsForUserAndContest. When no contest exists the list is
   * empty and the lookup's NotFound error is returned with it.
   */
  method GetEvaluationsForUserAndContest(evals: seq<Evaluation>, entries: seq<Entry>, caller: User,
                                         currentContest: Option<int>, userId: int, contestId: int)
    returns (list: seq<EvaluationView>, err: Option<ErrorKind>)
    ensures currentContest.None? ==> list == [] && err == Some(NotFound)
    ensures currentContest.Some? ==> err == None
    ensures currentContest.Some? ==>
              var rows := Filtered(evals, entries, userId, contestId);
              |list| == |rows|
              && forall i :: 0 <= i < |rows| ==>
                   list[i] == View(rows[i], CanEdit(caller, userId, contestId, currentContest.value))
                   && list[i].userId == userId
                   && list[i].total == rows[i].creativity + rows[i].complexity + rows[i].execution + rows[i].interpretation
  {
    if currentContest.None? {
      return [], Some(NotFound);
    }
    var current := currentContest.value;
    list := [];
    err := None;
    for k := 0 to |evals|
      invariant |list| == |Filtered(evals[..k], entries, userId, contestId)|
      invariant forall i :: 0 <= i < |list| ==>
                  list[i] == View(Filtered(evals[..k], entries, userId, contestId)[i], CanEdit(caller, userId, contestId, current))
    {
      assert evals[..k + 1][..k] == evals[..k];
      var ev := evals[k];
      if Listed(ev, entries, userId, contestId) {
        var canEdit := false;
        if (contestId == current && userId == caller.id) || EditAllEvaluations in caller.perms {
          canEdit := true;
        }
        list := list + [View(ev, canEdit)];
      }
    }
    assert evals[..|evals|] == evals;
    FilteredListed(evals, entries, userId, contestId);
  }

  /** The list holds exactly the user's completed evaluations of the contest's entries. */
  lemma {:induction false} FilteredListed(evals: seq<Evaluation>, entries: seq<Entry>, userId: int, contestId: int)
    ensures forall ev :: ev in Filtered(evals, entries, userId, contestId)
                         <==> ev in evals && Listed(ev, entries, userId, contestId)
    ensures forall i :: 0 <= i < |Filtered(evals, entries, userId, contestId)| ==>
              Filtered(evals, entries, userId, contestId)[i].evaluatorId == userId
  {
    if |evals| > 0 {
      var p := evals[..|evals| - 1];
      FilteredListed(p, entries, userId, contestId);
      assert evals == p + [evals[|evals| - 1]];
    }
  }

  /** With the table in key order, the list comes out in ascending evaluation id (ORDER BY evaluation_id ASC). */
  lemma {:induction false} FilteredAscending(evals: seq<Evaluation>, entries: seq<Entry>, userId: int, contestId: int)
    requires EvalIdsAscending(evals)
    ensures EvalIdsAscending(Filtered(evals, entries, userId, contestId))
  {
    if |evals| > 0 {
      var p := evals[..|evals| - 1];
      var last := evals[|evals| - 1];
      FilteredAscending(p, entries, userId, contestId);
      FilteredListed(p, entries, userId, contestId);
      var f := Filtered(p, entries, userId, contestId);
      forall i | 0 <= i < |f|
        ensures f[i].id < last.id
      {
        assert f[i] in p;
      }
    }
  }

  /** CanEdit does not consult the admin flag. */
  lemma CanEditIgnoresAdmin(caller: User, admin: bool, userId: int, contestId: int, currentContestId: int)
    ensures CanEdit(caller.(isAdmin := admin), userId, contestId, currentContestId)
            == CanEdit(caller, userId, contestId, currentContestId)
  {
  }

  /** GetUserTotalEvaluations: the user's completed evaluations (COUNT(*) always yields a row). */
  function UserTotalEvaluations(evals: seq<Evaluation>, userId: int): nat {
    if |evals| == 0 then 0
    else
      UserTotalEvaluations(evals[..|evals| - 1], userId)
      + (if evals[|evals| - 1].evaluatorId == userId && evals[|evals| - 1].complete then 1 else 0)
  }

  /** Whether the user completed an evaluation of some entry of contest c (the EXISTS subquery). */
  predicate JudgedContest(evals: seq<Evaluation>, entries: seq<Entry>, userId: int, c: int) {
    exists i :: 0 <= i < |evals| && Listed(evals[i], entries, userId, c)
  }

  /** GetUserTotalContestsJudged: the contests in which the user completed at least one evaluation. */
  function UserTotalContestsJudged(contests: seq<int>, evals: seq<Evaluation>, entries: seq<Entry>, userId: int): nat {
    if |contests| == 0 then 0
    else
      UserTotalContestsJudged(contests[..|contests| - 1], evals, entries, userId)
      + (if JudgedContest(evals, entries, userId, contests[|contests| - 1]) then 1 else 0)
  }

  /** No completed evaluation by the user: the evaluation counter is 0. */
  lemma {:induction false} NoCompletedMeansZero(evals: seq<Evaluation>, userId: int)
    ensures UserTotalEvaluations(evals, userId) == 0
            <==> forall i :: 0 <= i < |evals| ==> !(evals[i].evaluatorId == userId && evals[i].complete)
  {
    if |evals| > 0 {
      var p := evals[..|evals| - 1];
      NoCompletedMeansZero(p, userId);
      assert forall i :: 0 <= i < |p| ==> p[i] == evals[i];
    }
  }

  /** Both counters count completed evaluations only: a user with none has judged no contest either. */
  lemma {:induction false} NoEvaluationsNoContests(contests: seq<int>, evals: seq<Evaluation>, entries: seq<Entry>, userId: int)
    requires UserTotalEvaluations(evals, userId) == 0
    ensures UserTotalContestsJudged(contests, evals, entries, userId) == 0
  {
    NoCompletedMeansZero(evals, userId);
    if |contests| > 0 {
      NoEvaluationsNoContests(contests[..|contests| - 1], evals, entries, userId);
    }
  }

  /** An incomplete evaluation adds to neither counter. */
  lemma IncompleteEvaluationNotCounted(contests: seq<int>, evals: seq<Evaluation>, entries: seq<Entry>,
                                       userId: int, draft: Evaluation)
    requires !draft.complete
    ensures UserTotalEvaluations(evals + [draft], userId) == UserTotalEvaluations(evals, userId)
    ensures UserTotalContestsJudged(contests, evals + [draft], entries, userId)
            == UserTotalContestsJudged(contests, evals, entries, userId)
  {
    assert (evals + [draft])[..|evals|] == evals;
    JudgedIgnoresDraft(contests, evals, entries, userId, draft);
  }

  lemma {:induction false} JudgedIgnoresDraft(contests: seq<int>, evals: seq<Evaluation>, entries: seq<Entry>,
                                              userId: int, draft: Evaluation)
    requires !draft.complete
    ensures UserTotalContestsJudged(contests, evals + [draft], entries, userId)
            == UserTotalContestsJudged(contests, evals, entries, userId)
  {
    if |contests| > 0 {
      var c := contests[|contests| - 1];
      JudgedIgnoresDraft(contests[..|contests| - 1], evals, entries, userId, draft);
      var e2 := evals + [draft];
      assert forall i :: 0 <= i < |evals| ==> e2[i] == evals[i];
      if JudgedContest(e2, entries, userId, c) {
        var i :| 0 <= i < |e2| && Listed(e2[i], entries, userId, c);
        assert i < |evals| && e2[i] == evals[i];
      }
    }
  }

  /** The contest counter never exceeds the number of contests. */
  lemma {:induction false} ContestsJudgedBounded(contests: seq<int>, evals: seq<Evaluation>, entries: seq<Entry>, userId: int)
    ensures UserTotalContestsJudged(contests, evals, entries, userId) <= |contests|
  {
    if |contests| > 0 {
      ContestsJudgedBounded(contests[..|contests| - 1], evals, entries, userId);
    }
  }
}

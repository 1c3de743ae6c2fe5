/**
 * The `evaluation` and `evaluator` tables next to the entry table, and the
 * COUNT(*) projections the judging reports take over them.
 */
module JudgingTables {
  import opened Common
  import opened EntryTable

  /** One row of the `evaluation` table. */
  datatype Evaluation = Evaluation(
    id: int, entryId: int, evaluatorId: int,
    creativity: int, complexity: int, execution: int, interpretation: int,
    created: string, level: string, complete: bool)

  /**
   * One row of `evaluator`, with its `evaluator_permissions.judge_entries`
   * flag; None when the evaluator has no permissions row, so that an
   * INNER JOIN on the permissions drops it.
   */
  datatype Evaluator = Evaluator(id: int, group: Option<int>, accountLocked: bool, judgeEntries: Option<bool>)

  /** SELECT COUNT(*) FROM entry WHERE keep. */
  function CountEntries(s: seq<Entry>, keep: Entry -> bool): nat {
    if |s| == 0 then 0
    else CountEntries(s[..|s| - 1], keep) + (if keep(s[|s| - 1]) then 1 else 0)
  }

  /** SELECT COUNT(*) FROM evaluation ev INNER JOIN entry en ON en.entry_id = ev.entry_id WHERE keep. */
  function CountEvals(evals: seq<Evaluation>, entries: seq<Entry>, keep: (Evaluation, Entry) -> bool): nat {
    if |evals| == 0 then 0
    else
      var ev := evals[|evals| - 1];
      CountEvals(evals[..|evals| - 1], entries, keep)
      + (match EntryById(entries, ev.entryId)
         case Some(en) => if keep(ev, en) then 1 else 0
         case None => 0)
  }

  /** Counting under a weaker filter never gives less. */
  lemma {:induction false} CountEntriesMono(s: seq<Entry>, narrow: Entry -> bool, wide: Entry -> bool)
    requires forall i :: 0 <= i < |s| && narrow(s[i]) ==> wide(s[i])
    ensures CountEntries(s, narrow) <= CountEntries(s, wide)
    ensures CountEntries(s, narrow) == CountEntries(s, wide)
            <==> forall i :: 0 <= i < |s| && wide(s[i]) ==> narrow(s[i])
  {
    if |s| > 0 {
      var p := s[..|s| - 1];
      assert forall i :: 0 <= i < |p| ==> p[i] == s[i];
      CountEntriesMono(p, narrow, wide);
      if CountEntries(s, narrow) == CountEntries(s, wide) {
        assert CountEntries(p, narrow) == CountEntries(p, wide);
      }
    }
  }

  /** A filter that no row passes counts nothing. */
  lemma {:induction false} CountEntriesNone(s: seq<Entry>, keep: Entry -> bool)
    requires forall i :: 0 <= i < |s| ==> !keep(s[i])
    ensures CountEntries(s, keep) == 0
  {
    if |s| > 0 {
      var p := s[..|s| - 1];
      assert forall i :: 0 <= i < |p| ==> p[i] == s[i];
      CountEntriesNone(p, keep);
    }
  }

  /** Two filters that agree on every joined pair count alike. */
  lemma {:induction false} CountEvalsAgree(evals: seq<Evaluation>, evals2: seq<Evaluation>, entries: seq<Entry>,
                                           keep: (Evaluation, Entry) -> bool, keep2: (Evaluation, Entry) -> bool)
    requires |evals2| == |evals|
    requires forall i :: 0 <= i < |evals| ==> evals2[i].entryId == evals[i].entryId
    requires forall i, en :: 0 <= i < |evals| && en in entries ==> keep(evals[i], en) == keep2(evals2[i], en)
    ensures CountEvals(evals, entries, keep) == CountEvals(evals2, entries, keep2)
  {
    if |evals| > 0 {
      var n := |evals| - 1;
      var p, p2 := evals[..n], evals2[..n];
      assert forall i :: 0 <= i < n ==> p[i] == evals[i] && p2[i] == evals2[i];
      CountEvalsAgree(p, p2, entries, keep, keep2);
    }
  }
}

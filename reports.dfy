/**
 * The judging-progress reports of internal/models/reports.go: a count of
 * completed work and a total of expected work per user, per group, per
 * contest's entries and per contest's evaluations.
 */
module Reports {
  import opened Common
  import opened EntryTable
  import opened JudgingTables

  /** An entry that is judged at all: in the contest, neither flagged nor disqualified. */
  predicate Eligible(e: Entry, c: int) {
    e.contestId == c && !e.flagged && !e.disqualified
  }

  /** SQL `a = b` on nullable integers: it holds only when both sides are non-NULL and equal. */
  predicate SqlEq(a: Option<int>, b: Option<int>) {
    a.Some? && b.Some? && a.value == b.value
  }

  /** `(SELECT group_id FROM evaluator WHERE evaluator_id = $2)`: NULL without such a row. */
  function EvaluatorGroup(evaluators: seq<Evaluator>, id: int): (g: Option<int>)
    ensures g.Some? ==> exists i :: 0 <= i < |evaluators| && evaluators[i].id == id && evaluators[i].group == g
  {
    if |evaluators| == 0 then None
    else if evaluators[0].id == id then evaluators[0].group
    else
      var g := EvaluatorGroup(evaluators[1..], id);
      assert g.Some? ==> exists i :: 0 <= i < |evaluators| - 1 && evaluators[1..][i].id == id && evaluators[1..][i].group == g;
      g
  }

  /** GetUserProgressByContestId. */
  function UserProgress(entries: seq<Entry>, evals: seq<Evaluation>, evaluators: seq<Evaluator>,
                        userId: int, c: int): Progress
  {
    var group := EvaluatorGroup(evaluators, userId);
    Progress(
      CountEvals(evals, entries, (ev: Evaluation, en: Entry) => en.contestId == c && ev.evaluatorId == userId && ev.complete),
      CountEntries(entries, (en: Entry) => en.contestId == c && SqlEq(en.group, group) && !en.flagged && !en.disqualified))
  }

  /** The eligible entries of a group in a contest. */
  function GroupEntryCount(entries: seq<Entry>, groupId: int, c: int): nat {
    CountEntries(entries, (en: Entry) => Eligible(en, c) && en.group == Some(groupId))
  }

  /** The unlocked evaluators of a group allowed to judge (an INNER JOIN on evaluator_permissions). */
  function GroupEvaluatorCount(evaluators: seq<Evaluator>, groupId: int): nat {
    if |evaluators| == 0 then 0
    else
      var e := evaluators[|evaluators| - 1];
      GroupEvaluatorCount(evaluators[..|evaluators| - 1], groupId)
      + (if e.group == Some(groupId) && !e.accountLocked && e.judgeEntries == Some(true) then 1 else 0)
  }

  /** GetGroupProgressByContestId. */
  function GroupProgress(entries: seq<Entry>, evals: seq<Evaluation>, evaluators: seq<Evaluator>,
                         groupId: int, c: int): Progress
  {
    Progress(
      CountEvals(evals, entries, (ev: Evaluation, en: Entry) => en.group == Some(groupId) && Eligible(en, c) && ev.complete),
      GroupEntryCount(entries, groupId, c) * GroupEvaluatorCount(evaluators, groupId))
  }

  /** Whether some completed evaluation exists for the entry (the EXISTS subquery). */
  predicate HasCompletedEvaluation(evals: seq<Evaluation>, entryId: int) {
    exists i :: 0 <= i < |evals| && evals[i].entryId == entryId && evals[i].complete
  }

  /** GetEntryProgressByContestId. */
  function EntryProgress(entries: seq<Entry>, evals: seq<Evaluation>, c: int): Progress {
    Progress(
      CountEntries(entries, (en: Entry) => Eligible(en, c) && HasCompletedEvaluation(evals, en.id)),
      CountEntries(entries, (en: Entry) => Eligible(en, c)))
  }

  /** The count half of GetEvaluationProgressByContestId. */
  function EvaluationCount(entries: seq<Entry>, evals: seq<Evaluation>, c: int): nat {
    CountEvals(evals, entries, (ev: Evaluation, en: Entry) => Eligible(en, c) && ev.complete)
  }

  /**
   * Entry progress never exceeds its total, and reaches it exactly when every
   * eligible entry of the contest has a completed evaluation.
   */
  lemma EntryProgressBounded(entries: seq<Entry>, evals: seq<Evaluation>, c: int)
    ensures EntryProgress(entries, evals, c).count <= EntryProgress(entries, evals, c).total
    ensures EntryProgress(entries, evals, c).count == EntryProgress(entries, evals, c).total
            <==> forall i :: 0 <= i < |entries| && Eligible(entries[i], c) ==> HasCompletedEvaluation(evals, entries[i].id)
  {
    CountEntriesMono(entries, (en: Entry) => Eligible(en, c) && HasCompletedEvaluation(evals, en.id),
                     (en: Entry) => Eligible(en, c));
  }

  /** A user who is in no group (or has no evaluator row) expects nothing: `= NULL` never holds. */
  lemma UserWithoutGroupExpectsNothing(entries: seq<Entry>, evals: seq<Evaluation>, evaluators: seq<Evaluator>,
                                       userId: int, c: int)
    requires EvaluatorGroup(evaluators, userId).None?
    ensures UserProgress(entries, evals, evaluators, userId, c).total == 0
  {
    var group := EvaluatorGroup(evaluators, userId);
    CountEntriesNone(entries, (en: Entry) => en.contestId == c && SqlEq(en.group, group) && !en.flagged && !en.disqualified);
  }

  /** The user's total counts exactly the eligible entries of the user's group. */
  lemma UserTotalIsGroupEntries(entries: seq<Entry>, evals: seq<Evaluation>, evaluators: seq<Evaluator>,
                                userId: int, c: int)
    requires EvaluatorGroup(evaluators, userId).Some?
    ensures UserProgress(entries, evals, evaluators, userId, c).total
            == GroupEntryCount(entries, EvaluatorGroup(evaluators, userId).value, c)
  {
    var group := EvaluatorGroup(evaluators, userId);
    CountEntriesMono(entries, (en: Entry) => en.contestId == c && SqlEq(en.group, group) && !en.flagged && !en.disqualified,
                     (en: Entry) => Eligible(en, c) && en.group == Some(group.value));
  }

  /**
   * The user's count is not bounded by the total: it includes completed
   * evaluations of flagged entries, which the total leaves out.
   */
  lemma UserCountMayExceedTotal()
    ensures var en := Entry(1, 7, "", "", "", "", None, 0, "", None, false, 0, Some(3), true, None, false, false);
            var ev := Evaluation(1, 1, 5, 0, 0, 0, 0, "", "", true);
            var p := UserProgress([en], [ev], [Evaluator(5, Some(3), false, Some(true))], 5, 7);
            p.count == 1 && p.total == 0
  {
    var en := Entry(1, 7, "", "", "", "", None, 0, "", None, false, 0, Some(3), true, None, false, false);
    var ev := Evaluation(1, 1, 5, 0, 0, 0, 0, "", "", true);
    assert [en][..0] == [] && [ev][..0] == [];
    assert EntryById([en], 1) == Some(en);
  }

  /** A group expects nothing exactly when it has no eligible entry or no active judge. */
  lemma GroupTotalZero(entries: seq<Entry>, evals: seq<Evaluation>, evaluators: seq<Evaluator>, groupId: int, c: int)
    ensures GroupProgress(entries, evals, evaluators, groupId, c).total == 0
            <==> GroupEntryCount(entries, groupId, c) == 0 || GroupEvaluatorCount(evaluators, groupId) == 0
  {
    var a, b := GroupEntryCount(entries, groupId, c), GroupEvaluatorCount(evaluators, groupId);
    assert GroupProgress(entries, evals, evaluators, groupId, c).total == a * b;
    ProductZero(a, b);
  }

  /** A product of counts is zero exactly when a factor is. */
  lemma ProductZero(a: nat, b: nat)
    ensures a * b == 0 <==> a == 0 || b == 0
  {
    if a != 0 && b != 0 {
      assert a * b >= b by { assert a * b == (a - 1) * b + b; }
    }
  }

  /**
   * The group's count counts completed evaluations whoever wrote them:
   * handing the evaluations to other evaluators leaves it unchanged.
   */
  lemma GroupCountIgnoresEvaluator(entries: seq<Entry>, evals: seq<Evaluation>, evals2: seq<Evaluation>,
                                   evaluators: seq<Evaluator>, groupId: int, c: int)
    requires |evals2| == |evals|
    requires forall i :: 0 <= i < |evals| ==> evals2[i] == evals[i].(evaluatorId := evals2[i].evaluatorId)
    ensures GroupProgress(entries, evals2, evaluators, groupId, c).count
            == GroupProgress(entries, evals, evaluators, groupId, c).count
  {
    var keep := (ev: Evaluation, en: Entry) => en.group == Some(groupId) && Eligible(en, c) && ev.complete;
    CountEvalsAgree(evals2, evals, entries, keep, keep);
  }

  /** A row of a `GROUP BY ... ORDER BY` count query, whose group id may be NULL. */
  datatype GroupRow = GroupRow(id: Option<int>, count: int)

  /** The {id, count} struct a row is scanned into. */
  datatype GroupCount = GroupCount(id: int, count: int)

  /**
   * rows.Scan into two ints: a NULL id makes the scan fail on its first
   * column, the error is ignored, and the struct keeps its zero values.
   */
  function ScannedRow(r: GroupRow): GroupCount {
    match r.id
    case Some(id) => GroupCount(id, r.count)
    case None => GroupCount(0, 0)
  }

  /** The append loops that read each count query into a list. */
  method ScanGroupCounts(rows: seq<GroupRow>) returns (list: seq<GroupCount>)
    ensures |list| == |rows|
    ensures forall i :: 0 <= i < |rows| ==> list[i] == ScannedRow(rows[i])
  {
    list := [];
    for i := 0 to |rows|
      invariant |list| == i
      invariant forall j :: 0 <= j < i ==> list[j] == ScannedRow(rows[j])
    {
      list := list + [ScannedRow(rows[i])];
    }
  }

  /** f summed over a list. */
  function SumOf(xs: seq<GroupCount>, f: GroupCount -> int): int {
    if |xs| == 0 then 0 else SumOf(xs[..|xs| - 1], f) + f(xs[|xs| - 1])
  }

  function PairProduct(x: GroupCount, y: GroupCount): int {
    if x.id == y.id then x.count * y.count else 0
  }

  /** What the inner loop adds for one entry-group row. */
  function RowTotal(x: GroupCount, ys: seq<GroupCount>): int {
    SumOf(ys, (y: GroupCount) => PairProduct(x, y))
  }

  /** The expected number of evaluations: entryCount x evaluatorCount summed over every pair of rows with equal ids. */
  function JoinTotal(xs: seq<GroupCount>, ys: seq<GroupCount>): int {
    SumOf(xs, (x: GroupCount) => RowTotal(x, ys))
  }

  /** The nested loop of GetEvaluationProgressByContestId. */
  method EvaluationTotal(groupEntries: seq<GroupCount>, groupEvaluators: seq<GroupCount>) returns (total: int)
    ensures total == JoinTotal(groupEntries, groupEvaluators)
  {
    total := 0;
    for i := 0 to |groupEntries|
      invariant total == JoinTotal(groupEntries[..i], groupEvaluators)
    {
      var en := groupEntries[i];
      ghost var before := total;
      for j := 0 to |groupEvaluators|
        invariant total == before + RowTotal(en, groupEvaluators[..j])
      {
        var ev := groupEvaluators[j];
        assert groupEvaluators[..j + 1][..j] == groupEvaluators[..j];
        if en.id == ev.id {
          total := total + en.count * ev.count;
        }
      }
      assert groupEvaluators[..|groupEvaluators|] == groupEvaluators;
      assert groupEntries[..i + 1][..i] == groupEntries[..i];
    }
    assert groupEntries[..|groupEntries|] == groupEntries;
  }

  /**
   * GetEvaluationProgressByContestId: the completed evaluations of the
   * contest against the expected number. `entryRows` and `evaluatorRows`
   * are what the two GROUP BY queries return over the tables.
   */
  method EvaluationProgress(entries: seq<Entry>, evals: seq<Evaluation>, evaluators: seq<Evaluator>, c: int,
                            entryRows: seq<GroupRow>, evaluatorRows: seq<GroupRow>) returns (p: Progress)
    requires EntryGroupRows(entryRows, entries, c) && EvaluatorGroupRows(evaluatorRows, evaluators)
    ensures p.count == EvaluationCount(entries, evals, c)
    ensures p.total == GroupSum(entryRows, entries, evaluators, c)
  {
    var groupEntries := ScanGroupCounts(entryRows);
    var groupEvaluators := ScanGroupCounts(evaluatorRows);
    var total := EvaluationTotal(groupEntries, groupEvaluators);
    JoinTotalIsGroupSum(entryRows, evaluatorRows, groupEntries, groupEvaluators, entries, evaluators, c);
    p := Progress(EvaluationCount(entries, evals, c), total);
  }

  lemma {:induction false} SumOfAppend(a: seq<GroupCount>, b: seq<GroupCount>, f: GroupCount -> int)
    ensures SumOf(a + b, f) == SumOf(a, f) + SumOf(b, f)
  {
    if |b| > 0 {
      var b' := b[..|b| - 1];
      assert (a + b)[..|a + b| - 1] == a + b';
      SumOfAppend(a, b', f);
    } else {
      assert a + b == a;
    }
  }

  /** A sum does not depend on the order of the list. */
  lemma {:induction false} SumOfPermutation(xs: seq<GroupCount>, ys: seq<GroupCount>, f: GroupCount -> int)
    requires multiset(xs) == multiset(ys)
    ensures SumOf(xs, f) == SumOf(ys, f)
  {
    if |xs| > 0 {
      var n := |xs| - 1;
      var x := xs[n];
      assert x in multiset(ys);
      var i :| 0 <= i < |ys| && ys[i] == x;
      var rest := ys[..i] + ys[i + 1..];
      MultisetWithout(ys, i);
      assert xs == xs[..n] + [x];
      assert multiset(xs[..n]) == multiset(xs) - multiset{x};
      SumOfPermutation(xs[..n], rest, f);
      SumOfWithout(ys, i, f);
    }
  }

  /** Taking element i out of a list takes one copy of it out of the list's multiset. */
  lemma {:induction false} MultisetWithout(ys: seq<GroupCount>, i: nat)
    requires i < |ys|
    ensures multiset(ys[..i] + ys[i + 1..]) == multiset(ys) - multiset{ys[i]}
  {
    assert ys == ys[..i] + ([ys[i]] + ys[i + 1..]);
  }

  /** The sum of a list is the sum without element i, plus that element's term. */
  lemma {:induction false} SumOfWithout(ys: seq<GroupCount>, i: nat, f: GroupCount -> int)
    requires i < |ys|
    ensures SumOf(ys, f) == SumOf(ys[..i] + ys[i + 1..], f) + f(ys[i])
  {
    var front, x, back := ys[..i], ys[i], ys[i + 1..];
    assert ys == (front + [x]) + back;
    SumOfAppend(front + [x], back, f);
    SumOfAppend(front, [x], f);
    SumOfAppend(front, back, f);
    assert [x][..0] == [];
  }

  /** Sums of two functions that agree on the list are equal. */
  lemma {:induction false} SumOfPointwise(xs: seq<GroupCount>, f: GroupCount -> int, g: GroupCount -> int)
    requires forall i :: 0 <= i < |xs| ==> f(xs[i]) == g(xs[i])
    ensures SumOf(xs, f) == SumOf(xs, g)
  {
    if |xs| > 0 {
      var p := xs[..|xs| - 1];
      assert forall i :: 0 <= i < |p| ==> p[i] == xs[i];
      SumOfPointwise(p, f, g);
    }
  }

  /** The expected number of evaluations does not depend on the order in which either query returns its groups. */
  lemma JoinTotalOrderFree(xs: seq<GroupCount>, xs2: seq<GroupCount>, ys: seq<GroupCount>, ys2: seq<GroupCount>)
    requires multiset(xs) == multiset(xs2) && multiset(ys) == multiset(ys2)
    ensures JoinTotal(xs, ys) == JoinTotal(xs2, ys2)
  {
    SumOfPermutation(xs, xs2, (x: GroupCount) => RowTotal(x, ys));
    forall i | 0 <= i < |xs2|
      ensures RowTotal(xs2[i], ys) == RowTotal(xs2[i], ys2)
    {
      SumOfPermutation(ys, ys2, (y: GroupCount) => PairProduct(xs2[i], y));
    }
    SumOfPointwise(xs2, (x: GroupCount) => RowTotal(x, ys), (x: GroupCount) => RowTotal(x, ys2));
  }

  lemma {:induction false} SumOfNonNegative(xs: seq<GroupCount>, f: GroupCount -> int)
    requires forall i :: 0 <= i < |xs| ==> f(xs[i]) >= 0
    ensures SumOf(xs, f) >= 0
  {
    if |xs| > 0 {
      var p := xs[..|xs| - 1];
      assert forall i :: 0 <= i < |p| ==> p[i] == xs[i];
      SumOfNonNegative(p, f);
    }
  }

  /** With non-negative counts the expected number of evaluations is non-negative. */
  lemma JoinTotalNonNegative(xs: seq<GroupCount>, ys: seq<GroupCount>)
    requires forall i :: 0 <= i < |xs| ==> xs[i].count >= 0
    requires forall j :: 0 <= j < |ys| ==> ys[j].count >= 0
    ensures JoinTotal(xs, ys) >= 0
  {
    forall i | 0 <= i < |xs|
      ensures RowTotal(xs[i], ys) >= 0
    {
      SumOfNonNegative(ys, (y: GroupCount) => PairProduct(xs[i], y));
    }
    SumOfNonNegative(xs, (x: GroupCount) => RowTotal(x, ys));
  }

  lemma {:induction false} SumOfZero(xs: seq<GroupCount>, f: GroupCount -> int)
    requires forall i :: 0 <= i < |xs| ==> f(xs[i]) == 0
    ensures SumOf(xs, f) == 0
  {
    if |xs| > 0 {
      var p := xs[..|xs| - 1];
      assert forall i :: 0 <= i < |p| ==> p[i] == xs[i];
      SumOfZero(p, f);
    }
  }

  /** A group with entries but no evaluators (or the other way round) adds nothing. */
  lemma UnmatchedGroupAddsNothing(x: GroupCount, ys: seq<GroupCount>)
    requires forall j :: 0 <= j < |ys| ==> ys[j].id != x.id
    ensures RowTotal(x, ys) == 0
  {
    SumOfZero(ys, (y: GroupCount) => PairProduct(x, y));
  }

  /** The NULL-group row of either query is scanned as {0, 0} and adds nothing. */
  lemma NullGroupRowAddsNothing(r: GroupRow, ys: seq<GroupCount>)
    requires r.id.None?
    ensures RowTotal(ScannedRow(r), ys) == 0
  {
    SumOfZero(ys, (y: GroupCount) => PairProduct(ScannedRow(r), y));
  }

  /**
   * An entry-group row adds its entry count times the count of the
   * evaluator row with its id, when every other evaluator row with that id
   * counts nothing (as with distinct group ids, or the NULL row read as
   * {0, 0}).
   */
  lemma {:induction false} MatchedGroupAddsProduct(x: GroupCount, ys: seq<GroupCount>, k: nat)
    requires k < |ys| && ys[k].id == x.id
    requires forall j :: 0 <= j < |ys| && j != k && ys[j].id == x.id ==> ys[j].count == 0
    ensures RowTotal(x, ys) == x.count * ys[k].count
  {
    var f := (y: GroupCount) => PairProduct(x, y);
    var n := |ys| - 1;
    var p := ys[..n];
    assert ys == p + [ys[n]];
    assert forall i :: 0 <= i < |p| ==> p[i] == ys[i];
    if k == n {
      SumOfZero(p, f);
    } else {
      MatchedGroupAddsProduct(x, p, k);
    }
  }

  // ------------------------------------------------------------ the GROUP BY rows

  /** An evaluator the evaluator-count query keeps: unlocked, with judge_entries set. */
  predicate Judging(e: Evaluator) {
    !e.accountLocked && e.judgeEntries == Some(true)
  }

  /**
   * The rows of `SELECT assigned_group_id, COUNT(*) FROM entry WHERE
   * <eligible> GROUP BY assigned_group_id`: one row per group value, a row
   * for the group of every eligible entry, and each group's row holding
   * its eligible-entry count. The NULL row's count is read as 0 whatever
   * it is, so it is left free.
   */
  predicate EntryGroupRows(rows: seq<GroupRow>, entries: seq<Entry>, c: int) {
    (forall i, j :: 0 <= i < j < |rows| ==> rows[i].id != rows[j].id)
    && (forall i :: 0 <= i < |rows| && rows[i].id.Some? ==> rows[i].count == GroupEntryCount(entries, rows[i].id.value, c))
    && (forall k :: 0 <= k < |entries| && Eligible(entries[k], c) ==>
          exists i :: 0 <= i < |rows| && rows[i].id == entries[k].group)
  }

  /**
   * The rows of `SELECT e.group_id, COUNT(*) FROM evaluator e INNER JOIN
   * evaluator_permissions p ... GROUP BY group_id`: one row per group
   * value, a row for the group of every judging evaluator, each group's
   * row holding its judging-evaluator count.
   */
  predicate EvaluatorGroupRows(rows: seq<GroupRow>, evaluators: seq<Evaluator>) {
    (forall i, j :: 0 <= i < j < |rows| ==> rows[i].id != rows[j].id)
    && (forall i :: 0 <= i < |rows| && rows[i].id.Some? ==> rows[i].count == GroupEvaluatorCount(evaluators, rows[i].id.value))
    && (forall k :: 0 <= k < |evaluators| && Judging(evaluators[k]) ==>
          exists i :: 0 <= i < |rows| && rows[i].id == evaluators[k].group)
  }

  /** The group-progress total of a row's group (GroupProgress(...).total), and 0 for the NULL row. */
  function RowTerm(r: GroupRow, entries: seq<Entry>, evaluators: seq<Evaluator>, c: int): int {
    match r.id
    case None => 0
    case Some(g) => GroupEntryCount(entries, g, c) * GroupEvaluatorCount(evaluators, g)
  }

  /** The group-progress totals of the rows' groups, summed. */
  function GroupSum(rows: seq<GroupRow>, entries: seq<Entry>, evaluators: seq<Evaluator>, c: int): int {
    if |rows| == 0 then 0
    else GroupSum(rows[..|rows| - 1], entries, evaluators, c) + RowTerm(rows[|rows| - 1], entries, evaluators, c)
  }

  /** A group without a judging evaluator counts none. */
  lemma {:induction false} NoJudgeCountsZero(evaluators: seq<Evaluator>, g: int)
    requires forall k :: 0 <= k < |evaluators| && Judging(evaluators[k]) ==> evaluators[k].group != Some(g)
    ensures GroupEvaluatorCount(evaluators, g) == 0
  {
    if |evaluators| > 0 {
      var p := evaluators[..|evaluators| - 1];
      assert forall k :: 0 <= k < |p| ==> p[k] == evaluators[k];
      NoJudgeCountsZero(p, g);
    }
  }

  /** Over the evaluator GROUP BY rows, an entry-group row adds its group's progress total. */
  lemma RowTotalIsTerm(r: GroupRow, entries: seq<Entry>, evaluators: seq<Evaluator>, c: int,
                       evaluatorRows: seq<GroupRow>, ys: seq<GroupCount>)
    requires r.id.Some? ==> r.count == GroupEntryCount(entries, r.id.value, c)
    requires EvaluatorGroupRows(evaluatorRows, evaluators)
    requires |ys| == |evaluatorRows| && forall j :: 0 <= j < |ys| ==> ys[j] == ScannedRow(evaluatorRows[j])
    ensures RowTotal(ScannedRow(r), ys) == RowTerm(r, entries, evaluators, c)
  {
    if r.id.None? {
      NullGroupRowAddsNothing(r, ys);
    } else {
      var g := r.id.value;
      var x := ScannedRow(r);
      if k :| 0 <= k < |evaluatorRows| && evaluatorRows[k].id == Some(g) {
        assert forall j :: 0 <= j < |ys| && j != k && ys[j].id == x.id ==> evaluatorRows[j].id.None?;
        MatchedGroupAddsProduct(x, ys, k);
      } else {
        NoJudgeCountsZero(evaluators, g);
        var f := (y: GroupCount) => PairProduct(x, y);
        assert forall j :: 0 <= j < |ys| ==> ys[j].id != g || ys[j].count == 0;
        SumOfZero(ys, f);
      }
    }
  }

  /** Summed row by row, the join total is the sum of the entry rows' group-progress totals. */
  lemma {:induction false} JoinTotalByRow(rows: seq<GroupRow>, xs: seq<GroupCount>, ys: seq<GroupCount>,
                                          entries: seq<Entry>, evaluators: seq<Evaluator>, c: int)
    requires |xs| == |rows| && forall i :: 0 <= i < |xs| ==> xs[i] == ScannedRow(rows[i])
    requires forall i :: 0 <= i < |rows| ==> RowTotal(xs[i], ys) == RowTerm(rows[i], entries, evaluators, c)
    ensures JoinTotal(xs, ys) == GroupSum(rows, entries, evaluators, c)
  {
    if |rows| > 0 {
      var n := |rows| - 1;
      assert forall i :: 0 <= i < n ==> xs[..n][i] == xs[i] && rows[..n][i] == rows[i];
      JoinTotalByRow(rows[..n], xs[..n], ys, entries, evaluators, c);
    }
  }

  /**
   * Over the GROUP BY rows of the two tables, the expected number of
   * evaluations is the sum, over the groups that have eligible entries, of
   * each group's eligible entries times its judging evaluators.
   */
  lemma JoinTotalIsGroupSum(entryRows: seq<GroupRow>, evaluatorRows: seq<GroupRow>, xs: seq<GroupCount>,
                            ys: seq<GroupCount>, entries: seq<Entry>, evaluators: seq<Evaluator>, c: int)
    requires EntryGroupRows(entryRows, entries, c) && EvaluatorGroupRows(evaluatorRows, evaluators)
    requires |xs| == |entryRows| && forall i :: 0 <= i < |xs| ==> xs[i] == ScannedRow(entryRows[i])
    requires |ys| == |evaluatorRows| && forall j :: 0 <= j < |ys| ==> ys[j] == ScannedRow(evaluatorRows[j])
    ensures JoinTotal(xs, ys) == GroupSum(entryRows, entries, evaluators, c)
  {
    forall i | 0 <= i < |entryRows|
      ensures RowTotal(xs[i], ys) == RowTerm(entryRows[i], entries, evaluators, c)
    {
      RowTotalIsTerm(entryRows[i], entries, evaluators, c, evaluatorRows, ys);
    }
    JoinTotalByRow(entryRows, xs, ys, entries, evaluators, c);
  }
}

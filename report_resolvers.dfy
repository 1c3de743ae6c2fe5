/**
 * The judgingProgress and entryCounts resolvers of
 * graph/resolvers/reports.resolvers.go: placeholder values for anonymous
 * callers, the ViewAdminStats gate, and delegation to the reports.
 */
module ReportResolvers {
  import opened Common
  import opened Auth
  import opened EntryTable
  import opened JudgingTables
  import opened Reports

  /** What the resolvers read: the tables and the newest contest (None when no contest exists yet). */
  datatype Db = Db(entries: seq<Entry>, evals: seq<Evaluation>, evaluators: seq<Evaluator>, currentContest: Option<int>)

  /** GetCurrentContest: the newest contest, NotFound when none has been created. */
  function CurrentContest(db: Db): (r: Result<int>)
    ensures r.Ok? <==> db.currentContest.Some?
    ensures r.Err? ==> r.error == NotFound
    ensures r.Ok? ==> r.value == db.currentContest.value
  {
    match db.currentContest
    case Some(c) => Ok(c)
    case None => Err(NotFound)
  }

  predicate HasEvaluatorRow(evaluators: seq<Evaluator>, id: int) {
    exists i :: 0 <= i < |evaluators| && evaluators[i].id == id
  }

  /** GetUserGroupById: NotFound without an evaluator row, otherwise the (nullable) group. */
  function UserGroupLookup(evaluators: seq<Evaluator>, id: int): (r: Result<Option<int>>)
    ensures r.Err? <==> !HasEvaluatorRow(evaluators, id)
    ensures r.Err? ==> r.error == NotFound
    ensures r.Ok? ==> r.value == EvaluatorGroup(evaluators, id)
  {
    if HasEvaluatorRow(evaluators, id) then Ok(EvaluatorGroup(evaluators, id)) else Err(NotFound)
  }

  /** judgingProgress.user: a fixed {10, 50} for anonymous callers, otherwise the caller's progress in the newest contest. */
  function JudgingUser(user: Option<User>, db: Db): (r: Result<Progress>)
    ensures user.None? ==> r == Ok(Progress(10, 50))
    ensures user.Some? ==> (r.Ok? <==> db.currentContest.Some?)
    ensures user.Some? && r.Ok? ==>
              r.value == UserProgress(db.entries, db.evals, db.evaluators, user.value.id, db.currentContest.value)
  {
    if user.None? then Ok(Progress(10, 50))
    else
      match CurrentContest(db)
      case Err(e) => Err(e)
      case Ok(c) => Ok(UserProgress(db.entries, db.evals, db.evaluators, user.value.id, c))
  }

  /**
   * judgingProgress.group: a fixed {80, 150} for anonymous callers, {0, 0}
   * for a caller in no group, otherwise the progress of the caller's group.
   */
  function JudgingGroup(user: Option<User>, db: Db): (r: Result<Progress>)
    ensures user.None? ==> r == Ok(Progress(80, 150))
    ensures user.Some? && !HasEvaluatorRow(db.evaluators, user.value.id) ==> r == Err(NotFound)
    ensures (user.Some? && HasEvaluatorRow(db.evaluators, user.value.id)
             && EvaluatorGroup(db.evaluators, user.value.id).None?) ==> r == Ok(Progress(0, 0))
    ensures user.Some? && EvaluatorGroup(db.evaluators, user.value.id).Some? ==>
              (r.Ok? <==> db.currentContest.Some?)
              && (r.Ok? ==> r.value == GroupProgress(db.entries, db.evals, db.evaluators,
                                                     EvaluatorGroup(db.evaluators, user.value.id).value,
                                                     db.currentContest.value))
  {
    if user.None? then Ok(Progress(80, 150))
    else
      match UserGroupLookup(db.evaluators, user.value.id)
      case Err(e) => Err(e)
      case Ok(None) => Ok(Progress(0, 0))
      case Ok(Some(g)) =>
        match CurrentContest(db)
        case Err(e) => Err(e)
        case Ok(c) => Ok(GroupProgress(db.entries, db.evals, db.evaluators, g, c))
  }

  /**
   * The ViewAdminStats gate of judgingProgress.entries, .evaluations and
   * .evaluators: nil without the permission, then the newest contest, then
   * the report (given as the report's own result).
   */
  function AdminStatsGate<T>(user: Option<User>, db: Db, report: Result<T>): (r: Result<Option<T>>)
    ensures !HasPermission(user, ViewAdminStats) ==> r == Ok(None)
    ensures HasPermission(user, ViewAdminStats) && db.currentContest.None? ==> r == Err(NotFound)
    ensures HasPermission(user, ViewAdminStats) && db.currentContest.Some? ==>
              match report
              case Ok(v) => r == Ok(Some(v))
              case Err(e) => r == Err(e)
  {
    if !HasPermission(user, ViewAdminStats) then Ok(None)
    else
      match CurrentContest(db)
      case Err(e) => Err(e)
      case Ok(_) =>
        match report
        case Ok(v) => Ok(Some(v))
        case Err(e) => Err(e)
  }

  /** judgingProgress.entries. */
  function JudgingEntries(user: Option<User>, db: Db): (r: Result<Option<Progress>>)
    ensures !HasPermission(user, ViewAdminStats) ==> r == Ok(None)
    ensures HasPermission(user, ViewAdminStats) && db.currentContest.None? ==> r == Err(NotFound)
    ensures HasPermission(user, ViewAdminStats) && db.currentContest.Some? ==>
              r == Ok(Some(EntryProgress(db.entries, db.evals, db.currentContest.value)))
  {
    AdminStatsGate(user, db, Ok(EntryProgress(db.entries, db.evals, db.currentContest.GetOr(0))))
  }

  /** Query.entryCounts: an empty object for callers with ViewAdminStats, nil for everyone else. */
  function EntryCountsQuery(user: Option<User>): (r: Option<()>)
    ensures r.Some? <==> HasPermission(user, ViewAdminStats)
  {
    if HasPermission(user, ViewAdminStats) then Some(()) else None
  }

  /** entryCounts.flagged, .disqualified and .total: 0 without ViewAdminStats, else the count query's result. */
  function EntryCountField(user: Option<User>, db: Db, count: Result<int>): (r: Result<int>)
    ensures !HasPermission(user, ViewAdminStats) ==> r == Ok(0)
    ensures HasPermission(user, ViewAdminStats) ==>
              r == if db.currentContest.None? then Err(NotFound) else count
  {
    if !HasPermission(user, ViewAdminStats) then Ok(0)
    else
      match CurrentContest(db)
      case Err(e) => Err(e)
      case Ok(_) => count
  }

  /**
   * A signed-in evaluator whose group is NULL sees {0, 0} for the group and
   * a zero total for themself, whatever the tables hold.
   */
  lemma SignedInWithoutGroup(user: User, db: Db)
    requires HasEvaluatorRow(db.evaluators, user.id) && EvaluatorGroup(db.evaluators, user.id).None?
    requires db.currentContest.Some?
    ensures JudgingGroup(Some(user), db) == Ok(Progress(0, 0))
    ensures JudgingUser(Some(user), db).Ok? && JudgingUser(Some(user), db).value.total == 0
  {
    UserWithoutGroupExpectsNothing(db.entries, db.evals, db.evaluators, user.id, db.currentContest.value);
  }
}

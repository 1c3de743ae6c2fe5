/**
 * The entry resolvers of graph/resolvers/entries.resolvers.go: which gated
 * fields of an entry a caller sees, the permission gates in front of the
 * entry updates, EditEntry's field overrides, entry votes, the two "next
 * entry" queries and the kaid an imported entry gets from its URL.
 */
module EntryResolvers {
  import opened Common
  import opened Auth
  import opened EntryTable

  /** A contestant as the Author field returns it. */
  datatype Contestant = Contestant(kaid: string, name: string)

  /** Query.Entry / GetEntryById: the row with the id, NotFound without one. */
  function GetEntry(s: seq<Entry>, id: int): (r: Result<Entry>)
    ensures r.Ok? <==> exists i :: 0 <= i < |s| && s[i].id == id
    ensures r.Err? ==> r.error == NotFound
    ensures r.Ok? ==> r.value in s && r.value.id == id
  {
    match EntryById(s, id)
    case Some(e) => Ok(e)
    case None => Err(NotFound)
  }

  /** Looking a row up after an UPDATE of that row finds the old row with the change applied. */
  lemma {:induction false} LookupAfterUpdate(s: seq<Entry>, id: int, c: Change)
    ensures EntryById(Updated(s, ById(id), c), id)
            == match EntryById(s, id)
               case Some(e) => Some(Apply(e, c))
               case None => None
  {
    if |s| > 0 && s[0].id != id {
      var t := Updated(s, ById(id), c);
      var u := Updated(s[1..], ById(id), c);
      assert forall j :: 0 <= j < |u| ==> t[1..][j] == u[j];
      assert t[1..] == u;
      LookupAfterUpdate(s[1..], id, c);
    }
  }

  // ---------------------------------------------------------------------
  // Entry fields
  // ---------------------------------------------------------------------

  /**
   * Entry.author: a placeholder contestant with an empty kaid and the name
   * "Unknown Author" when the entry has no author, otherwise the
   * contestant the lookup returns for the author's kaid.
   */
  function Author(e: Entry, contestant: string -> Result<Contestant>): (r: Result<Contestant>)
    ensures e.authorKaid.None? ==> r == Ok(Contestant("", "Unknown Author"))
    ensures e.authorKaid.Some? ==> r == contestant(e.authorKaid.value)
  {
    match e.authorKaid
    case None => Ok(Contestant("", "Unknown Author"))
    case Some(kaid) => contestant(kaid)
  }

  /** The gated fields of an entry as one caller sees them; None is a GraphQL null. */
  datatype EntryView = EntryView(
    skillLevel: Option<string>, group: Option<int>, isFlagged: Option<bool>,
    flagReason: Option<string>, isDisqualified: Option<bool>, isSkillLevelLocked: Option<bool>)

  /**
   * The SkillLevel, Group, IsFlagged, FlagReason, IsDisqualified and
   * IsSkillLevelLocked resolvers. The Group resolver then fetches the
   * judging group by id; the view keeps the id.
   */
  function View(user: Option<User>, e: Entry): EntryView {
    EntryView(
      if user.None? && !e.isWinner then None else e.level,
      if user.None? then None else e.group,
      if user.None? then None else Some(e.flagged),
      if !HasPermission(user, EditEntries) then None else e.flagReason,
      if user.None? then None else Some(e.disqualified),
      if !HasPermission(user, EditEntries) then None else Some(e.levelLocked))
  }

  /** An anonymous caller sees a skill level only on a winner, and none of the judging state. */
  lemma AnonymousView(e: Entry)
    ensures View(None, e).skillLevel == (if e.isWinner then e.level else None)
    ensures View(None, e).group.None? && View(None, e).isFlagged.None? && View(None, e).flagReason.None?
    ensures View(None, e).isDisqualified.None? && View(None, e).isSkillLevelLocked.None?
  {
  }

  /** A signed-in caller always sees the level, group, flag and disqualification as stored. */
  lemma SignedInView(u: User, e: Entry)
    ensures View(Some(u), e).skillLevel == e.level && View(Some(u), e).group == e.group
    ensures View(Some(u), e).isFlagged == Some(e.flagged) && View(Some(u), e).isDisqualified == Some(e.disqualified)
    ensures View(Some(u), e).flagReason == (if u.isAdmin || EditEntries in u.perms then e.flagReason else None)
    ensures View(Some(u), e).isSkillLevelLocked == (if u.isAdmin || EditEntries in u.perms then Some(e.levelLocked) else None)
  {
  }

  /** `v` shows no more than `w`: every field `v` shows, `w` shows with the same value. */
  predicate ShowsLess(v: EntryView, w: EntryView) {
    (v.skillLevel.Some? ==> w.skillLevel == v.skillLevel)
    && (v.group.Some? ==> w.group == v.group)
    && (v.isFlagged.Some? ==> w.isFlagged == v.isFlagged)
    && (v.flagReason.Some? ==> w.flagReason == v.flagReason)
    && (v.isDisqualified.Some? ==> w.isDisqualified == v.isDisqualified)
    && (v.isSkillLevelLocked.Some? ==> w.isSkillLevelLocked == v.isSkillLevelLocked)
  }

  /** Signing in, becoming admin or gaining permissions never hides a field. */
  lemma ViewMonotone(user: Option<User>, more: User, e: Entry)
    requires user.Some? ==> (user.value.isAdmin ==> more.isAdmin) && user.value.perms <= more.perms
    ensures ShowsLess(View(user, e), View(Some(more), e))
  {
  }

  // ---------------------------------------------------------------------
  // Gated updates
  // ---------------------------------------------------------------------

  /**
   * The common shape of FlagEntry, ApproveEntry, DisqualifyEntry and
   * SetEntryLevel: Forbidden before any write when the gate is shut,
   * otherwise the UPDATE followed by Query.Entry on the same id.
   */
  method GatedUpdate(a: array<Entry>, allowed: bool, id: int, c: Change) returns (r: Result<Entry>)
    modifies a
    ensures !allowed ==> r == Err(Forbidden) && a[..] == old(a[..])
    ensures allowed ==> a[..] == Updated(old(a[..]), ById(id), c)
    ensures allowed ==> r == match EntryById(old(a[..]), id)
                             case Some(e) => Ok(Apply(e, c))
                             case None => Err(NotFound)
  {
    if !allowed {
      return Err(Forbidden);
    }
    ghost var before := a[..];
    Update(a, ById(id), c);
    LookupAfterUpdate(before, id, c);
    r := GetEntry(a[..], id);
  }

  /** Mutation.flagEntry: needs JudgeEntries; returns the entry flagged with the reason. */
  method FlagEntry(a: array<Entry>, user: Option<User>, id: int, reason: string) returns (r: Result<Entry>)
    modifies a
    ensures !HasPermission(user, JudgeEntries) ==> r == Err(Forbidden) && a[..] == old(a[..])
    ensures HasPermission(user, JudgeEntries) ==> a[..] == Updated(old(a[..]), ById(id), Flag(reason))
    ensures HasPermission(user, JudgeEntries) && r.Ok? ==> r.value.flagged && r.value.flagReason == Some(reason)
    ensures HasPermission(user, JudgeEntries) ==> (r.Ok? <==> EntryById(old(a[..]), id).Some?)
  {
    r := GatedUpdate(a, HasPermission(user, JudgeEntries), id, Flag(reason));
  }

  /** Mutation.approveEntry: needs EditEntries; returns the entry neither flagged nor disqualified. */
  method ApproveEntry(a: array<Entry>, user: Option<User>, id: int) returns (r: Result<Entry>)
    modifies a
    ensures !HasPermission(user, EditEntries) ==> r == Err(Forbidden) && a[..] == old(a[..])
    ensures HasPermission(user, EditEntries) ==> a[..] == Updated(old(a[..]), ById(id), Approve)
    ensures HasPermission(user, EditEntries) && r.Ok? ==> !r.value.flagged && !r.value.disqualified
    ensures HasPermission(user, EditEntries) ==> (r.Ok? <==> EntryById(old(a[..]), id).Some?)
  {
    r := GatedUpdate(a, HasPermission(user, EditEntries), id, Approve);
  }

  /** Mutation.disqualifyEntry: needs EditEntries; returns the entry disqualified. */
  method DisqualifyEntry(a: array<Entry>, user: Option<User>, id: int) returns (r: Result<Entry>)
    modifies a
    ensures !HasPermission(user, EditEntries) ==> r == Err(Forbidden) && a[..] == old(a[..])
    ensures HasPermission(user, EditEntries) ==> a[..] == Updated(old(a[..]), ById(id), Disqualify)
    ensures HasPermission(user, EditEntries) && r.Ok? ==> r.value.disqualified
    ensures HasPermission(user, EditEntries) ==> (r.Ok? <==> EntryById(old(a[..]), id).Some?)
  {
    r := GatedUpdate(a, HasPermission(user, EditEntries), id, Disqualify);
  }

  /**
   * Mutation.setEntryLevel: only admins, whatever their permissions; the
   * entry comes back with the level set and locked.
   */
  method SetEntryLevel(a: array<Entry>, user: Option<User>, id: int, level: string) returns (r: Result<Entry>)
    modifies a
    ensures (user.None? || !user.value.isAdmin) ==> r == Err(Forbidden) && a[..] == old(a[..])
    ensures user.Some? && user.value.isAdmin ==> a[..] == Updated(old(a[..]), ById(id), SetLevel(level))
    ensures user.Some? && user.value.isAdmin && r.Ok? ==>
              r.value.level == Some(level) && r.value.levelLocked && !AwaitingReview(r.value)
    ensures user.Some? && user.value.isAdmin ==> (r.Ok? <==> EntryById(old(a[..]), id).Some?)
  {
    r := GatedUpdate(a, user.Some? && user.value.isAdmin, id, SetLevel(level));
  }

  // ---------------------------------------------------------------------
  // EditEntry
  // ---------------------------------------------------------------------

  /** What EditEntry decides before writing: refuse, crash, or write an input. */
  datatype EditOutcome = Refused(error: ErrorKind) | Crashed | Write(input: EditInput)

  /**
   * The input EditEntry writes: the stored group replaces the submitted one
   * unless the caller may assign groups, and the stored lock flag replaces
   * the submitted one unless the caller is an admin.
   */
  function Overridden(user: User, stored: Entry, input: EditInput): EditInput {
    input.(group := if HasPermission(Some(user), AssignEntryGroups) then input.group else stored.group,
           levelLocked := if user.isAdmin then input.levelLocked else stored.levelLocked)
  }

  /**
   * EditEntry as written: without AssignEntryGroups it reads the stored
   * group's id, which dereferences a nil group when the entry has none.
   */
  function EditEntryAsWritten(user: Option<User>, stored: Option<Entry>, input: EditInput): EditOutcome {
    if !HasPermission(user, EditEntries) then Refused(Forbidden)
    else match stored
      case None => Refused(NotFound)
      case Some(e) =>
        if !HasPermission(user, AssignEntryGroups) && e.group.None? then Crashed
        else Write(Overridden(user.value, e, input))
  }

  /** EditEntry with the group override made nil-safe: a NULL stored group stays NULL. */
  function EditEntryDecision(user: Option<User>, stored: Option<Entry>, input: EditInput): (r: EditOutcome)
    ensures !r.Crashed?
  {
    if !HasPermission(user, EditEntries) then Refused(Forbidden)
    else match stored
      case None => Refused(NotFound)
      case Some(e) => Write(Overridden(user.value, e, input))
  }

  /** EditEntry refuses exactly callers without EditEntries (Forbidden, checked first) and missing entries (NotFound). */
  lemma EditEntryRefusals(user: Option<User>, stored: Option<Entry>, input: EditInput)
    ensures EditEntryDecision(user, stored, input).Refused?
            <==> !HasPermission(user, EditEntries) || stored.None?
    ensures !HasPermission(user, EditEntries) ==> EditEntryDecision(user, stored, input) == Refused(Forbidden)
    ensures HasPermission(user, EditEntries) && stored.None? ==> EditEntryDecision(user, stored, input) == Refused(NotFound)
  {
  }

  /**
   * What EditEntry writes: the editable columns from the input; the group
   * only with AssignEntryGroups and the lock only for admins, the stored
   * values otherwise.
   */
  lemma EditEntryOverrides(user: User, stored: Entry, input: EditInput)
    requires HasPermission(Some(user), EditEntries)
    ensures var r := EditEntryDecision(Some(user), Some(stored), input);
            r.Write?
            && r.input.title == input.title && r.input.level == input.level && r.input.height == input.height
            && r.input.flagged == input.flagged && r.input.disqualified == input.disqualified
            && (user.isAdmin || AssignEntryGroups in user.perms ==> r.input.group == input.group)
            && (!user.isAdmin && AssignEntryGroups !in user.perms ==> r.input.group == stored.group)
            && (user.isAdmin ==> r.input.levelLocked == input.levelLocked)
            && (!user.isAdmin ==> r.input.levelLocked == stored.levelLocked)
  {
  }

  /** The corrected decision differs from the code as written only where the code crashes. */
  lemma EditEntryCorrectionAgrees(user: Option<User>, stored: Option<Entry>, input: EditInput)
    ensures !EditEntryAsWritten(user, stored, input).Crashed? ==>
              EditEntryAsWritten(user, stored, input) == EditEntryDecision(user, stored, input)
    ensures EditEntryAsWritten(user, stored, input).Crashed? <==>
              HasPermission(user, EditEntries) && !HasPermission(user, AssignEntryGroups)
              && stored.Some? && stored.value.group.None?
  {
  }

  /** An editor who may not assign groups crashes EditEntry on an entry without a group. */
  lemma EditEntryNilGroupPanics(stored: Entry, input: EditInput)
    requires stored.group.None?
    ensures var editor := User(1, "kaid_editor", false, {EditEntries}, false, None);
            EditEntryAsWritten(Some(editor), Some(stored), input) == Crashed
            && EditEntryDecision(Some(editor), Some(stored), input).Write?
            && EditEntryDecision(Some(editor), Some(stored), input).input.group.None?
  {
  }

  /**
   * Mutation.editEntry (corrected): Forbidden before any read, NotFound
   * before any write, otherwise the overridden input is written and the
   * edited entry returned.
   */
  method EditEntry(a: array<Entry>, user: Option<User>, id: int, input: EditInput) returns (r: Result<Entry>)
    modifies a
    ensures var d := EditEntryDecision(user, EntryById(old(a[..]), id), input);
            (d.Refused? ==> r == Err(d.error) && a[..] == old(a[..]))
            && (d.Write? ==> a[..] == Updated(old(a[..]), ById(id), Edit(d.input))
                             && r == Ok(Apply(EntryById(old(a[..]), id).value, Edit(d.input))))
  {
    if !HasPermission(user, EditEntries) {
      return Err(Forbidden);
    }
    var stored := GetEntry(a[..], id);
    if stored.Err? {
      return Err(stored.error);
    }
    var e := stored.value;
    var written := input;
    if !HasPermission(user, AssignEntryGroups) {
      written := written.(group := e.group);
    }
    if !user.value.isAdmin {
      written := written.(levelLocked := e.levelLocked);
    }
    ghost var before := a[..];
    Update(a, ById(id), Edit(written));
    LookupAfterUpdate(before, id, Edit(written));
    r := GetEntry(a[..], id);
  }

  // ---------------------------------------------------------------------
  // Group assignment resolvers
  // ---------------------------------------------------------------------

  /** Mutation.transferEntryGroups: needs AssignEntryGroups; moves the contest's entries of one group to another. */
  method TransferEntryGroups(a: array<Entry>, user: Option<User>, contestId: int, prevGroup: int, newGroup: int)
    returns (r: Result<bool>)
    modifies a
    ensures !HasPermission(user, AssignEntryGroups) ==> r == Err(Forbidden) && a[..] == old(a[..])
    ensures HasPermission(user, AssignEntryGroups) ==>
              r == Ok(true) && a[..] == Updated(old(a[..]), InGroupOfContest(contestId, prevGroup), SetGroup(newGroup))
  {
    if !HasPermission(user, AssignEntryGroups) {
      return Err(Forbidden);
    }
    Update(a, InGroupOfContest(contestId, prevGroup), SetGroup(newGroup));
    r := Ok(true);
  }

  // ---------------------------------------------------------------------
  // Entry votes
  // ---------------------------------------------------------------------

  /** One row of `entry_vote`. */
  datatype Vote = Vote(id: int, evaluatorId: int, entryId: int, reason: string)

  /** A vote mutation's answer and the vote table after it. */
  datatype VoteOutcome = VoteOutcome(result: Result<Vote>, votes: seq<Vote>)

  /** GetContestById(...).IsVotingEnabled: NotFound for an unknown contest. */
  function VotingEnabled(contests: map<int, bool>, contestId: int): (r: Result<bool>)
    ensures r.Ok? <==> contestId in contests
    ensures r.Ok? ==> r.value == contests[contestId]
    ensures r.Err? ==> r.error == NotFound
  {
    if contestId in contests then Ok(contests[contestId]) else Err(NotFound)
  }

  /** The vote_id column, the key of `entry_vote`. */
  function VoteKey(v: Vote): int {
    v.id
  }

  /** DELETE FROM entry_vote WHERE vote_id = id. */
  function WithoutVote(votes: seq<Vote>, id: int): seq<Vote> {
    if |votes| == 0 then []
    else (if votes[0].id == id then [] else [votes[0]]) + WithoutVote(votes[1..], id)
  }

  /** The delete removes exactly the rows with that vote id. */
  lemma {:induction false} WithoutVoteMembers(votes: seq<Vote>, id: int)
    ensures forall v :: v in WithoutVote(votes, id) <==> v in votes && v.id != id
  {
    if |votes| > 0 {
      WithoutVoteMembers(votes[1..], id);
      assert votes == [votes[0]] + votes[1..];
    }
  }

  /**
   * Mutation.createEntryVote: JudgeEntries first, then the entry and its
   * contest must exist, then Forbidden while voting is disabled; otherwise
   * a vote with the next id is inserted and returned.
   */
  function CreateEntryVote(user: Option<User>, entries: seq<Entry>, contests: map<int, bool>,
                           votes: seq<Vote>, nextId: int, entryId: int, reason: string): VoteOutcome {
    if !HasPermission(user, JudgeEntries) then VoteOutcome(Err(Forbidden), votes)
    else match GetEntry(entries, entryId)
      case Err(e) => VoteOutcome(Err(e), votes)
      case Ok(en) =>
        match VotingEnabled(contests, en.contestId)
        case Err(e) => VoteOutcome(Err(e), votes)
        case Ok(enabled) =>
          if !enabled then VoteOutcome(Err(Forbidden), votes)
          else
            var v := Vote(nextId, user.value.id, entryId, reason);
            VoteOutcome(Ok(v), votes + [v])
  }

  /**
   * Mutation.deleteEntryVote: the vote is looked up first (an anonymous
   * caller's lookup yields nothing and is then refused); the caller needs
   * JudgeEntries and must own the vote or be an admin; the vote's contest
   * must have voting enabled; then the vote is deleted and returned.
   */
  function DeleteEntryVote(user: Option<User>, entries: seq<Entry>, contests: map<int, bool>,
                           votes: seq<Vote>, id: int): VoteOutcome {
    if user.None? then VoteOutcome(Err(Forbidden), votes)
    else match RowById(votes, VoteKey, id)
      case None => VoteOutcome(Err(NotFound), votes)
      case Some(v) =>
        if !HasPermission(user, JudgeEntries) || (v.evaluatorId != user.value.id && !user.value.isAdmin)
        then VoteOutcome(Err(Forbidden), votes)
        else match GetEntry(entries, v.entryId)
          case Err(e) => VoteOutcome(Err(e), votes)
          case Ok(en) =>
            match VotingEnabled(contests, en.contestId)
            case Err(e) => VoteOutcome(Err(e), votes)
            case Ok(enabled) =>
              if !enabled then VoteOutcome(Err(Forbidden), votes)
              else VoteOutcome(Ok(v), WithoutVote(votes, id))
  }

  /** Whether votes may be cast on entry `entryId` now: its contest exists and has voting enabled. */
  predicate VotingOpenFor(entries: seq<Entry>, contests: map<int, bool>, entryId: int) {
    var en := EntryById(entries, entryId);
    en.Some? && en.value.contestId in contests && contests[en.value.contestId]
  }

  /**
   * A vote is created exactly for a JudgeEntries caller on an entry whose
   * contest has voting open; it is then appended, and a refusal changes nothing.
   */
  lemma CreateEntryVoteGate(user: Option<User>, entries: seq<Entry>, contests: map<int, bool>,
                            votes: seq<Vote>, nextId: int, entryId: int, reason: string)
    ensures var o := CreateEntryVote(user, entries, contests, votes, nextId, entryId, reason);
            (o.result.Ok? <==> HasPermission(user, JudgeEntries) && VotingOpenFor(entries, contests, entryId))
            && (o.result.Ok? ==> o.votes == votes + [o.result.value] && o.result.value.evaluatorId == user.value.id
                                 && o.result.value.entryId == entryId)
            && (o.result.Err? ==> o.votes == votes)
            && ((HasPermission(user, JudgeEntries) && EntryById(entries, entryId).Some?
                 && EntryById(entries, entryId).value.contestId in contests
                 && !contests[EntryById(entries, entryId).value.contestId]) ==> o.result == Err(Forbidden))
  {
  }

  /**
   * A vote is deleted exactly when it exists, the caller has JudgeEntries
   * and owns it or is admin, and its contest has voting open; only that
   * vote's row goes, and a refusal changes nothing.
   */
  lemma DeleteEntryVoteGate(user: Option<User>, entries: seq<Entry>, contests: map<int, bool>,
                            votes: seq<Vote>, id: int)
    ensures var o := DeleteEntryVote(user, entries, contests, votes, id);
            var v := RowById(votes, VoteKey, id);
            (o.result.Ok? <==> v.Some? && HasPermission(user, JudgeEntries)
                               && (v.value.evaluatorId == user.value.id || user.value.isAdmin)
                               && VotingOpenFor(entries, contests, v.value.entryId))
            && (o.result.Ok? ==> o.result.value == v.value
                                 && forall w :: w in o.votes <==> w in votes && w.id != id)
            && (o.result.Err? ==> o.votes == votes)
  {
    WithoutVoteMembers(votes, id);
  }

  /** Voting being closed refuses even an admin who owns the vote. */
  lemma ClosedVotingRefusesAdmins(admin: User, entries: seq<Entry>, contests: map<int, bool>, votes: seq<Vote>, id: int)
    requires admin.isAdmin
    requires RowById(votes, VoteKey, id).Some? && EntryById(entries, RowById(votes, VoteKey, id).value.entryId).Some?
    requires var c := EntryById(entries, RowById(votes, VoteKey, id).value.entryId).value.contestId;
             c in contests && !contests[c]
    ensures DeleteEntryVote(Some(admin), entries, contests, votes, id) == VoteOutcome(Err(Forbidden), votes)
  {
  }

  // ---------------------------------------------------------------------
  // Next entry queries
  // ---------------------------------------------------------------------

  /**
   * Query.nextEntryToJudge: nil without JudgeEntries; otherwise the entry
   * the claim returned, nil when it returned none.
   */
  function NextEntryToJudgeQuery(user: Option<User>, entries: seq<Entry>, claim: ClaimRow): (r: Result<Option<Entry>>)
  {
    if !HasPermission(user, JudgeEntries) then Ok(None)
    else match NextEntryToJudge(true, claim)
      case Err(e) => Err(e)
      case Ok(None) => Ok(None)
      case Ok(Some(id)) =>
        match GetEntry(entries, id)
        case Err(e) => Err(e)
        case Ok(en) => Ok(Some(en))
  }

  /**
   * A caller without JudgeEntries gets the same answer a judge gets when
   * nothing is left to judge: the denial cannot be told from "no entry".
   */
  lemma DenialLooksLikeNoEntry(user: Option<User>, judge: User, entries: seq<Entry>, claim: ClaimRow)
    requires !HasPermission(user, JudgeEntries) && HasPermission(Some(judge), JudgeEntries)
    ensures NextEntryToJudgeQuery(user, entries, claim) == Ok(None)
    ensures NextEntryToJudgeQuery(Some(judge), entries, NoRow) == NextEntryToJudgeQuery(user, entries, claim)
    ensures NextEntryToJudgeQuery(Some(judge), entries, Row(-1)) == NextEntryToJudgeQuery(user, entries, claim)
  {
  }

  /** A judge is handed exactly the claimed entry, and a failed claim is an error, never a silent nil. */
  lemma NextEntryToJudgeClaimed(judge: User, entries: seq<Entry>, claim: ClaimRow)
    requires HasPermission(Some(judge), JudgeEntries)
    ensures var r := NextEntryToJudgeQuery(Some(judge), entries, claim);
            (r.Err? <==> claim.ScanFailed? || (claim.Row? && claim.id != -1 && EntryById(entries, claim.id).None?))
            && (r.Ok? && r.value.Some? ==> claim == Row(r.value.value.id) && r.value.value in entries)
  {
  }

  /**
   * Query.nextEntryToReviewSkillLevel: nil for anyone but an admin;
   * otherwise the entry with the largest id that awaits a level review,
   * nil when none does.
   */
  method NextEntryToReviewSkillLevelQuery(a: array<Entry>, user: Option<User>) returns (r: Result<Option<Entry>>)
    requires IdsAscending(a[..])
    ensures r.Ok?
    ensures (user.None? || !user.value.isAdmin) ==> r.value.None?
    ensures user.Some? && user.value.isAdmin ==>
              (r.value.None? <==> forall i :: 0 <= i < a.Length ==> !AwaitingReview(a[i]))
    ensures r.value.Some? ==>
              r.value.value in a[..] && AwaitingReview(r.value.value)
              && forall i :: 0 <= i < a.Length && AwaitingReview(a[i]) ==> a[i].id <= r.value.value.id
  {
    if user.None? || !user.value.isAdmin {
      return Ok(None);
    }
    var id := NextEntryToReviewSkillLevel(a);
    if id.None? {
      return Ok(None);
    }
    var found := GetEntry(a[..], id.value);
    var e := found.value;
    r := Ok(Some(e));
  }

  // ---------------------------------------------------------------------
  // Kaid of an imported entry
  // ---------------------------------------------------------------------

  /**
   * The last element of strings.Split(url, "/"): everything after the last
   * '/', the whole string when it has none, "" when it ends in '/'.
   */
  function LastSegment(url: string): (k: string)
    ensures '/' !in k
    ensures |k| <= |url| && k == url[|url| - |k|..]
    ensures |k| < |url| ==> url[|url| - |k| - 1] == '/'
  {
    if |url| == 0 then ""
    else if url[|url| - 1] == '/' then ""
    else LastSegment(url[..|url| - 1]) + [url[|url| - 1]]
  }

  /** A url without '/' is its own last segment. */
  lemma {:induction false} LastSegmentNoSlash(url: string)
    requires '/' !in url
    ensures LastSegment(url) == url
  {
    if |url| > 0 {
      var p := url[..|url| - 1];
      assert forall c :: c in p ==> c in url;
      LastSegmentNoSlash(p);
      assert url == p + [url[|url| - 1]];
    }
  }

  /** Appending "/" and a slash-free kaid to any prefix gives that kaid back. */
  lemma {:induction false} LastSegmentOfPath(prefix: string, kaid: string)
    requires '/' !in kaid
    ensures LastSegment(prefix + "/" + kaid) == kaid
  {
    if |kaid| == 0 {
      assert (prefix + "/" + kaid)[|prefix + "/" + kaid| - 1] == '/';
    } else {
      var p := kaid[..|kaid| - 1];
      assert forall c :: c in p ==> c in kaid;
      LastSegmentOfPath(prefix, p);
      assert (prefix + "/" + kaid)[..|prefix + "/" + kaid| - 1] == prefix + "/" + p;
      assert kaid == p + [kaid[|kaid| - 1]];
    }
  }
}

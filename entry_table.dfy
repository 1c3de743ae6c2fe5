/**
 * The `entry` table of internal/models/entries.go and the single-statement
 * updates and lookups on it. The table is an array of rows; each SQL UPDATE
 * is a scan that rewrites the rows its WHERE clause selects.
 */
module EntryTable {
  import opened Common

  /** One row of the `entry` table (the columns the core reads or writes). */
  datatype Entry = Entry(
    id: int, contestId: int, url: string, kaid: string, title: string,
    authorName: string, authorKaid: Option<string>, votes: int, created: string,
    level: Option<string>, levelLocked: bool, height: int, group: Option<int>,
    flagged: bool, flagReason: Option<string>, disqualified: bool, isWinner: bool)

  /** The entry_id column is the table's primary key; rows are kept in ascending id order. */
  predicate IdsAscending(s: seq<Entry>) {
    forall i, j :: 0 <= i < j < |s| ==> s[i].id < s[j].id
  }

  /** The fields of EditEntryInput that EditEntryById writes. */
  datatype EditInput = EditInput(title: string, level: string, height: int, group: Option<int>,
                                 flagged: bool, disqualified: bool, levelLocked: bool)

  /** The row `WHERE entry_id = id` selects (entry_id is the key), as GetEntryById and the joins on entry_id read it. */
  function EntryById(entries: seq<Entry>, id: int): Option<Entry> {
    RowById(entries, EntryKey, id)
  }

  /** The entry_id column. */
  function EntryKey(e: Entry): int {
    e.id
  }

  /** The WHERE clause of a single-table UPDATE. */
  datatype Where =
    | ById(id: int)                               // WHERE entry_id = $id
    | InGroupOfContest(contestId: int, group: int) // WHERE assigned_group_id = $g AND contest_id = $c

  /** The SET clause of a single-table UPDATE. */
  datatype Change =
    | Flag(reason: string)      // FlagEntryById
    | Approve                   // ApproveEntryById
    | Disqualify                // DisqualifyEntryById
    | Edit(input: EditInput)    // EditEntryById
    | SetLevel(level: string)   // SetEntryLevelById
    | SetGroup(newGroup: int)   // TransferEntryGroups

  predicate Matches(e: Entry, w: Where) {
    match w
    case ById(id) => e.id == id
    case InGroupOfContest(c, g) => e.group == Some(g) && e.contestId == c
  }

  function Apply(e: Entry, c: Change): Entry {
    match c
    case Flag(reason) => e.(flagged := true, flagReason := Some(reason))
    case Approve => e.(flagged := false, disqualified := false)
    case Disqualify => e.(disqualified := true)
    case Edit(i) => e.(title := i.title, level := Some(i.level), height := i.height,
                       group := i.group, flagged := i.flagged,
                       disqualified := i.disqualified, levelLocked := i.levelLocked)
    case SetLevel(level) => e.(level := Some(level), levelLocked := true)
    case SetGroup(g) => e.(group := Some(g))
  }

  /** What one UPDATE does to one row. */
  function Step(e: Entry, w: Where, c: Change): Entry {
    if Matches(e, w) then Apply(e, c) else e
  }

  /** The table after `UPDATE entry SET c WHERE w`. */
  function Updated(s: seq<Entry>, w: Where, c: Change): (r: seq<Entry>)
    ensures |r| == |s|
  {
    seq(|s|, i requires 0 <= i < |s| => Step(s[i], w, c))
  }

  /** Executes `UPDATE entry SET c WHERE w` by scanning every row. */
  method Update(a: array<Entry>, w: Where, c: Change)
    modifies a
    ensures a[..] == Updated(old(a[..]), w, c)
  {
    for i := 0 to a.Length
      invariant forall j :: 0 <= j < i ==> a[j] == Step(old(a[j]), w, c)
      invariant forall j :: i <= j < a.Length ==> a[j] == old(a[j])
    {
      if Matches(a[i], w) {
        a[i] := Apply(a[i], c);
      }
    }
  }

  /** No UPDATE changes a row's key or contest, so the table stays ordered by id. */
  lemma UpdateKeepsKeys(s: seq<Entry>, w: Where, c: Change)
    requires IdsAscending(s)
    ensures forall i :: 0 <= i < |s| ==>
      Updated(s, w, c)[i].id == s[i].id && Updated(s, w, c)[i].contestId == s[i].contestId
    ensures IdsAscending(Updated(s, w, c))
  {
  }

  /** Running the same UPDATE twice has the effect of running it once. */
  lemma UpdateIdempotent(s: seq<Entry>, w: Where, c: Change)
    ensures Updated(Updated(s, w, c), w, c) == Updated(s, w, c)
  {
    var t := Updated(s, w, c);
    forall i | 0 <= i < |s|
      ensures Step(t[i], w, c) == t[i]
    {
      if !Matches(s[i], w) {
        // An unselected row is left alone, so it stays unselected.
        assert t[i] == s[i];
      } else if w.InGroupOfContest? && c.SetGroup? && c.newGroup != w.group {
        // A transferred row has left the old group, so it is not selected again.
        assert !Matches(t[i], w);
      }
    }
  }

  /** Approving a flagged and disqualified entry clears both marks and only them (flag_reason stays). */
  lemma ApproveUndoesFlagAndDisqualify(s: seq<Entry>, id: int, reason: string)
    ensures var t := Updated(Updated(Updated(s, ById(id), Flag(reason)), ById(id), Disqualify), ById(id), Approve);
      forall i :: 0 <= i < |s| ==>
        (s[i].id == id ==> t[i] == s[i].(flagged := false, disqualified := false, flagReason := Some(reason)))
        && (s[i].id != id ==> t[i] == s[i])
  {
  }

  /** The number of entries of contest c in group g. */
  function GroupSize(s: seq<Entry>, c: int, g: int): (n: nat)
    ensures n <= |s|
  {
    if |s| == 0 then 0
    else GroupSize(s[..|s| - 1], c, g) + (if s[|s| - 1].contestId == c && s[|s| - 1].group == Some(g) then 1 else 0)
  }

  lemma UpdatedPrefix(s: seq<Entry>, w: Where, c: Change, k: nat)
    requires k <= |s|
    ensures Updated(s, w, c)[..k] == Updated(s[..k], w, c)
  {
  }

  /**
   * TransferEntryGroups moves the whole of group p of contest c into group n:
   * p is left empty there, n gains exactly p's entries, and every other group
   * keeps its size.
   */
  lemma {:induction false} TransferMovesWholeGroup(s: seq<Entry>, c: int, p: int, n: int, q: int)
    requires p != n
    ensures GroupSize(Updated(s, InGroupOfContest(c, p), SetGroup(n)), c, p) == 0
    ensures GroupSize(Updated(s, InGroupOfContest(c, p), SetGroup(n)), c, n)
         == GroupSize(s, c, p) + GroupSize(s, c, n)
    ensures q != p && q != n ==>
      GroupSize(Updated(s, InGroupOfContest(c, p), SetGroup(n)), c, q) == GroupSize(s, c, q)
  {
    var t := Updated(s, InGroupOfContest(c, p), SetGroup(n));
    if |s| > 0 {
      var k := |s| - 1;
      TransferMovesWholeGroup(s[..k], c, p, n, q);
      UpdatedPrefix(s, InGroupOfContest(c, p), SetGroup(n), k);
      assert t[..k] == Updated(s[..k], InGroupOfContest(c, p), SetGroup(n));
    }
  }

  /** TransferEntryGroups never touches another contest's entries or entries outside group p. */
  lemma TransferFrame(s: seq<Entry>, c: int, p: int, n: int, i: int)
    requires 0 <= i < |s|
    requires s[i].contestId != c || s[i].group != Some(p)
    ensures Updated(s, InGroupOfContest(c, p), SetGroup(n))[i] == s[i]
  {
  }

  /** Rows GetNextEntryToReviewSkillLevel considers: level not locked, not disqualified. */
  predicate AwaitingReview(e: Entry) {
    !e.levelLocked && !e.disqualified
  }

  /**
   * GetNextEntryToReviewSkillLevel: the largest entry_id, over all contests,
   * of an entry whose level is unlocked and that is not disqualified.
   */
  method NextEntryToReviewSkillLevel(a: array<Entry>) returns (r: Option<int>)
    ensures r.None? <==> forall i :: 0 <= i < a.Length ==> !AwaitingReview(a[i])
    ensures r.Some? ==> exists i :: 0 <= i < a.Length && AwaitingReview(a[i]) && a[i].id == r.value
    ensures r.Some? ==> forall i :: 0 <= i < a.Length && AwaitingReview(a[i]) ==> a[i].id <= r.value
  {
    r := None;
    ghost var at := 0;
    for i := 0 to a.Length
      invariant r.None? <==> forall j :: 0 <= j < i ==> !AwaitingReview(a[j])
      invariant r.Some? ==> 0 <= at < i && AwaitingReview(a[at]) && a[at].id == r.value
      invariant r.Some? ==> forall j :: 0 <= j < i && AwaitingReview(a[j]) ==> a[j].id <= r.value
    {
      if AwaitingReview(a[i]) && (r.None? || a[i].id > r.value) {
        r := Some(a[i].id);
        at := i;
      }
    }
  }

  /** After SetEntryLevelById(id) the entry is locked, so it is no longer awaiting review. */
  lemma SetLevelLeavesReview(s: seq<Entry>, id: int, level: string, i: int)
    requires 0 <= i < |s| && s[i].id == id
    ensures !AwaitingReview(Updated(s, ById(id), SetLevel(level))[i])
    ensures Updated(s, ById(id), SetLevel(level))[i].level == Some(level)
  {
  }

  /** What the stored function get_entry_and_create_placeholder returned to the scan. */
  datatype ClaimRow = NoRow | Row(id: int) | ScanFailed

  /**
   * GetNextEntryToJudge: a nil caller, no row and the -1 sentinel all mean
   * "no entry"; a scan error is an internal error; otherwise the claimed id.
   * The claim itself happens inside the stored function.
   */
  function NextEntryToJudge(signedIn: bool, claim: ClaimRow): (r: Result<Option<int>>)
    ensures r.Err? <==> signedIn && claim.ScanFailed?
    ensures r == Ok(None) <==> !signedIn || claim.NoRow? || claim == Row(-1)
    ensures r.Ok? && r.value.Some? ==> claim == Row(r.value.value) && r.value.value != -1
  {
    if !signedIn then Ok(None)
    else match claim
      case NoRow => Ok(None)
      case ScanFailed => Err(Internal)
      case Row(id) => if id == -1 then Ok(None) else Ok(Some(id))
  }

  /** The columns of an imported entry (EntryInput). */
  datatype EntryInput = EntryInput(url: string, kaid: string, title: string, authorName: string,
                                   authorKaid: string, votes: int, created: string)

  /** The row CreateEntry inserts; the columns it does not name take their column defaults. */
  function NewRow(id: int, contestId: int, input: EntryInput): Entry {
    Entry(id, contestId, input.url, input.kaid, input.title, input.authorName,
          Some(input.authorKaid), input.votes, input.created, None, false, 0, None,
          false, None, false, false)
  }

  /** The unique key (contest_id, entry_kaid) of the ON CONFLICT clause. */
  predicate KeyUnique(s: seq<Entry>) {
    forall i, j :: 0 <= i < j < |s| ==> !(s[i].contestId == s[j].contestId && s[i].kaid == s[j].kaid)
  }

  /** The first row with the given key, if any. */
  function FindByKey(s: seq<Entry>, contestId: int, kaid: string): (r: Option<nat>)
    ensures r.Some? ==> r.value < |s| && s[r.value].contestId == contestId && s[r.value].kaid == kaid
    ensures r.Some? ==> forall i :: 0 <= i < r.value ==> !(s[i].contestId == contestId && s[i].kaid == kaid)
    ensures r.None? ==> forall i :: 0 <= i < |s| ==> !(s[i].contestId == contestId && s[i].kaid == kaid)
  {
    if |s| == 0 then None
    else if s[0].contestId == contestId && s[0].kaid == kaid then Some(0)
    else match FindByKey(s[1..], contestId, kaid)
      case Some(i) => Some(i + 1)
      case None => None
  }

  /**
   * CreateEntry: INSERT ... ON CONFLICT (contest_id, entry_kaid) DO UPDATE SET
   * entry_title, entry_author, entry_votes ... RETURNING entry_id. `nextId` is
   * the value the id sequence hands out on insert.
   */
  function CreateEntry(s: seq<Entry>, contestId: int, input: EntryInput, nextId: int): (seq<Entry>, int) {
    match FindByKey(s, contestId, input.kaid)
    case Some(i) =>
      (s[i := s[i].(title := input.title, authorName := input.authorName, votes := input.votes)], s[i].id)
    case None =>
      (s + [NewRow(nextId, contestId, input)], nextId)
  }

  /**
   * On conflict the existing row keeps its id, url, created date and author kaid
   * and takes the input's title, author name and votes; nothing else changes.
   * Without a conflict a new row with the next id is appended.
   */
  lemma CreateEntryUpserts(s: seq<Entry>, contestId: int, input: EntryInput, nextId: int)
    ensures var (t, id) := CreateEntry(s, contestId, input, nextId);
      (exists i :: 0 <= i < |s| && s[i].contestId == contestId && s[i].kaid == input.kaid) ==>
        |t| == |s| &&
        exists i :: 0 <= i < |s| && s[i].contestId == contestId && s[i].kaid == input.kaid &&
          id == s[i].id &&
          t[i] == s[i].(title := input.title, authorName := input.authorName, votes := input.votes) &&
          forall j :: 0 <= j < |s| && j != i ==> t[j] == s[j]
    ensures var (t, id) := CreateEntry(s, contestId, input, nextId);
      (forall i :: 0 <= i < |s| ==> !(s[i].contestId == contestId && s[i].kaid == input.kaid)) ==>
        t == s + [NewRow(nextId, contestId, input)] && id == nextId
  {
    match FindByKey(s, contestId, input.kaid)
    case Some(i) =>
    case None =>
  }

  /**
   * CreateEntry keeps the key unique and the ids ascending (the sequence hands
   * out ids above every existing one), and afterwards the returned id names the
   * one row with the key, which carries the input's title, author and votes.
   */
  lemma CreateEntryKeepsTableValid(s: seq<Entry>, contestId: int, input: EntryInput, nextId: int)
    requires KeyUnique(s) && IdsAscending(s)
    requires forall i :: 0 <= i < |s| ==> s[i].id < nextId
    ensures var (t, id) := CreateEntry(s, contestId, input, nextId);
      KeyUnique(t) && IdsAscending(t) &&
      exists i :: 0 <= i < |t| && t[i].id == id && t[i].contestId == contestId && t[i].kaid == input.kaid &&
        t[i].title == input.title && t[i].authorName == input.authorName && t[i].votes == input.votes
  {
    match FindByKey(s, contestId, input.kaid)
    case Some(i) =>
      var t := CreateEntry(s, contestId, input, nextId).0;
      assert t[i].kaid == input.kaid;
    case None =>
      var t := CreateEntry(s, contestId, input, nextId).0;
      assert t[|s|].id == nextId;
  }

  /** Importing the same program twice leaves the table as one import did. */
  lemma CreateEntryIdempotent(s: seq<Entry>, contestId: int, input: EntryInput, nextId: int, laterId: int)
    ensures var (t, id) := CreateEntry(s, contestId, input, nextId);
      CreateEntry(t, contestId, input, laterId) == (t, id)
  {
    var (t, id) := CreateEntry(s, contestId, input, nextId);
    var found := FindByKey(s, contestId, input.kaid);
    var k := if found.Some? then found.value else |s|;
    assert t[k].contestId == contestId && t[k].kaid == input.kaid;
    assert forall j :: 0 <= j < k ==> t[j] == s[j];
    assert FindByKey(t, contestId, input.kaid) == Some(k);
    assert t[k].title == input.title && t[k].authorName == input.authorName && t[k].votes == input.votes;
    assert t[k].id == id;
    assert t[k := t[k].(title := input.title, authorName := input.authorName, votes := input.votes)] == t;
  }
}

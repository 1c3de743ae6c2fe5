# Bema judging core in Dafny

Bema is the judging site of a programming contest. Evaluators are split into judging groups. Each group scores the contest's entries, and admins follow the progress of the judging. This project models the rules at the centre of the site:

- **Entry-to-group assignment.** The current Go model cuts the contest's entries, in id order, into blocks of ceil(N/g). The legacy Node handler gives floor(n/g) to each group and the remainder to the last one.
- **The entry table's single-statement updates**: flag, approve, disqualify, set level, transfer and the import upsert. Also the "next entry" selectors.
- **The judging-progress reports** and the resolvers that gate them.
- **The permission directives** and the entry, evaluation and knowledge-base access rules, both in the GraphQL resolvers and in the legacy REST handlers.
- **The knowledge base's article/draft state machine.**
- **The session handlers**: password change, logout, assuming an identity.
- **On the client**: the session reducer, the Cell and ProtectedRoute gates, and the two task pages' list bookkeeping.

How the model represents the system:

- Each SQL statement is a filter or an update over an in-memory table. The entry table is an `array<Entry>` in ascending id order, updated by row scans. The knowledge base is a class holding maps of articles and drafts.
- A permission set is a `set<Perm>` of the thirty flags.
- Results that the Go code returns as `(value, error)` are `Result` values. A Go nil is an `Option`.
- A Go panic or a Node crash is an explicit outcome wherever the code can reach one.
- "The current contest" means, throughout, the contest GetCurrentContest returns: the newest one (highest contest_id), whatever its `current` column says. There is none only when no contest exists.

The Entries page asks before assigning whether to "evenly assign all entries to the active groups" (client/src/pages/Entries/Entries.tsx:520). The Go code does not keep the groups within one entry of each other: it cuts blocks of ceil(N/g), which gives 4, 4 and 2 for 10 entries over 3 groups. The model follows the code (`GoPartition.BlockSizes`, `GoPartition.TenEntriesThreeGroups`).

## Model

| member | source | states |
|---|---|---|
| Common.RowById | internal/models/entries.go:119-145 | a lookup on a primary key gives the first row with the key, which belongs to the table; none exactly when no row has the key (used for entry_id and for vote_id at graph/resolvers/entries.resolvers.go:360-366) |
| EntryTable.Updated | internal/models/entries.go:418-464 | an UPDATE keeps the table's length; every row matching the WHERE clause takes the SET clause, and the others stay as they are |
| EntryTable.Update | internal/models/entries.go:418-464 | the in-place row scan leaves the array equal to the table the UPDATE specifies |
| EntryTable.UpdateKeepsKeys | internal/models/entries.go:418-464 | no UPDATE changes a row's id or contest, so the table stays in id order |
| EntryTable.UpdateIdempotent | internal/models/entries.go:418-464 | running the same UPDATE twice is running it once |
| EntryTable.ApproveUndoesFlagAndDisqualify | internal/models/entries.go:426-432 | flagging, disqualifying and then approving an entry leaves it neither flagged nor disqualified, keeps the flag reason, and touches no other row |
| EntryTable.GroupSize | internal/models/entries.go:576-583 | the number of a contest's entries in a group is at most the table size |
| EntryTable.UpdatedPrefix | internal/models/entries.go:576-583 | an UPDATE acts on each prefix of the table independently |
| EntryTable.TransferMovesWholeGroup | internal/models/entries.go:576-583 | a transfer empties the old group, the new group gains exactly its entries, and every other group keeps its size |
| EntryTable.TransferFrame | internal/models/entries.go:576-583 | a transfer leaves untouched other contests' entries and entries outside the old group |
| EntryTable.NextEntryToReviewSkillLevel | internal/models/entries.go:388-400 | returns the largest id, over all contests, of an unlocked entry that is not disqualified; none when there is no such entry |
| EntryTable.SetLevelLeavesReview | internal/models/entries.go:458-464 | after a level is set the entry is locked and no longer awaits review |
| EntryTable.NextEntryToJudge | internal/models/entries.go:364-386 | an anonymous caller, no row, or the -1 sentinel give no entry; a scan error is an internal error; otherwise the claimed id |
| EntryTable.FindByKey | internal/models/entries.go:513-522 | finds the first row with the given (contest, kaid) key, and none when no row has it |
| EntryTable.CreateEntryUpserts | internal/models/entries.go:513-522 | on conflict the row keeps its id, url, created date and author kaid and takes the new title, author name and votes; otherwise a new row with the next id is appended |
| EntryTable.CreateEntryKeepsTableValid | internal/models/entries.go:513-522 | the upsert keeps the (contest, kaid) key unique and the ids ascending, and the row with the returned id holds the key and the new title, author name and votes |
| EntryTable.CreateEntryIdempotent | internal/models/entries.go:513-522 | importing the same program twice leaves the table as a single import did |
| Ranking.Rank | internal/models/entries.go:533-546 | the rank of a row in the ordered selection is at most its position |
| Ranking.RankMonotone | internal/models/entries.go:533-546 | ranks never decrease along the id order |
| Ranking.RankStrict | internal/models/entries.go:533-546 | distinct selected rows have distinct ranks |
| Ranking.RankBelowCount | internal/models/entries.go:533-546 | a selected row's rank is below N, the number of selected rows |
| Ranking.RankBySelection | internal/models/entries.go:557-571 | two tables that agree on which of their first k rows are selected give row k the same rank |
| Ranking.WindowCount | internal/models/entries.go:537-546 | among the first k rows, a LIMIT/OFFSET window [lo, hi) holds as many selected rows as the window has ranks below the k-th row's rank |
| GoPartition.CeilDiv | internal/models/entries.go:537 | the integer value of math.Ceil(N/g) for g > 0: the least l with l*g >= N |
| GoPartition.CeilDivBounds | internal/models/entries.go:537-538 | g blocks of ceil(N/g) cover the N entries, with less than one block to spare |
| GoPartition.CountSelected | internal/models/entries.go:530-535 | the COUNT(*) loop returns the number of selected rows |
| GoPartition.UpdateWindow | internal/models/entries.go:541-545 | one UPDATE ... LIMIT OFFSET sets the group exactly on the selected rows whose rank lies in the window |
| GoPartition.AssignAllEntriesToGroups | internal/models/entries.go:524-549 | the table after the loop is the partition of the non-disqualified entries into consecutive blocks of ceil(N/g); with no active group nothing changes |
| GoPartition.AssignNewEntriesToGroups | internal/models/entries.go:551-574 | the table after the loop is the partition of the entries without a group; with no active group nothing changes |
| GoPartition.AllBlockStep | internal/models/entries.go:541-546 | the i-th UPDATE of the assign-all loop, on the window [i*l, i*l+l), turns the table with blocks 0..i-1 written into the one with block i written too |
| GoPartition.BlockRowStep | internal/models/entries.go:541-545 | the i-th block writes groups[i] on a selected row exactly when its rank lies in [i*l, (i+1)*l), and leaves every other row alone |
| GoPartition.NewBlockStep | internal/models/entries.go:566-571 | the i-th UPDATE of the assign-new loop, on the window [0, l) of rows still unassigned, writes block i |
| GoPartition.NewRankShift | internal/models/entries.go:566-571 | before block i the rows still unassigned are those of original rank at least i*l, renumbered from 0 |
| GoPartition.PartitionAssignsBlocks | internal/models/entries.go:537-546 | a selected entry of rank r gets groups[r / ceil(N/g)]; rows outside the selection are unchanged; only the group column is written |
| GoPartition.NoneLeftUnassigned | internal/models/entries.go:557-571 | after AssignNew no selected entry is left without a group, and entries that had a group keep it |
| GoPartition.EarlierEntryEarlierGroup | internal/models/entries.go:537-546 | of two selected entries, the lower-id one never goes to a later group than the other |
| GoPartition.InGroupIsWindow | internal/models/entries.go:537-546 | after the assignment, the entries of group i among the first k rows are exactly the selected rows ranked in window i |
| GoPartition.BlockSizes | internal/models/entries.go:538-545 | with distinct groups, group i receives min(L, max(0, N - i*L)) of the N selected entries, with L = ceil(N/g) |
| GoPartition.BlockSizeNonIncreasing | internal/models/entries.go:538-545 | block sizes never grow from one group to the next |
| GoPartition.TenEntriesThreeGroups | internal/models/entries.go:538-545 | 10 entries over 3 groups gives 4, 4 and 2 |
| LegacyPartition.GroupIndex | handlers/api/entries.js:360-380 | entry position e of n is dealt a group position below g |
| LegacyPartition.GroupIndexIff | handlers/api/entries.js:360-380 | group position i receives exactly the positions [i*floor(n/g), its block end), and the last group takes everything up to n |
| LegacyPartition.LoopsCoverOnce | handlers/api/entries.js:363-380 | the inner-block loops reach exactly the positions below g*floor(n/g), each in one block only, which is its group position; the remainder loop gives the rest to the last group |
| LegacyPartition.LegacyBlockSizes | handlers/api/entries.js:374-380 | every group but the last receives floor(n/g) positions, and the last receives floor(n/g) + n mod g |
| LegacyPartition.TenEntriesThreeGroups | handlers/api/entries.js:360-380 | 10 entries over 3 groups gives 3, 3 and 4 |
| LegacyPartition.FewerEntriesThanGroups | handlers/api/entries.js:360-380 | with fewer entries than groups every entry lands in the last group |
| LegacyPartition.SelectedIds | handlers/api/entries.js:349-355 | the entry query yields one id per selected row |
| LegacyPartition.SelectedIdsAt | handlers/api/entries.js:349-355 | a selected row of rank r is the r-th id of the query result |
| LegacyPartition.SelectEntryIds | handlers/api/entries.js:349-355 | the query loop returns exactly the ids of the selected rows in id order |
| LegacyPartition.DealStep | handlers/api/entries.js:366-378 | one single-row UPDATE for the entry of rank m moves the dealt table from m to m+1 entries |
| LegacyPartition.AssignToGroups | handlers/api/entries.js:329-393 | 401 without a token and 403 for a non-admin, with the table untouched; otherwise every selected entry receives its dealt group |
| LegacyPartition.LegacyAssignsRow | handlers/api/entries.js:360-380 | a selected row of rank r gets groups[GroupIndex(r, n, g)] and no other column changes; other rows are unchanged |
| LegacyPartition.AssignedEntriesKeepGroup | handlers/api/entries.js:349-353 | without assignAll, entries that already have a group keep it |
| LegacyPartition.AssignAllIncludesDisqualified | handlers/api/entries.js:349-353 | with assignAll, every entry of the contest, disqualified or not, ends with a group |
| LegacyPartition.InGroupIsIndexCount | handlers/api/entries.js:360-380 | after the deal, group i holds exactly the positions of its block among the first k rows |
| LegacyPartition.LegacyGroupSizes | handlers/api/entries.js:374-380 | with distinct active groups, every group but the last ends with floor(n/g) entries and the last with floor(n/g) + n mod g |
| LegacyPartition.LegacyFewerEntriesThanGroups | handlers/api/entries.js:374-380 | fewer selected entries than groups: all go to the last group |
| LegacyPartition.TransferEntryGroups | handlers/api/entries.js:395-426 | 401/403 leave the table unchanged; otherwise the contest's entries of the old group move to the new group |
| LegacyPartition.ApproveEntry | handlers/api/entries.js:301-327 | 401/403 leave the table unchanged; otherwise approve clears both the flagged and the disqualified mark |
| JudgingTables.CountEntriesMono | internal/models/reports.go:19-60 | counting under a weaker filter never gives less, and gives as much exactly when the filters agree on the table |
| JudgingTables.CountEntriesNone | internal/models/reports.go:19-60 | a filter no row passes counts 0 |
| JudgingTables.CountEvalsAgree | internal/models/reports.go:14-71 | two join filters that agree on every joined pair count alike |
| Reports.EvaluatorGroup | internal/models/reports.go:19 | the evaluator's group subquery is NULL when there is no such evaluator |
| Reports.EntryProgressBounded | internal/models/reports.go:52-66 | entry progress never exceeds its total, and reaches it exactly when every eligible entry has a completed evaluation |
| Reports.UserWithoutGroupExpectsNothing | internal/models/reports.go:19 | a user in no group expects 0 entries, because `= NULL` never holds |
| Reports.UserTotalIsGroupEntries | internal/models/reports.go:11-25 | the user's total counts exactly the eligible entries of the user's group |
| Reports.UserCountMayExceedTotal | internal/models/reports.go:14-19 | the user's count includes evaluations of flagged entries, so it can exceed the total |
| Reports.GroupTotalZero | internal/models/reports.go:36-47 | a group expects nothing exactly when it has no eligible entry or no unlocked judging evaluator |
| Reports.GroupCountIgnoresEvaluator | internal/models/reports.go:30 | the group's count does not depend on who wrote the completed evaluations |
| Reports.ScanGroupCounts | internal/models/reports.go:82-110 | the append loop reads each row into the list, with a NULL-group row read as {0, 0} |
| Reports.EvaluationTotal | internal/models/reports.go:114-123 | the nested loop computes the sum of entryCount*evaluatorCount over pairs of rows with equal ids |
| Reports.EvaluationProgress | internal/models/reports.go:68-127 | the count is the completed evaluations on eligible entries of the contest; over the two GROUP BY queries' rows, the total is the sum over the entry groups of eligible entries times unlocked judging evaluators |
| Reports.SumOfPermutation | internal/models/reports.go:115-122 | a sum does not depend on the order of the list |
| Reports.JoinTotalOrderFree | internal/models/reports.go:115-122 | the expected number of evaluations does not depend on the order of either group list |
| Reports.JoinTotalNonNegative | internal/models/reports.go:115-122 | with non-negative counts the total is non-negative |
| Reports.UnmatchedGroupAddsNothing | internal/models/reports.go:117-121 | a group present on only one side adds 0 |
| Reports.NullGroupRowAddsNothing | internal/models/reports.go:82-121 | the NULL-group row of either query adds 0 |
| Reports.MatchedGroupAddsProduct | internal/models/reports.go:117-121 | an entry-group row adds its count times the count of the evaluator row with its id, when every other evaluator row with that id counts nothing |
| Reports.NoJudgeCountsZero | internal/models/reports.go:96 | a group with no unlocked judging evaluator counts no evaluators |
| Reports.RowTotalIsTerm | internal/models/reports.go:114-121 | over the evaluator GROUP BY rows, an entry-group row adds its group's entries times its judging evaluators, and the NULL row adds 0 |
| Reports.JoinTotalByRow | internal/models/reports.go:114-123 | when each row adds its group term, the total is the sum of the terms |
| Reports.JoinTotalIsGroupSum | internal/models/reports.go:77-123 | over the GROUP BY rows of the entry and evaluator tables, the nested loop's total is the sum of each entry group's eligible entries times its judging evaluators |
| ReportResolvers.CurrentContest | internal/models/contests.go:53-65 | the newest contest (highest contest_id), whatever its current flag; NotFound exactly when no contest exists |
| ReportResolvers.UserGroupLookup | graph/resolvers/reports.resolvers.go:113-117 | NotFound without an evaluator row; otherwise the nullable group |
| ReportResolvers.JudgingUser | graph/resolvers/reports.resolvers.go:83-103 | an anonymous caller gets {10, 50}; otherwise the caller's progress in the current (newest) contest |
| ReportResolvers.JudgingGroup | graph/resolvers/reports.resolvers.go:105-137 | an anonymous caller gets {80, 150}; a caller without an evaluator row gets NotFound, one in no group {0, 0}; otherwise the group's progress in the current (newest) contest |
| ReportResolvers.AdminStatsGate | graph/resolvers/reports.resolvers.go:139-197 | nil without ViewAdminStats; then the newest-contest lookup's error, or the report |
| ReportResolvers.JudgingEntries | graph/resolvers/reports.resolvers.go:139-157 | entry progress is nil for callers without ViewAdminStats |
| ReportResolvers.EntryCountsQuery | graph/resolvers/reports.resolvers.go:203-212 | entryCounts is nil exactly for callers without ViewAdminStats |
| ReportResolvers.EntryCountField | graph/resolvers/reports.resolvers.go:15-73 | each entryCounts field is 0 without ViewAdminStats, NotFound when no contest exists, and the count query's result otherwise |
| ReportResolvers.SignedInWithoutGroup | graph/resolvers/reports.resolvers.go:105-137 | a signed-in evaluator with a NULL group sees {0, 0} for the group, and a zero total for themself |
| Auth.GetPermissionFromEnum | internal/auth/auth.go:207-276 | false for a nil user, and true only for a string that names a permission |
| Auth.EnumNameSelectsFlag | internal/auth/auth.go:212-274 | every one of the 30 enum names selects its own permission |
| Auth.UnknownEnumIsFalse | internal/auth/auth.go:272-274 | a string that is no enum name yields false |
| Auth.EnumNameOfSelected | internal/auth/auth.go:212-274 | the switch answers only for the exact enum names |
| Auth.PermissionFromEnumIsFlag | internal/auth/auth.go:207-276 | for a signed-in user, the enum lookup is exactly the named flag |
| Auth.GetEmptyArray | internal/auth/auth.go:278-290 | never the empty string; nil exactly for the empty-string and null types, and a typed empty list for every list type |
| Auth.DeniedValue | internal/auth/auth.go:191-203 | the denial value is "" for NullTypeEmptyString, nil for NullTypeNull, and the empty array otherwise |
| Auth.DeniedValueInjective | internal/auth/auth.go:191-203 | distinct null types give distinct denial values |
| Auth.IsOwner | internal/auth/auth.go:292-299 | only a User object whose ID equals the caller's is owned; a User object with no caller, and only that, panics |
| Auth.IsAuthenticated | internal/auth/auth.go:159-176 | the resolver runs exactly for a signed-in caller; otherwise the null-type value |
| Auth.AnonymousOwnerCheckPanics | internal/auth/auth.go:186-188 | an anonymous request for a User-owned field panics instead of being denied |
| Auth.HasPermissionDirectiveNilSafe | internal/auth/auth.go:178-205 | the directive never panics |
| Auth.HasPermissionDirectiveDecision | internal/auth/auth.go:178-205 | the resolver runs exactly for a signed-in admin, owner or holder of the flag; otherwise the null-type value, never an error |
| Auth.NilSafeAgreesOtherwise | internal/auth/auth.go:178-205 | the guarded directive differs from the written one only in the anonymous ownership case |
| EntryResolvers.GetEntry | graph/resolvers/entries.resolvers.go:566-572 | the entry with the id, or NotFound |
| EntryResolvers.LookupAfterUpdate | graph/resolvers/entries.resolvers.go:223-266 | reading a row back after an UPDATE of it finds the old row with the change applied |
| EntryResolvers.Author | graph/resolvers/entries.resolvers.go:29-42 | a nil author gives a contestant with an empty kaid and the name "Unknown Author" |
| EntryResolvers.AnonymousView | graph/resolvers/entries.resolvers.go:44-107 | an anonymous caller sees the skill level only on a winner, and no judging state |
| EntryResolvers.SignedInView | graph/resolvers/entries.resolvers.go:44-107 | a signed-in caller sees the level, group, flag and disqualification as stored, and the flag reason and lock only as admin or with EditEntries |
| EntryResolvers.ViewMonotone | graph/resolvers/entries.resolvers.go:44-107 | signing in or gaining permissions never hides a field |
| EntryResolvers.GatedUpdate | graph/resolvers/entries.resolvers.go:223-266 | Forbidden with the table unchanged when the gate is shut; otherwise the UPDATE, then the row read back, or NotFound when no row has the id |
| EntryResolvers.FlagEntry | graph/resolvers/entries.resolvers.go:223-236 | needs JudgeEntries; the entry comes back flagged with the reason |
| EntryResolvers.ApproveEntry | graph/resolvers/entries.resolvers.go:238-251 | needs EditEntries; the entry comes back neither flagged nor disqualified |
| EntryResolvers.DisqualifyEntry | graph/resolvers/entries.resolvers.go:253-266 | needs EditEntries; the entry comes back disqualified |
| EntryResolvers.SetEntryLevel | graph/resolvers/entries.resolvers.go:315-328 | admins only, whatever their flags; the entry comes back with the level set and locked |
| EntryResolvers.EditEntryDecision | graph/resolvers/entries.resolvers.go:268-293 | the corrected decision never crashes |
| EntryResolvers.EditEntryRefusals | graph/resolvers/entries.resolvers.go:271-278 | Forbidden exactly without EditEntries, checked before the lookup; then NotFound for a missing entry |
| EntryResolvers.EditEntryOverrides | graph/resolvers/entries.resolvers.go:280-285 | an editor's other fields are written as given; the group only as admin or with AssignEntryGroups, else the stored one; the lock only as admin, else the stored one |
| EntryResolvers.EditEntryCorrectionAgrees | graph/resolvers/entries.resolvers.go:280-285 | the corrected decision differs from the written one only where the written one crashes |
| EntryResolvers.EditEntryNilGroupPanics | graph/resolvers/entries.resolvers.go:280-282 | an editor without AssignEntryGroups crashes EditEntry on an entry that has no group |
| EntryResolvers.EditEntry | graph/resolvers/entries.resolvers.go:268-293 | Forbidden and NotFound leave the table unchanged; otherwise the overridden input is written and the edited entry returned |
| EntryResolvers.TransferEntryGroups | graph/resolvers/entries.resolvers.go:543-556 | needs AssignEntryGroups; moves the contest's entries of the old group to the new one |
| EntryResolvers.VotingEnabled | graph/resolvers/entries.resolvers.go:340-349 | the contest's voting flag, and NotFound for an unknown contest |
| EntryResolvers.WithoutVoteMembers | graph/resolvers/entries.resolvers.go:385 | deleting a vote removes exactly the rows with its id |
| EntryResolvers.CreateEntryVoteGate | graph/resolvers/entries.resolvers.go:330-357 | a vote is created exactly for a JudgeEntries caller on an entry whose contest has voting open; a refusal changes nothing |
| EntryResolvers.DeleteEntryVoteGate | graph/resolvers/entries.resolvers.go:359-391 | a vote is deleted exactly when it exists, the caller has JudgeEntries and owns it or is admin, and voting is open |
| EntryResolvers.ClosedVotingRefusesAdmins | graph/resolvers/entries.resolvers.go:381-383 | closed voting refuses even an admin who owns the vote |
| EntryResolvers.DenialLooksLikeNoEntry | graph/resolvers/entries.resolvers.go:612-631 | without JudgeEntries the answer is nil, the same as a judge's answer when nothing is left |
| EntryResolvers.NextEntryToJudgeClaimed | graph/resolvers/entries.resolvers.go:612-631 | a judge gets exactly the claimed entry; a scan error, or a claimed id with no entry, is an error |
| EntryResolvers.NextEntryToReviewSkillLevelQuery | graph/resolvers/entries.resolvers.go:633-652 | nil for non-admins; otherwise the entry with the largest id awaiting review, or nil |
| EntryResolvers.LastSegment | graph/resolvers/entries.resolvers.go:435-438 | the kaid contains no '/', is a suffix of the url, and follows a '/' when the url has one |
| EntryResolvers.LastSegmentNoSlash | graph/resolvers/entries.resolvers.go:435-438 | a url without '/' is its own kaid |
| EntryResolvers.LastSegmentOfPath | graph/resolvers/entries.resolvers.go:435-438 | a program url ending in "/" + kaid gives that kaid back |
| Evaluations.GetEvaluationsForUserAndContest | internal/models/evaluations.go:24-54 | the list is the user's completed evaluations of the contest's entries, each with every scanned column (the four scores, created and level), Total the sum of the four scores and CanEdit by the rule; an empty list and NotFound when no contest exists |
| Evaluations.FilteredListed | internal/models/evaluations.go:33 | the list holds exactly the user's completed evaluations of the contest's entries |
| Evaluations.FilteredAscending | internal/models/evaluations.go:33 | the list comes out in ascending evaluation id |
| Evaluations.CanEditIgnoresAdmin | internal/models/evaluations.go:44-48 | CanEdit does not consult the admin flag |
| Evaluations.NoCompletedMeansZero | internal/models/evaluations.go:56-68 | a user with no completed evaluation counts 0 evaluations |
| Evaluations.NoEvaluationsNoContests | internal/models/evaluations.go:70-83 | a user with no completed evaluation has judged no contest |
| Evaluations.IncompleteEvaluationNotCounted | internal/models/evaluations.go:57-71 | an incomplete evaluation adds to neither counter |
| Evaluations.JudgedIgnoresDraft | internal/models/evaluations.go:70-83 | adding an incomplete evaluation leaves the count of contests judged unchanged |
| Evaluations.ContestsJudgedBounded | internal/models/evaluations.go:70-83 | the contest counter never exceeds the number of contests |
| KbStore.KnowledgeBase.constructor | internal/models/kb.go:301-315 | empty tables whose serials start at 1 |
| KbStore.KnowledgeBase.CreateArticle | internal/models/kb.go:301-315 | an unpublished article with empty content, plus one unpublished draft with the title and content |
| KbStore.KnowledgeBase.EditArticle | internal/models/kb.go:317-346 | updates a pending draft, or inserts one under the next draft id when there is none; afterwards a pending draft holds the new title, content and author, and an article with at most one pending draft keeps at most one |
| KbStore.KnowledgeBase.PublishArticle | internal/models/kb.go:378-402 | NotFound and no change without a pending draft; otherwise the draft's title, content and author are copied into the article, which is published, and the draft is marked published |
| KbStore.KnowledgeBase.UnpublishArticle | internal/models/kb.go:404-413 | only is_published of that article changes |
| KbStore.KnowledgeBase.EditArticleProperties | internal/models/kb.go:348-356 | only the visibility and section of that article change |
| KbStore.KnowledgeBase.LatestDraft | internal/models/kb.go:256-268 | the pending draft of the article with the highest draft id, or none |
| KbStore.PublicListIsPublished | internal/models/kb.go:193-212 | the public list holds exactly the section's published Public articles |
| KbStore.EvaluatorListIsPublished | internal/models/kb.go:214-233 | the evaluator list holds exactly the section's published Public or Evaluators Only articles |
| KbStore.ArticleListsNested | internal/models/kb.go:193-254 | public within evaluator within admin, and no Admins Only article is in the first two lists |
| KbStore.AdminListFails | internal/models/kb.go:235-254 | as written, the admin list is an error even for a section that has articles |
| KbStore.PublishThenEdit | internal/models/kb.go:317-402 | after a publish, the next edit starts a fresh draft, and every article keeps at most one pending draft |
| KbResolvers.ArticleQuery | graph/resolvers/kb.resolvers.go:156-174 | a lookup error is passed on |
| KbResolvers.ArticleQueryGate | graph/resolvers/kb.resolvers.go:164-172 | the article is returned exactly when it is published or the caller edits KB content, and its visibility admits the caller |
| KbResolvers.UnknownVisibilityHidesArticle | graph/resolvers/kb.resolvers.go:168-172 | an unknown visibility hides the article from everyone |
| KbResolvers.AnonymousArticle | graph/resolvers/kb.resolvers.go:164-172 | anonymous callers get only published Public articles |
| KbResolvers.SectionQuery | graph/resolvers/kb.resolvers.go:129-154 | a lookup error is passed on |
| KbResolvers.SectionQueryGate | graph/resolvers/kb.resolvers.go:143-153 | a section is returned exactly to KB editors, for Public, or for Evaluators Only to a signed-in caller |
| KbResolvers.QueriesMonotone | graph/resolvers/kb.resolvers.go:143-172 | signing in or gaining permissions never hides a section or an article |
| KbResolvers.SectionsWhere | internal/models/kb.go:106-146 | the filtered sections are table rows that pass the filter |
| KbResolvers.SectionsWhereComplete | internal/models/kb.go:106-146 | every row that passes the filter is listed |
| KbResolvers.SectionsQuery | graph/resolvers/kb.resolvers.go:109-127 | a query error gives an empty list |
| KbResolvers.SectionsByRole | graph/resolvers/kb.resolvers.go:115-125 | anonymous callers get the Public sections, admins get all of them, and others get Public plus Evaluators Only, with nothing of theirs missing |
| KbResolvers.SectionArticles | graph/resolvers/kb.resolvers.go:89-107 | as written, every admin gets an empty list and an internal error; other callers get their list without error |
| KbResolvers.SectionArticlesByRole | graph/resolvers/kb.resolvers.go:89-107 | an anonymous caller gets the public list, a signed-in non-admin the evaluator list, which contains it and holds only published articles that are not Admins Only; an admin gets [] and an internal error; with the admin query corrected, an admin gets every article of the section |
| KbResolvers.FieldsGate | graph/resolvers/kb.resolvers.go:27-71 | visibility, isPublished, hasDraft and draft are nil without EditKbContent and as stored with it; the author is shown exactly to signed-in callers |
| KbResolvers.SectionVisibilityField | graph/resolvers/kb.resolvers.go:81-88 | the section's visibility only for EditKbContent |
| KbHandlers.GetAllSectionsByRole | handlers/api/knowledge-base.js:10-58 | admins get all sections, other signed-in callers Public and Evaluators Only, anonymous callers Public only, in both directions |
| KbHandlers.GetSectionGate | handlers/api/knowledge-base.js:60-87 | the corrected handler refuses exactly Admins Only to non-admins and Evaluators Only to anonymous callers |
| KbHandlers.AdminsOnlySectionLeaks | handlers/api/knowledge-base.js:71-72 | as written, an Admins Only section is sent to a logged-out caller |
| KbHandlers.DeniedAgreesElsewhere | handlers/api/knowledge-base.js:71-72 | the written and corrected tests differ only on the admin-only spellings |
| KbHandlers.WriteGate | handlers/api/knowledge-base.js:97-109 | 401 logged out, 403 without the permission or admin, 200 otherwise |
| KbHandlers.WithoutSectionMembers | handlers/api/knowledge-base.js:150-151 | deleting a section removes exactly the rows with its id |
| KbHandlers.SectionWritesGated | handlers/api/knowledge-base.js:89-165 | 401/403 leave the table alone; otherwise the insert, the rewrite or the delete happens |
| KbHandlers.SectionArticleTiers | handlers/api/knowledge-base.js:174-187 | admins get all of a section's articles; editors its Public and Evaluators Only ones, published or not; other signed-in callers those published; anonymous callers published Public ones; only admins see Admins Only |
| KbHandlers.TiersNested | handlers/api/knowledge-base.js:174-187 | each tier sees at least what the tier below sees |
| KbHandlers.GetArticle | handlers/api/knowledge-base.js:200-214 | the corrected single-article fetch: 400 without a positive id; 403 exactly for an Admins Only article and a non-admin or an Evaluators Only article and a logged-out caller; the row otherwise |
| KbHandlers.GetArticleIgnoresPublication | handlers/api/knowledge-base.js:200-214 | the single-article fetch never looks at publication |
| KbHandlers.AdminsOnlyArticleLeaks | handlers/api/knowledge-base.js:208-209 | as written, an Admins Only article is sent to a logged-out caller |
| KbHandlers.EditArticleRules | handlers/api/knowledge-base.js:254-290 | an editor's change is stored, with the caller as author, and published only when asked by a caller allowed to publish; a non-admin editing an Admins Only article gets no reply and no change; no other article changes |
| KbHandlers.ArticleWritesGated | handlers/api/knowledge-base.js:227-371 | addArticle, deleteArticle and addArticleDraft: 401 logged out and 403 without edit (delete) KB content or admin, both changing nothing; otherwise the new article or draft is stored unpublished with the caller as author, or only the article's row goes |
| KbHandlers.GetArticleDraftAsWritten | handlers/api/knowledge-base.js:316-342 | 403 without edit, publish or admin; 500 for every other caller |
| KbHandlers.LatestDraftOf | handlers/api/knowledge-base.js:322 | the draft ORDER BY draft_last_updated DESC LIMIT 1 returns: none exactly when the article has no draft, otherwise one of its drafts with no later update time |
| KbHandlers.GetArticleDraft | handlers/api/knowledge-base.js:316-342 | the intended handler reading the query's articleId: 403 exactly without edit, publish or admin; 400 exactly for a permitted caller with a non-positive or unparsable id or a failed query; otherwise the article's latest draft (none without a draft) with the caller's admin flag |
| KbHandlers.GetArticleDraftCorrectionAgrees | handlers/api/knowledge-base.js:318-339 | the written and intended handlers refuse the same callers with 403, and every caller the written one answers with 500 gets a 400 or the draft |
| KbHandlers.PermittedDraftRequestFails | handlers/api/knowledge-base.js:319 | an editor asking for an article that has a draft is answered with 500 as written and sent the draft as intended |
| Session.Decode | middleware/isLoggedIn.js:4-39 | the handlers get the signed payload unchanged when its account is unlocked, a null token without a cookie or with a bad signature, and a locked account is sent to /login |
| Session.ChangePassword | handlers/auth.js:7-37 | a refusal, a 400 or a 500 leaves every password as it was |
| Session.ChangePasswordGate | handlers/auth.js:16-33 | past the permission test exactly when the target is the caller, or the token has permissions with change_user_passwords or is admin; 500 exactly for another evaluator's password and a token without permissions; success changes only the target's hash |
| Session.OwnPasswordAlwaysChangeable | handlers/auth.js:16 | a signed-in evaluator can always change their own password |
| Session.Logout | handlers/auth.js:39-49 | 401 without a token, the cookie kept; otherwise the cookie is cleared and the caller is redirected to /login |
| Session.LogoutEndsSession | handlers/auth.js:39-49 | after logout the middleware passes a null token, and logging out again is 401 |
| Session.MintAsWritten | util/functions.js:4-34 | the token minted for a known kaid carries the row's id and admin flag but no permissions, impersonation or origin; an unknown kaid mints nothing |
| Session.AssumeUserIdentityAsWritten | handlers/auth.js:51-85 | the cookie changes only on success |
| Session.AsWrittenImpersonationCannotRevert | handlers/auth.js:58-83 | as written, the assumed session is not impersonated and has no permissions, so asking to revert from it throws and is answered with 500 |
| Session.MintedSessionLacksPermissions | handlers/auth.js:16 | from a session createJWTToken signed, asking to change another evaluator's password answers 500 |
| Session.AsWrittenUnknownKaidCrashes | util/functions.js:10-20 | as written, assuming a kaid with no evaluator row crashes the handler |
| Session.Mint | util/functions.js:4-34 | the corrected mint signs the origin, so a token with an origin is impersonated; like the written one it signs no permissions |
| Session.AssumeUserIdentity | handlers/auth.js:51-85 | the corrected handler never crashes; a failed mint answers 400 with the cookie cleared; any other non-success keeps the cookie |
| Session.AssumeUserIdentityBranches | handlers/auth.js:58-83 | a permitted non-impersonated caller gets the known target's session with itself as origin; an impersonated caller reverts to its known origin whatever its token holds; 500 exactly for a non-impersonated token without permissions; 403 exactly for one without the right |
| Session.NoNestedImpersonation | handlers/auth.js:58-75 | an impersonated session only comes from a non-impersonated caller and names it as origin; an impersonated caller only gets a plain session |
| Session.AssumeThenRevert | handlers/auth.js:58-75 | assuming an identity and asking again from the new session, as the middleware passes it on, gives back a plain session of the original evaluator |
| Session.MissingTokenStatuses | handlers/auth.js:31-33 | without a token changePassword answers 403, while logout and assumeUserIdentity answer 401 |
| Session.AssumeCorrectionAgrees | handlers/auth.js:51-85 | the corrected handler answers 400 exactly where the written one crashes, gives the same reply everywhere else, and on success signs a session for the same evaluator |
| ClientState.Reduce | client/src/state/appStateReducer.ts:64-82 | LOGOUT gives a signed-out state, LOGIN gives its payload, and any other action leaves the state unchanged |
| ClientState.Logout | client/src/state/appStateReducer.ts:92-96 | the action it builds takes any state to the initial state |
| ClientState.Login | client/src/state/appStateReducer.ts:98-103 | the action it builds takes any state to exactly the payload |
| ClientState.InitialStateSignedOut | client/src/state/appStateReducer.ts:84-90 | the initial state is the only signed-out state |
| ClientState.LogoutIdempotent | client/src/state/appStateReducer.ts:66-74 | logout gives the initial state from any state, so it is idempotent |
| ClientState.LoginForgetsPrior | client/src/state/appStateReducer.ts:75-77 | login forgets the prior state, and logout after it gives the initial state |
| ClientState.Replay | client/src/state/appStateReducer.ts:64-82 | unknown actions alone leave the state as it was |
| ClientState.ReplayAfterLogout | client/src/state/appStateReducer.ts:66-80 | after a LOGOUT followed only by unknown actions the state is the initial one |
| ClientState.ReplayAfterLogin | client/src/state/appStateReducer.ts:75-77 | after a LOGIN followed only by unknown actions the state is the LOGIN's payload |
| ClientState.ReplayForgetsBefore | client/src/state/appStateReducer.ts:64-82 | the state after a sequence of actions depends only on its last LOGIN or LOGOUT and what follows, not on the actions or state before |
| ClientGates.Cell | client/src/shared/Table/Cell/Cell.tsx:16-74 | the loops hide the cell exactly when the gate refuses it; a shown header is a th with its width when non-empty, any other cell a td |
| ClientGates.CellSignedOut | client/src/shared/Table/Cell/Cell.tsx:19-26 | requireLoggedIn, or a permission list for a non-admin, hides the cell from signed-out users |
| ClientGates.CellAdmin | client/src/shared/Table/Cell/Cell.tsx:23 | admins pass any permission list |
| ClientGates.CellWithoutPermissions | client/src/shared/Table/Cell/Cell.tsx:23 | without a permission list only requireLoggedIn matters |
| ClientGates.CellPermissionList | client/src/shared/Table/Cell/Cell.tsx:30-53 | for a signed-in non-admin, with requireAllPermissions shown iff every listed flag is set, otherwise iff some flag is set; so an empty list shows the cell under requireAllPermissions and hides it without |
| ClientGates.CellMonotone | client/src/shared/Table/Cell/Cell.tsx:19-53 | signing in, becoming admin or gaining flags never hides a cell |
| ClientGates.ProtectedRoute | client/src/shared/Routes/ProtectedRoute/ProtectedRoute.tsx:21-72 | signed-out users, and only they, are redirected to /login |
| ClientGates.ProtectedRouteGate | client/src/shared/Routes/ProtectedRoute/ProtectedRoute.tsx:24-71 | the redirect comes before the admin test; admins get the page; a non-admin gets it iff the list is non-empty and all (requireAll) or any of its flags are set |
| ClientGates.CellAgreesWithRoute | client/src/shared/Routes/ProtectedRoute/ProtectedRoute.tsx:37-66 | for a signed-in user and a non-empty list, a cell shows exactly when the route renders its page |
| ClientGates.EmptyListGates | client/src/shared/Routes/ProtectedRoute/ProtectedRoute.tsx:67-71 | an empty list under requireAll shows the cell but refuses the route to non-admins |
| HomeTasks.FirstIndex | client/src/pages/Home/Tasks.tsx:43-54 | the first task with the id, or none when no task has it |
| HomeTasks.TaskLists.UpdateTaskStatus | client/src/pages/Home/Tasks.tsx:36-57 | the first task with the id becomes Started when Not Started and is removed otherwise; the rest is unchanged, and a missing id changes nothing |
| HomeTasks.TaskLists.SignupForTask | client/src/pages/Home/Tasks.tsx:59-80 | the first matching available task moves to the end of my tasks; the lists together keep their tasks; a missing id changes nothing |
| HomeTasks.FirstIndexAt | client/src/pages/Home/Tasks.tsx:43-54 | a task with no earlier namesake is found at its own position |
| HomeTasks.MarkTwiceRemoves | client/src/pages/Home/Tasks.tsx:43-50 | a task marked Started is still found by its id and is no longer Not Started, so the next mark removes it |
| AdminTasks.FindTask | client/src/pages/admin/Tasks/Tasks.tsx:87-90 | the first task with the id; none exactly when no task has it |
| AdminTasks.WithoutTask | client/src/pages/admin/Tasks/Tasks.tsx:128-196 | the filter keeps exactly the tasks with another id |
| AdminTasks.WithoutTaskAppend | client/src/pages/admin/Tasks/Tasks.tsx:190-196 | the filter keeps order |
| AdminTasks.WithoutAbsentTask | client/src/pages/admin/Tasks/Tasks.tsx:190-196 | filtering out an absent id changes nothing |
| AdminTasks.EvaluatorName | client/src/pages/admin/Tasks/Tasks.tsx:236-240 | the name of the first evaluator with the id when it is non-empty, null when that name is empty or no evaluator has the id |
| AdminTasks.AssigneeName | client/src/pages/admin/Tasks/Tasks.tsx:120 | "Available for Sign Up" with no member (null or 0); otherwise the non-empty name of the first evaluator with the member's id, or null |
| AdminTasks.Edited | client/src/pages/admin/Tasks/Tasks.tsx:117-121 | the edited record takes the form's title, date, member and status |
| AdminTasks.TaskPage.constructor | client/src/pages/admin/Tasks/Tasks.tsx:42-63 | the fetched lists, with nothing being edited or deleted |
| AdminTasks.TaskPage.OpenEditTaskModal | client/src/pages/admin/Tasks/Tasks.tsx:86-94 | the edited task is looked up in the incomplete list first, then the complete one |
| AdminTasks.TaskPage.EditInPlace | client/src/pages/admin/Tasks/Tasks.tsx:115-123 | every record with the id is replaced by the edited one, with order and length kept |
| AdminTasks.TaskPage.HandleEditTask | client/src/pages/admin/Tasks/Tasks.tsx:100-175 | nothing without a task being edited; an edit within a status class updates in place; completing or reopening moves the task to the end of the other list; the lists stay sorted by status class |
| AdminTasks.TaskPage.HandleDeleteTask | client/src/pages/admin/Tasks/Tasks.tsx:185-199 | every task with the id leaves both lists, the rest keep their order, and the lists stay sorted |
| AdminTasks.CompleteThenReopen | client/src/pages/admin/Tasks/Tasks.tsx:126-159 | completing then reopening leaves no completed record of the task and only the reopened record in the incomplete list |

## Left out

- Database I/O, connection errors and the 400/500 replies they cause are not modelled: every query is taken to succeed, except where an error path is named above.
- Concurrency is not modelled. The Node handlers issue their UPDATEs without awaiting them; the model runs them one after another, each on a different row.
- The stored functions `get_entry_and_create_placeholder`, `update_entry_level` and `evaluate` are not part of this model. Their claims are inputs (`ClaimRow`).
- Auth.HasPermission: the two-argument HasPermission the resolvers call is not modelled from a definition; it is taken to be "signed in, and admin or holding the flag".
- AddWinner, RemoveWinner, DeleteEntry, the remaining read-only entry queries and all of ImportEntries except its kaid extraction are not modelled.
- EntryTable: the ORDER BY orderings of list queries are not modelled; the knowledge-base lists are sets (`KbStore.PublicArticlesBySection` and others).
- KbStore: foreign keys between drafts and articles are not assumed. DeleteKBArticle, DeleteKBArticleDraft and the section CRUD of kb.go are not modelled.
- KbStore.KnowledgeBase.EditArticle: promises a single pending draft only when there was at most one before, because the tables do not enforce it.
- Evaluations.GetEvaluationsForUserAndContest: the calling user is taken to be signed in; the resolver guarantees it.
- EntryResolvers.EditEntry: the input's group is nullable in the model, as the column is.
- Session: createJWTToken also signs the evaluator's name, email and other profile fields; the model's token keeps the id, kaid, admin flag, permissions and impersonation fields the handlers read. bcrypt is a parameter (the new hash); its failure path is not modelled. A JWT signature is either valid or not (`Unverified`); expiry is not modelled.
- Session.Decode: the login handler that signs the first session of a visit is not modelled; its token is taken to carry a permissions object (`Token.perms` is `Some`), while every token createJWTToken signs has none.
- KbHandlers, LegacyPartition and the other REST handlers take the decoded token to carry a permissions object; a payload without one, such as createJWTToken signs, throws at the first permission read and is answered with 500. Only the session handlers model that case.
- Session.Decode: for a locked account isLoggedIn also runs `UPDATE evaluator SET logged_in = false`; the logged_in column is not modelled, since no modelled handler reads it.
- KbHandlers.AddArticle: the INSERT leaves is_published to its column default, taken to be false; the schema is not modelled.
- KbHandlers.AddArticleDraft: the draft INSERT also leaves is_published to its column default, taken to be false, which is what "stored unpublished" rests on.
- EntryTable.NewRow: CreateEntry's INSERT names neither the level, its lock, the height, the group, the flag and its reason, the disqualification nor the winner mark; they are taken to default to no level, unlocked, 0, no group, unflagged with no reason, not disqualified and not a winner.
- KbHandlers.LatestDraftOf: drafts with equal draft_last_updated come back from the query in an unspecified order; the model returns the first of them in table order.
- The Reply constructors `Crashed` and `Silent` stand for a Node handler that throws inside a callback or sends no response.
- React rendering, the DOM scripts and form state are not modelled. The task pages' copies are shallow in the source, so field assignments also reach the previous state's objects; the model works on values and does not capture that aliasing.
- Floating point: math.Ceil(float64(n)/float64(g)) is modelled as exact integer ceiling division, which matches it for the table sizes at hand.

## Findings

| source | as written | input that shows it | evidently intended | confidence | as-written member | corrected member |
|---|---|---|---|---|---|---|
| internal/auth/auth.go:186-188 | isOwner reads user.ID before any nil check | an anonymous request for a field guarded by ownership of a User object | an anonymous caller is denied with the null-type value | not executed; high | Auth.AnonymousOwnerCheckPanics | Auth.HasPermissionDirectiveDecision |
| graph/resolvers/entries.resolvers.go:280-282 | EditEntry reads entry.Group.ID when the caller lacks AssignEntryGroups | an editor with EditEntries only, editing an entry whose group is NULL | the stored (NULL) group is kept | not executed; high | EntryResolvers.EditEntryNilGroupPanics | EntryResolvers.EditEntryOverrides |
| handlers/api/knowledge-base.js:71-72 | getSection compares with "Admin Only", a value the site never stores | a logged-out request for a section with visibility "Admins Only" | such a section is refused with 403 to non-admins | not executed; high | KbHandlers.AdminsOnlySectionLeaks | KbHandlers.GetSectionGate |
| handlers/api/knowledge-base.js:208-209 | the single-article fetch compares with "Admin Only" | a logged-out request for an article with visibility "Admins Only" | such an article is refused with 403 to non-admins | not executed; high | KbHandlers.AdminsOnlyArticleLeaks | KbHandlers.GetArticle |
| internal/models/kb.go:238 | the admin list binds the section id to the same placeholder $1 as the date format | an admin listing the articles of any section | every article of the section is listed | not executed; medium | KbStore.AdminListFails | KbStore.ArticleListsNested |
| handlers/api/knowledge-base.js:319 | getArticleDraft reads the id from `document.query`, and `document` does not exist on the server, so the read throws and the catch answers 500 | an editor asking for the draft of article 1 | the id is read from `request.query` and the article's latest draft is sent | not executed; high | KbHandlers.GetArticleDraftAsWritten | KbHandlers.GetArticleDraft |
| util/functions.js:4 | createJWTToken takes only the kaid, so assumeUserIdentity's origin is dropped and the new session is not impersonated; asking to revert from it reads the permissions the token lacks and is answered with 500 | an admin assumes a judge's identity, then asks to revert | the assumed session records its origin and reverts to it | not executed; high | Session.AsWrittenImpersonationCannotRevert | Session.AssumeThenRevert |
| util/functions.js:10-20 | a kaid with no evaluator row is destructured from `undefined` inside the query callback | an admin assumes the identity of an unknown kaid | the promise rejects and the handler answers 400 | not executed; medium | Session.AsWrittenUnknownKaidCrashes | Session.AssumeUserIdentity |

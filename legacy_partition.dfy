/**
 * The group handlers of the legacy Express API (handlers/api/entries.js).
 * assignToGroups deals the selected entries, in id order, floor(n / g) to
 * each active group and puts the n mod g left over into the last group, one
 * `UPDATE ... WHERE entry_id = $2` per entry; transferEntryGroups and approve
 * are single UPDATEs. Every handler answers 401 without a token and 403 for a
 * non-admin before it touches the table.
 */
module LegacyPartition {
  import opened Common
  import opened EntryTable
  import opened Ranking
  import opened BlockArith

  /** The entry query of assignToGroups: the whole contest, or only its unassigned entries; disqualified entries are included. */
  function LegacySelection(contestId: int, assignAll: bool): Selection {
    Selection(contestId, false, !assignAll)
  }

  /** The position in the group list that entry position e of n receives from the two loops, with g > 0 groups. */
  function GroupIndex(e: nat, n: nat, g: nat): (i: nat)
    requires 0 < g && e < n
    ensures i < g
  {
    var p := n / g;
    if e < g * p then
      DivBelow(e, p, g);
      e / p
    else g - 1
  }

  /** The end of the positions that group index i receives: the next block, or everything up to n for the last group. */
  function BlockEnd(n: nat, g: nat, i: nat): nat
    requires 0 < g
  {
    if i < g - 1 then (i + 1) * (n / g) else n
  }

  lemma FloorBlocksFit(n: nat, g: nat)
    requires 0 < g
    ensures g * (n / g) <= n
  {
    assert n == g * (n / g) + n % g;
  }

  /** Group index i receives exactly the positions [i * floor(n/g), BlockEnd(n, g, i)). */
  lemma GroupIndexIff(e: nat, n: nat, g: nat, i: nat)
    requires 0 < g && e < n && i < g
    ensures GroupIndex(e, n, g) == i <==> i * (n / g) <= e < BlockEnd(n, g, i)
  {
    var p := n / g;
    FloorBlocksFit(n, g);
    MulMono(i + 1, g, p);
    if e < g * p {
      DivBelow(e, p, g);
      InBlockIff(e, p, i);
    } else {
      MulMono(g - 1, i, p);
      MulSucc(g - 1, p);
    }
  }

  /** Both loops together visit each position below n exactly once: a position is in the block of exactly one inner loop, or in the remainder loop. */
  predicate InInnerBlock(e: nat, p: nat, b: nat) {
    b * p <= e < (b + 1) * p
  }

  lemma LoopsCoverOnce(e: nat, n: nat, g: nat)
    requires 0 < g && e < n
    ensures e < g * (n / g) <==> exists b :: 0 <= b < g && InInnerBlock(e, n / g, b)
    ensures forall b :: 0 <= b < g && InInnerBlock(e, n / g, b) ==> b == GroupIndex(e, n, g)
    ensures e >= g * (n / g) ==> GroupIndex(e, n, g) == g - 1
  {
    var p := n / g;
    forall b | 0 <= b < g && InInnerBlock(e, p, b)
      ensures b == GroupIndex(e, n, g) && e < g * p
    {
      InnerBlockIsIndex(e, n, g, b);
    }
    if e < g * p {
      InnerBlockOf(e, p, g);
      var q := e / p;
      assert 0 <= q < g && InInnerBlock(e, p, q);
    }
  }

  lemma InnerBlockOf(e: nat, p: nat, g: nat)
    requires e < g * p
    ensures 0 <= e / p < g && InInnerBlock(e, p, e / p)
  {
    DivBelow(e, p, g);
    DivBlockBounds(e, p);
    var q := e / p;
    assert q * p <= e < (q + 1) * p;
  }

  lemma InnerBlockIsIndex(e: nat, n: nat, g: nat, b: nat)
    requires 0 < g && e < n && b < g && InInnerBlock(e, n / g, b)
    ensures b == GroupIndex(e, n, g) && e < g * (n / g)
  {
    var p := n / g;
    DivInBlock(e, p, b);
    MulMono(b + 1, g, p);
  }

  /** How many of the positions 0 .. m-1 receive group index i. */
  function IndexCount(n: nat, g: nat, i: nat, m: nat): nat
    requires 0 < g && m <= n
  {
    if m == 0 then 0
    else IndexCount(n, g, i, m - 1) + (if GroupIndex(m - 1, n, g) == i then 1 else 0)
  }

  lemma {:induction false} IndexCountClamp(n: nat, g: nat, i: nat, m: nat)
    requires 0 < g && m <= n && i < g
    ensures i * (n / g) <= BlockEnd(n, g, i)
    ensures IndexCount(n, g, i, m) == Clamp(m, i * (n / g), BlockEnd(n, g, i)) - i * (n / g)
  {
    FloorBlocksFit(n, g);
    MulMono(i, i + 1, n / g);
    MulMono(i, g, n / g);
    if m > 0 {
      IndexCountClamp(n, g, i, m - 1);
      GroupIndexIff(m - 1, n, g, i);
    }
  }

  /** Every group but the last receives floor(n/g) positions; the last receives floor(n/g) + n mod g. */
  lemma LegacyBlockSizes(n: nat, g: nat, i: nat)
    requires 0 < g && i < g
    ensures IndexCount(n, g, i, n) == if i < g - 1 then n / g else n / g + n % g
  {
    var p := n / g;
    var r := n % g;
    assert n == g * p + r;
    IndexCountClamp(n, g, i, n);
    if i < g - 1 {
      assert BlockEnd(n, g, i) == (i + 1) * p;
      InnerBlockClamp(n, g, p, i);
    } else {
      assert BlockEnd(n, g, i) == n && i == g - 1;
      LastBlockClamp(n, g, p, r);
    }
  }

  /** An inner block [i*p, (i+1)*p) lies below n, so all of it is counted. */
  lemma InnerBlockClamp(n: nat, g: nat, p: nat, i: nat)
    requires i + 1 < g && g * p <= n
    ensures Clamp(n, i * p, (i + 1) * p) - i * p == p
  {
    MulMono(i + 1, g, p);
    MulMono(i, i + 1, p);
    MulSucc(i, p);
  }

  /** The last block runs from (g-1)*p up to n = g*p + r, so it holds p + r positions. */
  lemma LastBlockClamp(n: nat, g: nat, p: nat, r: nat)
    requires 0 < g && n == g * p + r
    ensures Clamp(n, (g - 1) * p, n) - (g - 1) * p == p + r
  {
    var q := g - 1;
    MulSucc(q, p);
    assert q + 1 == g;
  }

  /** Ten entries over three groups: 3, 3 and 4. */
  lemma TenEntriesThreeGroups()
    ensures IndexCount(10, 3, 0, 10) == 3
    ensures IndexCount(10, 3, 1, 10) == 3
    ensures IndexCount(10, 3, 2, 10) == 4
  {
    LegacyBlockSizes(10, 3, 0);
    LegacyBlockSizes(10, 3, 1);
    LegacyBlockSizes(10, 3, 2);
  }

  /** With fewer entries than groups the blocks are empty and every entry lands in the last group. */
  lemma FewerEntriesThanGroups(e: nat, n: nat, g: nat)
    requires e < n < g
    ensures GroupIndex(e, n, g) == g - 1
  {
    assert n / g == 0;
  }

  /** `SELECT entry_id ... ORDER BY entry_id` over the first k rows. */
  function SelectedIds(s: seq<Entry>, sel: Selection, k: nat): (ids: seq<int>)
    requires k <= |s|
    ensures |ids| == Rank(s, k, sel)
  {
    if k == 0 then []
    else SelectedIds(s, sel, k - 1) + (if Selected(s[k - 1], sel) then [s[k - 1].id] else [])
  }

  /** The selected row of rank r is the r-th id of the query result. */
  lemma {:induction false} SelectedIdsAt(s: seq<Entry>, sel: Selection, k: nat, j: nat)
    requires j < k <= |s| && Selected(s[j], sel)
    ensures Rank(s, j, sel) < |SelectedIds(s, sel, k)|
    ensures SelectedIds(s, sel, k)[Rank(s, j, sel)] == s[j].id
  {
    RankStrict(s, j, k, sel);
    if j < k - 1 {
      SelectedIdsAt(s, sel, k - 1, j);
    }
  }

  /** Every rank below the count belongs to some selected row. */
  lemma {:induction false} RankOnto(s: seq<Entry>, sel: Selection, k: nat, r: nat)
    requires k <= |s| && r < Rank(s, k, sel)
    ensures exists j :: 0 <= j < k && Selected(s[j], sel) && Rank(s, j, sel) == r
  {
    if r < Rank(s, k - 1, sel) {
      RankOnto(s, sel, k - 1, r);
    } else {
      assert Selected(s[k - 1], sel) && Rank(s, k - 1, sel) == r;
    }
  }

  /** Runs the entry query of assignToGroups. */
  method SelectEntryIds(a: array<Entry>, sel: Selection) returns (ids: seq<int>)
    ensures ids == SelectedIds(a[..], sel, a.Length)
  {
    ids := [];
    for k := 0 to a.Length
      invariant ids == SelectedIds(a[..], sel, k)
    {
      if Selected(a[k], sel) {
        ids := ids + [a[k].id];
      }
    }
  }

  /** Row k once the selected rows of rank below m have received their groups. */
  function DealtRow(s: seq<Entry>, k: nat, sel: Selection, groups: seq<int>, m: nat): Entry
    requires k < |s| && |groups| > 0
  {
    if Selected(s[k], sel) && Rank(s, k, sel) < m then
      RankBelowCount(s, k, sel);
      s[k].(group := Some(groups[GroupIndex(Rank(s, k, sel), Count(s, sel), |groups|)]))
    else s[k]
  }

  /** The table once the selected rows of rank below m have received their groups. */
  function Dealt(s: seq<Entry>, sel: Selection, groups: seq<int>, m: nat): (t: seq<Entry>)
    requires |groups| > 0
    ensures |t| == |s|
  {
    seq(|s|, k requires 0 <= k < |s| => DealtRow(s, k, sel, groups, m))
  }

  /** The table after assignToGroups: unchanged without active groups (floor(n/0) is not a number, so no loop runs). */
  function LegacyAssigned(s: seq<Entry>, sel: Selection, groups: seq<int>): (t: seq<Entry>)
    ensures |t| == |s|
  {
    if |groups| == 0 then s else Dealt(s, sel, groups, Count(s, sel))
  }

  /** One `UPDATE entry SET assigned_group_id = $1 WHERE entry_id = $2` for the entry of rank m. */
  lemma DealStep(s: seq<Entry>, sel: Selection, groups: seq<int>, m: nat)
    requires IdsAscending(s) && |groups| > 0 && m < Count(s, sel)
    ensures m < |SelectedIds(s, sel, |s|)|
    ensures Updated(Dealt(s, sel, groups, m), ById(SelectedIds(s, sel, |s|)[m]),
                    SetGroup(groups[GroupIndex(m, Count(s, sel), |groups|)]))
         == Dealt(s, sel, groups, m + 1)
  {
    RankOnto(s, sel, |s|, m);
    var j :| 0 <= j < |s| && Selected(s[j], sel) && Rank(s, j, sel) == m;
    SelectedIdsAt(s, sel, |s|, j);
    var gid := groups[GroupIndex(m, Count(s, sel), |groups|)];
    var t := Dealt(s, sel, groups, m);
    var u := Updated(t, ById(s[j].id), SetGroup(gid));
    forall k | 0 <= k < |s|
      ensures u[k] == DealtRow(s, k, sel, groups, m + 1)
    {
      if k != j {
        assert s[k].id != s[j].id;
        if Selected(s[k], sel) {
          if k < j { RankStrict(s, k, j, sel); } else { RankStrict(s, j, k, sel); }
        }
      }
    }
  }

  /** Before the first UPDATE nothing has been dealt. */
  lemma NoneDealtYet(s: seq<Entry>, sel: Selection, groups: seq<int>)
    requires |groups| > 0
    ensures Dealt(s, sel, groups, 0) == s
  {
  }

  /**
   * assignToGroups: 401 without a token, 403 for a non-admin (both before
   * any query), otherwise every selected entry receives its group and the
   * handler answers with the success message.
   */
  method AssignToGroups(a: array<Entry>, signedIn: bool, isAdmin: bool, contestId: int,
                        assignAll: bool, groups: seq<int>) returns (status: Status)
    requires IdsAscending(a[..])
    modifies a
    ensures !signedIn ==> status == Unauthorized401 && a[..] == old(a[..])
    ensures signedIn && !isAdmin ==> status == Forbidden403 && a[..] == old(a[..])
    ensures signedIn && isAdmin ==>
              status == Ok200 && a[..] == LegacyAssigned(old(a[..]), LegacySelection(contestId, assignAll), groups)
  {
    if !signedIn {
      return Unauthorized401;
    }
    if !isAdmin {
      return Forbidden403;
    }
    var sel := LegacySelection(contestId, assignAll);
    ghost var s := a[..];
    var entries := SelectEntryIds(a, sel);
    var g := |groups|;
    if g > 0 {
      var n := |entries|;
      var perGroup := n / g;
      FloorBlocksFit(n, g);
      NoneDealtYet(s, sel, groups);
      for group := 0 to g
        invariant group * perGroup <= g * perGroup
        invariant a[..] == Dealt(s, sel, groups, group * perGroup)
      {
        MulMono(group + 1, g, perGroup);
        MulSucc(group, perGroup);
        for entry := group * perGroup to (group + 1) * perGroup
          invariant a[..] == Dealt(s, sel, groups, entry)
        {
          DivInBlock(entry, perGroup, group);
          DealStep(s, sel, groups, entry);
          Update(a, ById(entries[entry]), SetGroup(groups[group]));
        }
      }
      for entry := g * perGroup to n
        invariant a[..] == Dealt(s, sel, groups, entry)
      {
        DealStep(s, sel, groups, entry);
        Update(a, ById(entries[entry]), SetGroup(groups[g - 1]));
      }
    }
    status := Ok200;
  }

  /**
   * What assignToGroups does to each row: a selected row of rank r gets
   * groups[GroupIndex(r, n, g)], so no selected row stays unassigned; no
   * other column of it changes, and a row outside the selection (another
   * contest or, without assignAll, one already in a group) is untouched.
   */
  lemma LegacyAssignsRow(s: seq<Entry>, sel: Selection, groups: seq<int>, k: nat)
    requires k < |s| && |groups| > 0
    ensures LegacyAssigned(s, sel, groups)[k].(group := s[k].group) == s[k]
    ensures Selected(s[k], sel) ==>
              Rank(s, k, sel) < Count(s, sel)
              && LegacyAssigned(s, sel, groups)[k].group
                 == Some(groups[GroupIndex(Rank(s, k, sel), Count(s, sel), |groups|)])
    ensures !Selected(s[k], sel) ==> LegacyAssigned(s, sel, groups)[k] == s[k]
  {
    if Selected(s[k], sel) {
      RankBelowCount(s, k, sel);
    }
  }

  /** Without assignAll, entries that already have a group keep it. */
  lemma AssignedEntriesKeepGroup(s: seq<Entry>, contestId: int, groups: seq<int>, k: nat)
    requires k < |s| && s[k].group.Some?
    ensures LegacyAssigned(s, LegacySelection(contestId, false), groups)[k] == s[k]
  {
    if |groups| > 0 {
      LegacyAssignsRow(s, LegacySelection(contestId, false), groups, k);
    }
  }

  /** With assignAll, disqualified entries of the contest are dealt like any other. */
  lemma AssignAllIncludesDisqualified(s: seq<Entry>, contestId: int, groups: seq<int>, k: nat)
    requires k < |s| && s[k].contestId == contestId && |groups| > 0
    ensures LegacyAssigned(s, LegacySelection(contestId, true), groups)[k].group.Some?
  {
    LegacyAssignsRow(s, LegacySelection(contestId, true), groups, k);
  }

  /** Table t puts row j, if selected, into the group of its rank's position. */
  predicate DealtByIndex(s: seq<Entry>, t: seq<Entry>, sel: Selection, groups: seq<int>, j: nat)
    requires |t| == |s| && j < |s| && |groups| > 0
  {
    Selected(s[j], sel) ==>
      (RankBelowCount(s, j, sel);
       t[j].group == Some(groups[GroupIndex(Rank(s, j, sel), Count(s, sel), |groups|)]))
  }

  lemma {:induction false} InGroupIsIndexCount(s: seq<Entry>, t: seq<Entry>, sel: Selection,
                                               groups: seq<int>, i: nat, k: nat)
    requires |t| == |s| && i < |groups| && Distinct(groups) && k <= |s|
    requires forall j :: 0 <= j < |s| ==> DealtByIndex(s, t, sel, groups, j)
    ensures Rank(s, k, sel) <= Count(s, sel)
    ensures InGroup(s, t, k, sel, groups[i]) == IndexCount(Count(s, sel), |groups|, i, Rank(s, k, sel))
  {
    RankMonotone(s, k, |s|, sel);
    if k > 0 {
      InGroupIsIndexCount(s, t, sel, groups, i, k - 1);
      if Selected(s[k - 1], sel) {
        assert DealtByIndex(s, t, sel, groups, k - 1);
        RankBelowCount(s, k - 1, sel);
      }
    }
  }

  /**
   * With distinct active groups, every group but the last ends up with
   * floor(n/g) of the n selected entries and the last with
   * floor(n/g) + n mod g.
   */
  lemma LegacyGroupSizes(s: seq<Entry>, sel: Selection, groups: seq<int>, i: nat)
    requires Distinct(groups) && i < |groups|
    ensures var n := Count(s, sel);
            var g := |groups|;
            InGroup(s, LegacyAssigned(s, sel, groups), |s|, sel, groups[i])
            == if i < g - 1 then n / g else n / g + n % g
  {
    var t := LegacyAssigned(s, sel, groups);
    forall j | 0 <= j < |s|
      ensures DealtByIndex(s, t, sel, groups, j)
    {
      LegacyAssignsRow(s, sel, groups, j);
    }
    InGroupIsIndexCount(s, t, sel, groups, i, |s|);
    LegacyBlockSizes(Count(s, sel), |groups|, i);
  }

  /** Fewer selected entries than active groups: all of them go to the last group. */
  lemma LegacyFewerEntriesThanGroups(s: seq<Entry>, sel: Selection, groups: seq<int>, k: nat)
    requires k < |s| && Selected(s[k], sel) && Count(s, sel) < |groups|
    ensures LegacyAssigned(s, sel, groups)[k].group == Some(groups[|groups| - 1])
  {
    LegacyAssignsRow(s, sel, groups, k);
    FewerEntriesThanGroups(Rank(s, k, sel), Count(s, sel), |groups|);
  }

  /** transferEntryGroups: one UPDATE moving the contest's entries of one group to another, admins only. */
  method TransferEntryGroups(a: array<Entry>, signedIn: bool, isAdmin: bool, contestId: int,
                             currentGroup: int, newGroup: int) returns (status: Status)
    modifies a
    ensures !signedIn ==> status == Unauthorized401 && a[..] == old(a[..])
    ensures signedIn && !isAdmin ==> status == Forbidden403 && a[..] == old(a[..])
    ensures signedIn && isAdmin ==>
              status == Ok200
              && a[..] == Updated(old(a[..]), InGroupOfContest(contestId, currentGroup), SetGroup(newGroup))
  {
    if !signedIn {
      return Unauthorized401;
    }
    if !isAdmin {
      return Forbidden403;
    }
    Update(a, InGroupOfContest(contestId, currentGroup), SetGroup(newGroup));
    status := Ok200;
  }

  /** approve: one UPDATE clearing both the flagged and the disqualified mark, admins only. */
  method ApproveEntry(a: array<Entry>, signedIn: bool, isAdmin: bool, entryId: int) returns (status: Status)
    modifies a
    ensures !signedIn ==> status == Unauthorized401 && a[..] == old(a[..])
    ensures signedIn && !isAdmin ==> status == Forbidden403 && a[..] == old(a[..])
    ensures signedIn && isAdmin ==> status == Ok200 && a[..] == Updated(old(a[..]), ById(entryId), Approve)
  {
    if !signedIn {
      return Unauthorized401;
    }
    if !isAdmin {
      return Forbidden403;
    }
    Update(a, ById(entryId), Approve);
    status := Ok200;
  }
}

/**
 * AssignAllEntriesToGroups and AssignNewEntriesToGroups of
 * internal/models/entries.go: the selected entries, in id order, are cut
 * into consecutive blocks of ceil(N/g) rows, one block per active group
 * (groups in ascending id order), by one UPDATE ... LIMIT/OFFSET per group.
 */
module GoPartition {
  import opened Common
  import opened EntryTable
  import opened Ranking
  import opened BlockArith

  /** The integer value of math.Ceil(float64(n) / float64(g)) for g > 0. */
  function CeilDiv(n: nat, g: nat): (l: nat)
    requires g > 0
    ensures n <= g * l < n + g
  {
    var l := (n + g - 1) / g;
    CeilDivBounds(n, g, l);
    l
  }

  lemma CeilDivBounds(n: nat, g: nat, l: nat)
    requires g > 0 && l == (n + g - 1) / g
    ensures n <= g * l < n + g
  {
    var r := (n + g - 1) % g;
    assert n + g - 1 == g * l + r;
  }

  /** Row k once the first `done` block UPDATEs with block length l have run. */
  function BlockRow(s: seq<Entry>, k: nat, sel: Selection, groups: seq<int>, l: nat, done: nat): Entry
    requires k < |s| && done <= |groups|
  {
    var r := Rank(s, k, sel);
    if Selected(s[k], sel) && r < done * l then
      DivBelow(r, l, done);
      s[k].(group := Some(groups[r / l]))
    else s[k]
  }

  /** The whole table after the first `done` block UPDATEs. */
  function Blocks(s: seq<Entry>, sel: Selection, groups: seq<int>, l: nat, done: nat): (t: seq<Entry>)
    requires done <= |groups|
    ensures |t| == |s|
  {
    seq(|s|, k requires 0 <= k < |s| => BlockRow(s, k, sel, groups, l, done))
  }

  /** Block length, and the table after all blocks, for one selection. */
  function Partitioned(s: seq<Entry>, sel: Selection, groups: seq<int>): (t: seq<Entry>)
    ensures |t| == |s|
  {
    if |groups| == 0 then s
    else Blocks(s, sel, groups, CeilDiv(Count(s, sel), |groups|), |groups|)
  }

  /** The rows AssignAllEntriesToGroups numbers: the contest's entries that are not disqualified. */
  function AllSelection(contestId: int): Selection {
    Selection(contestId, true, false)
  }

  /** The rows AssignNewEntriesToGroups numbers: those of them that have no group yet. */
  function NewSelection(contestId: int): Selection {
    Selection(contestId, true, true)
  }

  /** `SELECT COUNT(*) FROM entry WHERE <sel>`. */
  method CountSelected(a: array<Entry>, sel: Selection) returns (n: nat)
    ensures n == Count(a[..], sel)
  {
    n := 0;
    for k := 0 to a.Length
      invariant n == Rank(a[..], k, sel)
    {
      if Selected(a[k], sel) {
        n := n + 1;
      }
    }
  }

  /** Row k after setting group g on the selected rows whose rank lies in [lo, hi). */
  function WindowRow(s: seq<Entry>, k: nat, sel: Selection, lo: int, hi: int, g: int): Entry
    requires k < |s|
  {
    if Selected(s[k], sel) && lo <= Rank(s, k, sel) < hi then s[k].(group := Some(g)) else s[k]
  }

  function WindowUpdated(s: seq<Entry>, sel: Selection, lo: int, hi: int, g: int): (t: seq<Entry>)
    ensures |t| == |s|
  {
    seq(|s|, k requires 0 <= k < |s| => WindowRow(s, k, sel, lo, hi, g))
  }

  /**
   * `UPDATE entry SET assigned_group_id = g WHERE entry_id IN (SELECT entry_id
   * FROM entry WHERE <sel> ORDER BY entry_id ASC LIMIT limit OFFSET offset)`:
   * the subquery ranks the rows of the table as it is when the statement runs.
   * The array holds the table in ascending entry_id order, as the table's
   * rows are kept everywhere in this model, so a row's rank among the
   * selected rows before it is its ORDER BY entry_id rank.
   */
  method UpdateWindow(a: array<Entry>, sel: Selection, offset: nat, limit: nat, g: int)
    modifies a
    ensures a[..] == WindowUpdated(old(a[..]), sel, offset, offset + limit, g)
  {
    ghost var s := a[..];
    var rank := 0;
    for k := 0 to a.Length
      invariant rank == Rank(s, k, sel)
      invariant forall j :: 0 <= j < k ==> a[j] == WindowRow(s, j, sel, offset, offset + limit, g)
      invariant forall j :: k <= j < a.Length ==> a[j] == s[j]
    {
      if Selected(a[k], sel) {
        if offset <= rank < offset + limit {
          a[k] := a[k].(group := Some(g));
        }
        rank := rank + 1;
      }
    }
  }

  /**
   * AssignAllEntriesToGroups: one UPDATE per active group, the OFFSET
   * advancing by the block length. Array positions stand for entry_id
   * order, as for UpdateWindow.
   */
  method AssignAllEntriesToGroups(a: array<Entry>, contestId: int, groups: seq<int>)
    modifies a
    ensures a[..] == Partitioned(old(a[..]), AllSelection(contestId), groups)
    ensures |groups| == 0 ==> a[..] == old(a[..])
  {
    ghost var s := a[..];
    var sel := AllSelection(contestId);
    var entryCount := CountSelected(a, sel);
    var limit := if |groups| == 0 then 0 else CeilDiv(entryCount, |groups|);
    var offset := 0;
    NoBlocksYet(s, sel, groups, limit);
    for i := 0 to |groups|
      invariant offset == i * limit
      invariant a[..] == Blocks(s, sel, groups, limit, i)
    {
      AllBlockStep(s, sel, groups, limit, i);
      UpdateWindow(a, sel, offset, limit, groups[i]);
      offset := offset + limit;
    }
  }

  /**
   * AssignNewEntriesToGroups: one UPDATE per active group, each taking the
   * first `limit` rows still without a group. Array positions stand for
   * entry_id order, as for UpdateWindow.
   */
  method AssignNewEntriesToGroups(a: array<Entry>, contestId: int, groups: seq<int>)
    modifies a
    ensures a[..] == Partitioned(old(a[..]), NewSelection(contestId), groups)
    ensures |groups| == 0 ==> a[..] == old(a[..])
  {
    ghost var s := a[..];
    var sel := NewSelection(contestId);
    var entryCount := CountSelected(a, sel);
    var limit := if |groups| == 0 then 0 else CeilDiv(entryCount, |groups|);
    NoBlocksYet(s, sel, groups, limit);
    for i := 0 to |groups|
      invariant a[..] == Blocks(s, sel, groups, limit, i)
    {
      NewBlockStep(s, sel, groups, limit, i);
      UpdateWindow(a, sel, 0, limit, groups[i]);
    }
  }

  lemma NoBlocksYet(s: seq<Entry>, sel: Selection, groups: seq<int>, l: nat)
    ensures Blocks(s, sel, groups, l, 0) == s
  {
  }

  /**
   * One row across block i: the row is written iff it is selected and its
   * rank is inside block i; a row of lower rank was written before.
   */
  lemma BlockRowStep(s: seq<Entry>, k: nat, sel: Selection, groups: seq<int>, l: nat, i: nat)
    requires k < |s| && i < |groups|
    ensures var r := Rank(s, k, sel);
      Selected(s[k], sel) && i * l <= r < (i + 1) * l ==>
        BlockRow(s, k, sel, groups, l, i) == s[k] &&
        BlockRow(s, k, sel, groups, l, i + 1) == s[k].(group := Some(groups[i]))
    ensures var r := Rank(s, k, sel);
      !(Selected(s[k], sel) && i * l <= r < (i + 1) * l) ==>
        BlockRow(s, k, sel, groups, l, i + 1) == BlockRow(s, k, sel, groups, l, i)
    ensures Selected(s[k], sel) && Rank(s, k, sel) < i * l ==> BlockRow(s, k, sel, groups, l, i).group.Some?
  {
    var r := Rank(s, k, sel);
    if Selected(s[k], sel) && i * l <= r < (i + 1) * l {
      DivInBlock(r, l, i);
    }
    MulMono(i, i + 1, l);
  }

  /** The i-th UPDATE of AssignAllEntriesToGroups writes block i: writing groups does not change the selection. */
  lemma AllBlockStep(s: seq<Entry>, sel: Selection, groups: seq<int>, l: nat, i: nat)
    requires i < |groups| && !sel.onlyUnassigned
    ensures WindowUpdated(Blocks(s, sel, groups, l, i), sel, i * l, i * l + l, groups[i])
         == Blocks(s, sel, groups, l, i + 1)
  {
    var cur := Blocks(s, sel, groups, l, i);
    var lo, hi := i * l, i * l + l;
    assert hi == (i + 1) * l;
    forall k | 0 <= k < |s|
      ensures WindowRow(cur, k, sel, lo, hi, groups[i]) == BlockRow(s, k, sel, groups, l, i + 1)
    {
      RankBySelection(cur, s, k, sel);
      BlockRowStep(s, k, sel, groups, l, i);
    }
  }

  /**
   * Before block i, the rows still selected by AssignNewEntriesToGroups are
   * those of original rank at least i*l, so their current rank is the
   * original rank minus i*l.
   */
  lemma {:induction false} NewRankShift(s: seq<Entry>, sel: Selection, groups: seq<int>, l: nat, i: nat, k: nat)
    requires i < |groups| && sel.onlyUnassigned && k <= |s|
    ensures Rank(Blocks(s, sel, groups, l, i), k, sel) == Clamp(Rank(s, k, sel), i * l, Rank(s, k, sel)) - i * l
  {
    if k > 0 {
      NewRankShift(s, sel, groups, l, i, k - 1);
      BlockRowStep(s, k - 1, sel, groups, l, i);
      MulMono(i, i + 1, l);
    }
  }

  /** The i-th UPDATE of AssignNewEntriesToGroups, taking the first l unassigned rows, writes block i. */
  lemma NewBlockStep(s: seq<Entry>, sel: Selection, groups: seq<int>, l: nat, i: nat)
    requires i < |groups| && sel.onlyUnassigned
    ensures WindowUpdated(Blocks(s, sel, groups, l, i), sel, 0, 0 + l, groups[i])
         == Blocks(s, sel, groups, l, i + 1)
  {
    var cur := Blocks(s, sel, groups, l, i);
    forall k | 0 <= k < |s|
      ensures WindowRow(cur, k, sel, 0, l, groups[i]) == BlockRow(s, k, sel, groups, l, i + 1)
    {
      NewRankShift(s, sel, groups, l, i, k);
      BlockRowStep(s, k, sel, groups, l, i);
      MulMono(i, i + 1, l);
    }
  }

  /**
   * With at least one active group, a selected entry of rank r gets
   * groups[r / ceil(N/g)], an entry outside the selection (disqualified, or
   * of another contest, or already grouped for AssignNew) keeps its row,
   * and no column other than the group ever changes.
   */
  lemma PartitionAssignsBlocks(s: seq<Entry>, sel: Selection, groups: seq<int>, k: nat)
    requires |groups| > 0 && k < |s|
    ensures var t := Partitioned(s, sel, groups);
      var l := CeilDiv(Count(s, sel), |groups|);
      t[k] == s[k].(group := t[k].group)
      && (Selected(s[k], sel) ==>
            l > 0 && Rank(s, k, sel) / l < |groups| && t[k].group == Some(groups[Rank(s, k, sel) / l]))
      && (!Selected(s[k], sel) ==> t[k] == s[k])
  {
    var l := CeilDiv(Count(s, sel), |groups|);
    if Selected(s[k], sel) {
      RankBelowCount(s, k, sel);
      DivBelow(Rank(s, k, sel), l, |groups|);
    }
  }

  /** After AssignNewEntriesToGroups no selected entry is left without a group, and grouped entries are untouched. */
  lemma NoneLeftUnassigned(s: seq<Entry>, contestId: int, groups: seq<int>)
    requires |groups| > 0
    ensures var t := Partitioned(s, NewSelection(contestId), groups);
      forall k :: 0 <= k < |t| ==> !Selected(t[k], NewSelection(contestId))
    ensures var t := Partitioned(s, NewSelection(contestId), groups);
      forall k :: 0 <= k < |s| && s[k].group.Some? ==> t[k] == s[k]
  {
    forall k | 0 <= k < |s| {
      PartitionAssignsBlocks(s, NewSelection(contestId), groups, k);
    }
  }

  /** Entries are dealt in id order: a lower-id selected entry never goes to a later group. */
  lemma EarlierEntryEarlierGroup(s: seq<Entry>, sel: Selection, groups: seq<int>, i: nat, j: nat)
    requires |groups| > 0 && i < j < |s| && Selected(s[i], sel) && Selected(s[j], sel)
    ensures var l := CeilDiv(Count(s, sel), |groups|);
      l > 0 && Rank(s, i, sel) / l <= Rank(s, j, sel) / l
  {
    var l := CeilDiv(Count(s, sel), |groups|);
    RankBelowCount(s, i, sel);
    RankStrict(s, i, j, sel);
    DivMono(Rank(s, i, sel), Rank(s, j, sel), l);
  }

  /** min(l, max(0, n - i*l)): the number of rows block i of length l receives out of n. */
  function BlockSize(n: nat, l: nat, i: nat): nat {
    if n <= i * l then 0 else if n - i * l < l then n - i * l else l
  }

  /** Table t puts row j, if selected with rank r, into groups[r / l]. */
  predicate DealtByRank(s: seq<Entry>, t: seq<Entry>, sel: Selection, groups: seq<int>, l: nat, j: nat)
    requires |t| == |s| && j < |s|
  {
    Selected(s[j], sel) ==>
      l > 0 && Rank(s, j, sel) / l < |groups| && t[j].group == Some(groups[Rank(s, j, sel) / l])
  }

  /** Counting group i of any table that puts each selected row of rank r into groups[r / l]. */
  lemma {:induction false} InGroupIsWindow(s: seq<Entry>, t: seq<Entry>, sel: Selection, groups: seq<int>,
                                           l: nat, i: nat, k: nat)
    requires |t| == |s| && i < |groups| && Distinct(groups) && k <= |s|
    requires forall j :: 0 <= j < |s| ==> DealtByRank(s, t, sel, groups, l, j)
    ensures InGroup(s, t, k, sel, groups[i]) == InWindow(s, k, sel, i * l, (i + 1) * l)
  {
    if k > 0 {
      InGroupIsWindow(s, t, sel, groups, l, i, k - 1);
      if Selected(s[k - 1], sel) {
        assert DealtByRank(s, t, sel, groups, l, k - 1);
        var r := Rank(s, k - 1, sel);
        var b := r / l;
        assert t[k - 1].group == Some(groups[b]);
        InBlockIff(r, l, i);
        assert groups[b] == groups[i] <==> b == i;
      }
    }
  }

  /**
   * Group i receives exactly min(L, max(0, N - i*L)) of the N selected
   * entries, L = ceil(N/g) (active group ids are distinct).
   */
  lemma BlockSizes(s: seq<Entry>, sel: Selection, groups: seq<int>, i: nat)
    requires i < |groups| && Distinct(groups)
    ensures InGroup(s, Partitioned(s, sel, groups), |s|, sel, groups[i])
         == BlockSize(Count(s, sel), CeilDiv(Count(s, sel), |groups|), i)
  {
    var l := CeilDiv(Count(s, sel), |groups|);
    var t := Partitioned(s, sel, groups);
    forall j | 0 <= j < |s|
      ensures DealtByRank(s, t, sel, groups, l, j)
    {
      PartitionAssignsBlocks(s, sel, groups, j);
    }
    InGroupIsWindow(s, t, sel, groups, l, i, |s|);
    WindowCount(s, |s|, sel, i * l, (i + 1) * l);
    assert (i + 1) * l == i * l + l;
  }

  /** Block sizes never grow from one group to the next, so late groups may be short or empty. */
  lemma BlockSizeNonIncreasing(n: nat, l: nat, i: nat, j: nat)
    requires i <= j
    ensures BlockSize(n, l, j) <= BlockSize(n, l, i)
  {
    MulMono(i, j, l);
  }

  /** Ten entries over three groups: blocks of 4, 4 and 2, which is not within one of each other. */
  lemma TenEntriesThreeGroups()
    ensures CeilDiv(10, 3) == 4
    ensures BlockSize(10, 4, 0) == 4 && BlockSize(10, 4, 1) == 4 && BlockSize(10, 4, 2) == 2
  {
  }
}

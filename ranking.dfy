/**
 * The row selections of the group-assignment queries and the position of a
 * row in their `ORDER BY entry_id` result. Because the table is kept in id
 * order, the position of a selected row is the number of selected rows
 * before it.
 */
module Ranking {
  import opened Common
  import opened EntryTable

  /** Which rows an assignment query selects from the entry table. */
  datatype Selection = Selection(contestId: int, skipDisqualified: bool, onlyUnassigned: bool)

  predicate Selected(e: Entry, sel: Selection) {
    e.contestId == sel.contestId
    && (!sel.skipDisqualified || !e.disqualified)
    && (!sel.onlyUnassigned || e.group.None?)
  }

  /** The number of selected rows among the first k: the rank of row k in the ordered result. */
  function Rank(s: seq<Entry>, k: nat, sel: Selection): (r: nat)
    requires k <= |s|
    ensures r <= k
  {
    if k == 0 then 0
    else Rank(s, k - 1, sel) + (if Selected(s[k - 1], sel) then 1 else 0)
  }

  /** SELECT COUNT(*) over the selection. */
  function Count(s: seq<Entry>, sel: Selection): nat {
    Rank(s, |s|, sel)
  }

  /** Ranks only grow along the table. */
  lemma {:induction false} RankMonotone(s: seq<Entry>, i: nat, j: nat, sel: Selection)
    requires i <= j <= |s|
    ensures Rank(s, i, sel) <= Rank(s, j, sel)
  {
    if i < j {
      RankMonotone(s, i, j - 1, sel);
    }
  }

  /** A selected row ranks strictly below every row after it, so distinct selected rows have distinct ranks. */
  lemma RankStrict(s: seq<Entry>, i: nat, j: nat, sel: Selection)
    requires i < j <= |s| && Selected(s[i], sel)
    ensures Rank(s, i, sel) < Rank(s, j, sel)
  {
    RankMonotone(s, i + 1, j, sel);
  }

  /** Every selected row's rank is below the count: the ranks are exactly 0 .. Count-1. */
  lemma RankBelowCount(s: seq<Entry>, k: nat, sel: Selection)
    requires k < |s| && Selected(s[k], sel)
    ensures Rank(s, k, sel) < Count(s, sel)
  {
    RankStrict(s, k, |s|, sel);
  }

  /** Two tables that agree on which rows are selected rank every row alike. */
  lemma {:induction false} RankBySelection(s: seq<Entry>, t: seq<Entry>, k: nat, sel: Selection)
    requires k <= |s| && k <= |t|
    requires forall j :: 0 <= j < k ==> Selected(s[j], sel) == Selected(t[j], sel)
    ensures Rank(s, k, sel) == Rank(t, k, sel)
  {
    if k > 0 {
      RankBySelection(s, t, k - 1, sel);
    }
  }

  /** The number of selected rows among the first k that the table t puts into group gid. */
  function InGroup(s: seq<Entry>, t: seq<Entry>, k: nat, sel: Selection, gid: int): nat
    requires |t| == |s| && k <= |s|
  {
    if k == 0 then 0
    else InGroup(s, t, k - 1, sel, gid) + (if Selected(s[k - 1], sel) && t[k - 1].group == Some(gid) then 1 else 0)
  }

  predicate Distinct(groups: seq<int>) {
    forall x, y :: 0 <= x < y < |groups| ==> groups[x] != groups[y]
  }

  /** x clipped into [lo, hi]. */
  function Clamp(x: int, lo: int, hi: int): int {
    if x < lo then lo else if x > hi then hi else x
  }

  /** The number of selected rows among the first k whose rank lies in [lo, hi). */
  function InWindow(s: seq<Entry>, k: nat, sel: Selection, lo: int, hi: int): nat
    requires k <= |s|
  {
    if k == 0 then 0
    else InWindow(s, k - 1, sel, lo, hi)
         + (if Selected(s[k - 1], sel) && lo <= Rank(s, k - 1, sel) < hi then 1 else 0)
  }

  /**
   * Exactly the ranks of [lo, hi) that exist are taken: a window holds
   * min(hi, n) - min(lo, n) rows once n rows have been ranked.
   */
  lemma {:induction false} WindowCount(s: seq<Entry>, k: nat, sel: Selection, lo: int, hi: int)
    requires k <= |s| && 0 <= lo <= hi
    ensures InWindow(s, k, sel, lo, hi) == Clamp(Rank(s, k, sel), lo, hi) - lo
  {
    if k > 0 {
      WindowCount(s, k - 1, sel, lo, hi);
    }
  }
}

/** Arithmetic of consecutive blocks of equal length: which block a rank falls into. */
module BlockArith {

  lemma MulMono(a: nat, b: nat, l: nat)
    ensures a <= b ==> a * l <= b * l
  {
    if a <= b {
      assert b * l == a * l + (b - a) * l;
    }
  }

  lemma MulSucc(i: nat, l: nat)
    ensures (i + 1) * l == i * l + l
  {
  }

  /** A rank inside block i of length l belongs to block i. */
  lemma DivInBlock(r: nat, l: nat, i: nat)
    requires i * l <= r < (i + 1) * l
    ensures r / l == i
  {
    assert l > 0 by { MulMono(i + 1, 0, l); }
    var q := r / l;
    assert q * l <= r < q * l + l;
    MulMono(q + 1, i, l);
    MulMono(i + 1, q, l);
  }

  /** A rank below d blocks of length l falls into one of them. */
  lemma DivBelow(r: nat, l: nat, d: nat)
    requires r < d * l
    ensures l > 0 && r / l < d
  {
    MulMono(d, 0, l);
    MulMono(d, r / l, l);
    if l > 0 {
      assert (r / l) * l <= r;
    }
  }

  /** The converse of DivInBlock: rank r lies in the block r / l. */
  lemma DivBlockBounds(r: nat, l: nat)
    requires l > 0
    ensures (r / l) * l <= r < (r / l + 1) * l
  {
    assert r == (r / l) * l + r % l;
    assert (r / l + 1) * l == (r / l) * l + l;
  }

  /** Division by a block length keeps the order of ranks. */
  lemma DivMono(a: nat, b: nat, l: nat)
    requires l > 0 && a <= b
    ensures a / l <= b / l
  {
    DivBlockBounds(a, l);
    DivBlockBounds(b, l);
    MulMono(b / l + 1, a / l, l);
  }

  /** r / l == i exactly when r lies in [i*l, (i+1)*l). */
  lemma InBlockIff(r: nat, l: nat, i: nat)
    requires l > 0
    ensures r / l == i <==> i * l <= r < (i + 1) * l
  {
    DivBlockBounds(r, l);
    if i * l <= r < (i + 1) * l {
      DivInBlock(r, l, i);
    }
  }
}

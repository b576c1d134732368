/**
 * The neighbour affinity estimator of app/utils/scoring.py
 * (compute_recipe_affinity_score).
 *
 * The catalog is split into labeled recipes (label != 0) and unlabeled recipes
 * (label == 0), each part keeping catalog order and renumbered from 0. An exact
 * similarity index over the labeled embeddings is asked, for every unlabeled
 * recipe, for its NbNeighbors most similar labeled recipes; the index answers
 * with positions in the labeled part, and with -1 in the slots it cannot fill.
 * Each slot is mapped to the label of the recipe at that position (nothing for
 * -1), the estimate is the mean of the labels present (nothing when none is),
 * and the estimates are looked up again by recipe id, so a labeled recipe gets
 * no estimate.
 *
 * The similarity of two embeddings is a parameter of the model: it stands for
 * the inner product of the L2-normalised vectors. Among equally similar labeled
 * recipes the one with the lower labeled position is taken first.
 */
module Affinity {
  import opened Wrappers

  /** NB_NEIGHBORS: how many neighbours the index is asked for. */
  const NbNeighbors: nat := 5

  /** One catalog row: the recipe id, its embedding and its label score. */
  datatype Row = Row(id: int, embedding: seq<real>, labelScore: int)

  /** Similarity of a query embedding to an indexed embedding (larger is closer). */
  type Similarity = (seq<real>, seq<real>) -> real

  predicate UniqueIds(rows: seq<Row>) {
    forall i, j :: 0 <= i < j < |rows| ==> rows[i].id != rows[j].id
  }

  /**
   * No two unlabeled rows share an id. The final lookup by id needs a
   * uniquely indexed table of estimates, and pandas raises otherwise.
   */
  predicate UnlabeledIdsUnique(rows: seq<Row>) {
    forall i, j :: 0 <= i < j < |rows| && rows[i].labelScore == 0 && rows[j].labelScore == 0 ==>
      rows[i].id != rows[j].id
  }

  function Min(a: int, b: int): int {
    if a <= b then a else b
  }

  /* ---------------------------------------------------------------------- */
  /* Partition                                                              */
  /* ---------------------------------------------------------------------- */

  /** df[df.affinity_score_label != 0], in catalog order. */
  function Labeled(rows: seq<Row>): (lab: seq<Row>)
    ensures forall r :: r in lab <==> r in rows && r.labelScore != 0
    ensures |lab| <= |rows|
  {
    if rows == [] then []
    else
      var init := Labeled(rows[..|rows| - 1]);
      var last := rows[|rows| - 1];
      assert rows == rows[..|rows| - 1] + [last];
      if last.labelScore != 0 then init + [last] else init
  }

  /** df[df.affinity_score_label == 0], in catalog order. */
  function Unlabeled(rows: seq<Row>): (unl: seq<Row>)
    ensures forall r :: r in unl <==> r in rows && r.labelScore == 0
    ensures |unl| <= |rows|
  {
    if rows == [] then []
    else
      var init := Unlabeled(rows[..|rows| - 1]);
      var last := rows[|rows| - 1];
      assert rows == rows[..|rows| - 1] + [last];
      if last.labelScore == 0 then init + [last] else init
  }

  /** Every row lands in exactly one of the two parts, and no row is lost or duplicated. */
  lemma {:induction false} PartitionIsExact(rows: seq<Row>)
    ensures |Labeled(rows)| + |Unlabeled(rows)| == |rows|
    ensures multiset(Labeled(rows)) + multiset(Unlabeled(rows)) == multiset(rows)
  {
    if rows != [] {
      var init := rows[..|rows| - 1];
      PartitionIsExact(init);
      assert rows == init + [rows[|rows| - 1]];
    }
  }

  /** The unlabeled part of a catalog whose unlabeled ids are unique has unique ids. */
  lemma {:induction false} UnlabeledKeepsUniqueIds(rows: seq<Row>)
    requires UnlabeledIdsUnique(rows)
    ensures UniqueIds(Unlabeled(rows))
  {
    if rows != [] {
      var init := rows[..|rows| - 1];
      var last := rows[|rows| - 1];
      UnlabeledKeepsUniqueIds(init);
      if last.labelScore == 0 {
        forall r | r in Unlabeled(init) ensures r.id != last.id {
          var j :| 0 <= j < |init| && init[j] == r;
          assert rows[j] == r && r.labelScore == 0;
        }
      }
    }
  }

  /* ---------------------------------------------------------------------- */
  /* Nearest-neighbour search                                               */
  /* ---------------------------------------------------------------------- */

  /** Similarity of the query to each labeled recipe, by labeled position. */
  function Similarities(query: seq<real>, lab: seq<Row>, sim: Similarity): (sims: seq<real>)
    ensures |sims| == |lab|
  {
    seq(|lab|, p requires 0 <= p < |lab| => sim(query, lab[p].embedding))
  }

  /**
   * Labeled position p ranks before q: strictly more similar, or equally
   * similar and earlier in the labeled part.
   */
  predicate Better(sims: seq<real>, p: int, q: int)
    requires 0 <= p < |sims| && 0 <= q < |sims|
    ensures sims[p] > sims[q] ==> Better(sims, p, q)
    ensures Better(sims, p, q) ==> sims[p] >= sims[q]
  {
    sims[p] > sims[q] || (sims[p] == sims[q] && p < q)
  }

  /**
   * The ranking is a strict total order on labeled positions, so the search
   * has exactly one answer: no position ranks before itself, of two distinct
   * positions exactly one ranks first, and ranking is transitive.
   */
  lemma BetterIsStrictTotalOrder(sims: seq<real>, p: int, q: int, r: int)
    requires 0 <= p < |sims| && 0 <= q < |sims| && 0 <= r < |sims|
    ensures !Better(sims, p, p)
    ensures p != q ==> (Better(sims, p, q) <==> !Better(sims, q, p))
    ensures Better(sims, p, q) && Better(sims, q, r) ==> Better(sims, p, r)
  {
  }

  predicate InRange(sims: seq<real>, cands: seq<nat>) {
    forall j :: 0 <= j < |cands| ==> cands[j] < |sims|
  }

  predicate Distinct(cands: seq<nat>) {
    forall a, b :: 0 <= a < b < |cands| ==> cands[a] != cands[b]
  }

  /** Index in `cands` of the candidate that ranks first. */
  function BestAt(sims: seq<real>, cands: seq<nat>): (i: nat)
    requires |cands| > 0 && InRange(sims, cands)
    ensures i < |cands|
  {
    if |cands| == 1 then 0
    else
      var b := BestAt(sims, cands[..|cands| - 1]);
      if Better(sims, cands[|cands| - 1], cands[b]) then |cands| - 1 else b
  }

  /** The candidate at index i ranks before every other candidate. */
  predicate IsBest(sims: seq<real>, cands: seq<nat>, i: nat)
    requires InRange(sims, cands) && i < |cands|
  {
    forall j :: 0 <= j < |cands| ==> cands[j] == cands[i] || Better(sims, cands[i], cands[j])
  }

  lemma {:induction false} BestAtRanksFirst(sims: seq<real>, cands: seq<nat>)
    requires |cands| > 0 && InRange(sims, cands)
    ensures IsBest(sims, cands, BestAt(sims, cands))
  {
    if |cands| > 1 {
      var init := cands[..|cands| - 1];
      BestAtRanksFirst(sims, init);
      assert forall j :: 0 <= j < |init| ==> init[j] == cands[j];
    }
  }

  /** The candidates without the one at index i. */
  function Without(cands: seq<nat>, i: nat): (rest: seq<nat>)
    requires i < |cands|
    ensures |rest| == |cands| - 1
  {
    cands[..i] + cands[i + 1..]
  }

  lemma WithoutAt(cands: seq<nat>, i: nat)
    requires i < |cands|
    ensures forall r :: 0 <= r < |cands| - 1 ==> Without(cands, i)[r] == cands[if r < i then r else r + 1]
  {
  }

  lemma WithoutInRange(sims: seq<real>, cands: seq<nat>, i: nat)
    requires i < |cands| && InRange(sims, cands)
    ensures InRange(sims, Without(cands, i))
  {
    WithoutAt(cands, i);
  }

  lemma ConsInRange(sims: seq<real>, x: nat, tail: seq<nat>)
    requires x < |sims| && InRange(sims, tail)
    ensures InRange(sims, [x] + tail)
  {
    assert forall b :: 0 < b <= |tail| ==> ([x] + tail)[b] == tail[b - 1];
  }

  /** The first `k` candidates in ranking order (all of them when there are fewer). */
  function TopK(sims: seq<real>, cands: seq<nat>, k: nat): (top: seq<nat>)
    requires InRange(sims, cands)
    ensures |top| == Min(k, |cands|)
    ensures InRange(sims, top)
    decreases |cands|
  {
    if k == 0 || |cands| == 0 then []
    else
      var i := BestAt(sims, cands);
      WithoutInRange(sims, cands, i);
      var tail := TopK(sims, Without(cands, i), k - 1);
      ConsInRange(sims, cands[i], tail);
      [cands[i]] + tail
  }

  /** TopK's first pick is the best candidate; the rest come from the others. */
  lemma TopKUnfold(sims: seq<real>, cands: seq<nat>, k: nat)
    requires InRange(sims, cands) && k > 0 && |cands| > 0
    ensures var i := BestAt(sims, cands);
      TopK(sims, cands, k) == [cands[i]] + TopK(sims, Without(cands, i), k - 1)
  {
  }

  /** Every pick is one of the candidates. */
  predicate PicksFrom(top: seq<nat>, cands: seq<nat>) {
    forall b :: 0 <= b < |top| ==> top[b] in cands
  }

  lemma {:induction false} TopKPicksCandidates(sims: seq<real>, cands: seq<nat>, k: nat)
    requires InRange(sims, cands)
    ensures PicksFrom(TopK(sims, cands, k), cands)
    decreases |cands|
  {
    if k != 0 && |cands| != 0 {
      var i := BestAt(sims, cands);
      var rest := Without(cands, i);
      TopKPicksCandidates(sims, rest, k - 1);
      TopKUnfold(sims, cands, k);
      ConsPicksFrom(cands, i, TopK(sims, rest, k - 1));
    }
  }

  /** The candidate at index i in front of picks from the others picks from all candidates. */
  lemma ConsPicksFrom(cands: seq<nat>, i: nat, tail: seq<nat>)
    requires i < |cands| && PicksFrom(tail, Without(cands, i))
    ensures PicksFrom([cands[i]] + tail, cands)
  {
    var rest := Without(cands, i);
    WithoutAt(cands, i);
    forall b | 0 <= b < |tail| ensures tail[b] in cands {
      var r :| 0 <= r < |rest| && rest[r] == tail[b];
      var j := if r < i then r else r + 1;
      assert rest[r] == cands[j];
    }
    var top := [cands[i]] + tail;
    assert forall b :: 0 < b < |top| ==> top[b] == tail[b - 1];
  }

  /** Removing the candidate at index i keeps the others distinct. */
  lemma WithoutDistinct(cands: seq<nat>, i: nat)
    requires i < |cands| && Distinct(cands)
    ensures Distinct(Without(cands, i))
  {
    WithoutAt(cands, i);
  }

  /** The picks are in strict ranking order. */
  predicate Ordered(sims: seq<real>, top: seq<nat>)
    requires InRange(sims, top)
  {
    forall a, b :: 0 <= a < b < |top| ==> Better(sims, top[a], top[b])
  }

  /** Position x ranks before every pick in `top`. */
  predicate RanksBefore(sims: seq<real>, x: nat, top: seq<nat>)
    requires x < |sims| && InRange(sims, top)
  {
    forall b :: 0 <= b < |top| ==> Better(sims, x, top[b])
  }

  /** Every candidate picked from the others ranks after the best one. */
  lemma BestBeforeRest(sims: seq<real>, cands: seq<nat>, i: nat, tail: seq<nat>)
    requires InRange(sims, cands) && Distinct(cands) && i < |cands| && IsBest(sims, cands, i)
    requires PicksFrom(tail, Without(cands, i))
    ensures InRange(sims, tail) && RanksBefore(sims, cands[i], tail)
  {
    var rest := Without(cands, i);
    WithoutAt(cands, i);
    forall b | 0 <= b < |tail| ensures tail[b] < |sims| && Better(sims, cands[i], tail[b]) {
      var r :| 0 <= r < |rest| && rest[r] == tail[b];
      var j := if r < i then r else r + 1;
      assert rest[r] == cands[j];
    }
  }

  /** A pick ranked before an ordered list of picks keeps the list ordered. */
  lemma ConsOrdered(sims: seq<real>, x: nat, tail: seq<nat>)
    requires x < |sims| && InRange(sims, tail)
    requires RanksBefore(sims, x, tail) && Ordered(sims, tail)
    ensures InRange(sims, [x] + tail) && Ordered(sims, [x] + tail)
  {
    var top := [x] + tail;
    forall a, b | 0 <= a < b < |top| ensures Better(sims, top[a], top[b]) {
      assert top[b] == tail[b - 1];
      if a != 0 {
        assert top[a] == tail[a - 1];
      }
    }
  }

  /** TopK returns its picks in strict ranking order. */
  lemma {:induction false} TopKOrdered(sims: seq<real>, cands: seq<nat>, k: nat)
    requires InRange(sims, cands) && Distinct(cands)
    ensures Ordered(sims, TopK(sims, cands, k))
    decreases |cands|
  {
    if k != 0 && |cands| != 0 {
      var i := BestAt(sims, cands);
      var rest := Without(cands, i);
      var tail := TopK(sims, rest, k - 1);
      TopKUnfold(sims, cands, k);
      WithoutDistinct(cands, i);
      TopKOrdered(sims, rest, k - 1);
      BestBeforeTopKRest(sims, cands, k);
      ConsOrdered(sims, cands[i], tail);
    }
  }

  /** The best candidate ranks before every later pick of TopK. */
  lemma BestBeforeTopKRest(sims: seq<real>, cands: seq<nat>, k: nat)
    requires InRange(sims, cands) && Distinct(cands) && k > 0 && |cands| > 0
    ensures var i := BestAt(sims, cands);
      InRange(sims, Without(cands, i)) && RanksBefore(sims, cands[i], TopK(sims, Without(cands, i), k - 1))
  {
    var i := BestAt(sims, cands);
    var rest := Without(cands, i);
    WithoutInRange(sims, cands, i);
    TopKPicksCandidates(sims, rest, k - 1);
    BestAtRanksFirst(sims, cands);
    BestBeforeRest(sims, cands, i, TopK(sims, rest, k - 1));
  }

  /** Every candidate left out of `top` ranks after every pick in `top`. */
  predicate BeatsLeftOut(sims: seq<real>, cands: seq<nat>, top: seq<nat>)
    requires InRange(sims, cands) && InRange(sims, top)
  {
    forall a, j :: 0 <= a < |top| && 0 <= j < |cands| && cands[j] !in top ==> Better(sims, top[a], cands[j])
  }

  /** Putting the best candidate in front of picks that beat the rest beats every left-out candidate. */
  lemma ConsBeatsLeftOut(sims: seq<real>, cands: seq<nat>, i: nat, tail: seq<nat>)
    requires InRange(sims, cands) && i < |cands| && IsBest(sims, cands, i)
    requires InRange(sims, Without(cands, i)) && InRange(sims, tail)
    requires BeatsLeftOut(sims, Without(cands, i), tail)
    ensures InRange(sims, [cands[i]] + tail)
    ensures BeatsLeftOut(sims, cands, [cands[i]] + tail)
  {
    var rest := Without(cands, i);
    var top := [cands[i]] + tail;
    WithoutAt(cands, i);
    forall a, j | 0 <= a < |top| && 0 <= j < |cands| && cands[j] !in top
      ensures Better(sims, top[a], cands[j])
    {
      if a > 0 {
        var r := if j < i then j else j - 1;
        assert rest[r] == cands[j];
        assert top[a] == tail[a - 1];
        assert cands[j] !in tail;
      }
    }
  }

  /** Every candidate TopK leaves out ranks after every candidate it picks. */
  lemma {:induction false} TopKBeatsLeftOut(sims: seq<real>, cands: seq<nat>, k: nat)
    requires InRange(sims, cands)
    ensures BeatsLeftOut(sims, cands, TopK(sims, cands, k))
    decreases |cands|
  {
    if k != 0 && |cands| != 0 {
      var i := BestAt(sims, cands);
      var rest := Without(cands, i);
      WithoutInRange(sims, cands, i);
      TopKUnfold(sims, cands, k);
      TopKBeatsLeftOut(sims, rest, k - 1);
      BestAtRanksFirst(sims, cands);
      ConsBeatsLeftOut(sims, cands, i, TopK(sims, rest, k - 1));
    }
  }

  /** All labeled positions 0, 1, ..., n - 1. */
  function Positions(n: nat): (ps: seq<nat>)
    ensures |ps| == n
  {
    seq(n, p requires 0 <= p < n => p)
  }

  /** The picked positions followed by `n` unfilled (-1) slots. */
  function Pad(top: seq<nat>, n: nat): (slots: seq<int>)
    ensures |slots| == |top| + n
    ensures forall a :: 0 <= a < |top| ==> slots[a] == top[a]
    ensures forall a :: |top| <= a < |slots| ==> slots[a] == -1
  {
    var filled: seq<int> := top;
    filled + seq(n, _ => -1)
  }

  /**
   * index.search for one query: the positions of the Min(k, #labeled) nearest
   * labeled recipes, then -1 for every slot left unfilled.
   */
  function Search(sims: seq<real>, k: nat): (slots: seq<int>)
    ensures |slots| == k
  {
    var top := TopK(sims, Positions(|sims|), k);
    Pad(top, k - |top|)
  }

  /**
   * The slots Search returns: the first Min(k, #labeled) are labeled positions in
   * strict ranking order, no labeled position left out ranks before a chosen one,
   * and the remaining slots hold -1.
   */
  lemma SearchReturnsNearest(sims: seq<real>, k: nat)
    ensures var slots := Search(sims, k); var m := Min(k, |sims|);
      && (forall a :: 0 <= a < m ==> 0 <= slots[a] < |sims|)
      && (forall a :: m <= a < k ==> slots[a] == -1)
      && (forall a, b :: 0 <= a < b < m ==> Better(sims, slots[a], slots[b]))
      && (forall a, p :: 0 <= a < m && 0 <= p < |sims| && p !in slots[..m] ==> Better(sims, slots[a], p))
  {
    var ps := Positions(|sims|);
    var top := TopK(sims, ps, k);
    TopKOrdered(sims, ps, k);
    TopKBeatsLeftOut(sims, ps, k);
    var slots := Search(sims, k);
    assert forall a :: 0 <= a < |top| ==> slots[a] == top[a];
    assert slots[..|top|] == top;
    forall a, p | 0 <= a < |top| && 0 <= p < |sims| && p !in slots[..|top|]
      ensures Better(sims, slots[a], p)
    {
      assert slots[a] == top[a] && p !in top && ps[p] == p;
    }
    forall a | |top| <= a < k ensures slots[a] == -1 {
      assert slots[a] == seq(k - |top|, _ => -1)[a - |top|];
    }
  }

  /* ---------------------------------------------------------------------- */
  /* Mean of the neighbour labels                                           */
  /* ---------------------------------------------------------------------- */

  /** A slot's label: `.map(df_labeled.affinity_score_label)`; -1 finds nothing. */
  function LabelAt(slot: int, lab: seq<Row>): (v: Option<int>)
    ensures v.Some? <==> 0 <= slot < |lab|
    ensures v.Some? ==> v.value == lab[slot].labelScore
  {
    if 0 <= slot < |lab| then Some(lab[slot].labelScore) else None
  }

  /** The labels the slots find, slot by slot. */
  function NeighborLabels(slots: seq<int>, lab: seq<Row>): (vals: seq<Option<int>>)
    ensures |vals| == |slots|
  {
    seq(|slots|, i requires 0 <= i < |slots| => LabelAt(slots[i], lab))
  }

  /** A slot finds a label exactly when it holds a valid labeled position. */
  lemma NeighborLabelsFindValidSlots(slots: seq<int>, lab: seq<Row>)
    ensures forall i :: 0 <= i < |slots| ==>
      (NeighborLabels(slots, lab)[i].Some? <==> 0 <= slots[i] < |lab|)
  {
  }

  /** Number of values present. */
  function CountPresent(vals: seq<Option<int>>): (n: nat)
    ensures n <= |vals|
  {
    if vals == [] then 0
    else CountPresent(vals[..|vals| - 1]) + (if vals[|vals| - 1].Some? then 1 else 0)
  }

  /** Nothing is counted exactly when every value is missing. */
  lemma {:induction false} CountPresentZeroIff(vals: seq<Option<int>>)
    ensures CountPresent(vals) == 0 <==> forall i :: 0 <= i < |vals| ==> vals[i].None?
  {
    if vals != [] {
      var init := vals[..|vals| - 1];
      CountPresentZeroIff(init);
      assert forall i :: 0 <= i < |init| ==> init[i] == vals[i];
    }
  }

  /** Sum of the values present. */
  function SumPresent(vals: seq<Option<int>>): int {
    if vals == [] then 0
    else
      SumPresent(vals[..|vals| - 1])
      + (match vals[|vals| - 1] case Some(v) => v case None => 0)
  }

  /**
   * pandas' mean(axis=1): missing values are skipped, and none present gives
   * nothing; otherwise the mean times the number of values present is their sum.
   */
  function MeanPresent(vals: seq<Option<int>>): (m: Option<real>)
    ensures m.None? <==> CountPresent(vals) == 0
    ensures m.Some? ==> m.value * CountPresent(vals) as real == SumPresent(vals) as real
  {
    var n := CountPresent(vals);
    if n == 0 then None else Some(SumPresent(vals) as real / n as real)
  }

  /** The row-wise mean, accumulated one column at a time. */
  method MeanSkipMissing(vals: seq<Option<int>>) returns (mean: Option<real>)
    ensures mean == MeanPresent(vals)
    ensures mean.None? <==> forall i :: 0 <= i < |vals| ==> vals[i].None?
  {
    var sum := 0;
    var count := 0;
    for i := 0 to |vals|
      invariant sum == SumPresent(vals[..i])
      invariant count == CountPresent(vals[..i])
    {
      assert vals[..i + 1][..i] == vals[..i];
      match vals[i] {
        case Some(v) =>
          sum := sum + v;
          count := count + 1;
        case None =>
      }
    }
    assert vals[..|vals|] == vals;
    CountPresentZeroIff(vals);
    if count == 0 {
      mean := None;
    } else {
      mean := Some(sum as real / count as real);
    }
  }

  lemma MulStep(x: int, c: int)
    ensures x * (c + 1) == x * c + x
  {
  }

  lemma {:induction false} SumPresentBounds(vals: seq<Option<int>>, lo: int, hi: int)
    requires forall i :: 0 <= i < |vals| && vals[i].Some? ==> lo <= vals[i].value <= hi
    ensures lo * CountPresent(vals) <= SumPresent(vals) <= hi * CountPresent(vals)
  {
    if vals != [] {
      var init := vals[..|vals| - 1];
      SumPresentBounds(init, lo, hi);
      var c := CountPresent(init);
      MulStep(lo, c);
      MulStep(hi, c);
    }
  }

  lemma DivideBetween(s: real, n: real, lo: real, hi: real)
    requires n > 0.0 && lo * n <= s <= hi * n
    ensures lo <= s / n <= hi
  {
    var m := s / n;
    assert (m - lo) * n == s - lo * n;
    assert (hi - m) * n == hi * n - s;
  }

  /** The mean of values lying in [lo, hi] lies in [lo, hi]. */
  lemma MeanPresentBounds(vals: seq<Option<int>>, lo: int, hi: int)
    requires forall i :: 0 <= i < |vals| && vals[i].Some? ==> lo <= vals[i].value <= hi
    ensures MeanPresent(vals).Some? ==> lo as real <= MeanPresent(vals).value <= hi as real
  {
    var n := CountPresent(vals);
    if n != 0 {
      SumPresentBounds(vals, lo, hi);
      DivideBetween(SumPresent(vals) as real, n as real, lo as real, hi as real);
    }
  }

  /** Sum of the labels at the given labeled positions. */
  function LabelSum(lab: seq<Row>, top: seq<nat>): int
    requires forall a :: 0 <= a < |top| ==> top[a] < |lab|
  {
    if top == [] then 0 else LabelSum(lab, top[..|top| - 1]) + lab[top[|top| - 1]].labelScore
  }

  lemma {:induction false} PresentOfPadded(lab: seq<Row>, top: seq<nat>, pad: nat)
    requires forall a :: 0 <= a < |top| ==> top[a] < |lab|
    ensures var vals := NeighborLabels(Pad(top, pad), lab);
      CountPresent(vals) == |top| && SumPresent(vals) == LabelSum(lab, top)
    decreases |top| + pad
  {
    var vals := NeighborLabels(Pad(top, pad), lab);
    if pad > 0 {
      PresentOfPadded(lab, top, pad - 1);
      assert vals[..|vals| - 1] == NeighborLabels(Pad(top, pad - 1), lab);
    } else if top != [] {
      PresentOfPadded(lab, top[..|top| - 1], 0);
      assert vals[..|vals| - 1] == NeighborLabels(Pad(top[..|top| - 1], 0), lab);
    }
  }

  /* ---------------------------------------------------------------------- */
  /* Estimates                                                              */
  /* ---------------------------------------------------------------------- */

  /**
   * liked_estimated_score of one unlabeled recipe: there is one exactly when
   * the index is asked for at least one neighbour and the labeled pool is not
   * empty.
   */
  function EstimateOf(query: seq<real>, lab: seq<Row>, sim: Similarity, k: nat): (e: Option<real>)
    ensures e.Some? <==> k > 0 && |lab| > 0
  {
    var sims := Similarities(query, lab, sim);
    var top := TopK(sims, Positions(|lab|), k);
    PresentOfPadded(lab, top, k - |top|);
    MeanPresent(NeighborLabels(Search(sims, k), lab))
  }

  /**
   * The estimate is the plain average of the labels of the Min(k, #labeled)
   * nearest labeled recipes, and there is none exactly when nothing is labeled.
   */
  lemma EstimateIsMeanOfNearest(query: seq<real>, lab: seq<Row>, sim: Similarity, k: nat)
    requires k > 0
    ensures var top := TopK(Similarities(query, lab, sim), Positions(|lab|), k);
      |top| == Min(k, |lab|) &&
      EstimateOf(query, lab, sim, k)
      == if |lab| == 0 then None else Some(LabelSum(lab, top) as real / |top| as real)
  {
    SearchMean(Similarities(query, lab, sim), lab, k);
  }

  /** The mean of the labels Search finds, for any similarity scores of the pool. */
  lemma SearchMean(sims: seq<real>, lab: seq<Row>, k: nat)
    requires k > 0 && |sims| == |lab|
    ensures var top := TopK(sims, Positions(|lab|), k);
      MeanPresent(NeighborLabels(Search(sims, k), lab))
      == if |lab| == 0 then None else Some(LabelSum(lab, top) as real / |top| as real)
  {
    var top := TopK(sims, Positions(|lab|), k);
    PresentOfPadded(lab, top, k - |top|);
  }

  /** The estimate exists exactly when the labeled pool is not empty. */
  lemma EstimateExistsIffPool(query: seq<real>, lab: seq<Row>, sim: Similarity, k: nat)
    requires k > 0
    ensures EstimateOf(query, lab, sim, k).Some? <==> |lab| > 0
  {
    EstimateIsMeanOfNearest(query, lab, sim, k);
  }

  /** An estimate lies between the smallest and the largest label of the pool. */
  lemma EstimateWithinPoolRange(query: seq<real>, lab: seq<Row>, sim: Similarity, k: nat, lo: int, hi: int)
    requires forall p :: 0 <= p < |lab| ==> lo <= lab[p].labelScore <= hi
    ensures EstimateOf(query, lab, sim, k).Some? ==>
      lo as real <= EstimateOf(query, lab, sim, k).value <= hi as real
  {
    var vals := NeighborLabels(Search(Similarities(query, lab, sim), k), lab);
    MeanPresentBounds(vals, lo, hi);
  }

  /** A map from each id to the value at the same position. */
  function ById(ids: seq<int>, vals: seq<Option<real>>): (m: map<int, Option<real>>)
    requires |ids| == |vals|
    ensures forall x :: x in m <==> x in ids
  {
    if ids == [] then map[]
    else ById(ids[..|ids| - 1], vals[..|vals| - 1])[ids[|ids| - 1] := vals[|vals| - 1]]
  }

  lemma {:induction false} ByIdLookup(ids: seq<int>, vals: seq<Option<real>>, j: int)
    requires |ids| == |vals| && 0 <= j < |ids|
    requires forall a, b :: 0 <= a < b < |ids| ==> ids[a] != ids[b]
    ensures ById(ids, vals)[ids[j]] == vals[j]
  {
    if j < |ids| - 1 {
      ByIdLookup(ids[..|ids| - 1], vals[..|vals| - 1], j);
    }
  }

  function Ids(rows: seq<Row>): (ids: seq<int>)
    ensures |ids| == |rows|
  {
    seq(|rows|, i requires 0 <= i < |rows| => rows[i].id)
  }

  /** The estimate of each unlabeled recipe, in the order of the unlabeled part. */
  function PoolEstimates(unl: seq<Row>, lab: seq<Row>, sim: Similarity, k: nat): (vals: seq<Option<real>>)
    ensures |vals| == |unl|
  {
    seq(|unl|, u requires 0 <= u < |unl| => EstimateOf(unl[u].embedding, lab, sim, k))
  }

  /** The estimates of the unlabeled recipes, keyed by recipe id: the keys are exactly their ids. */
  function EstimatesById(rows: seq<Row>, sim: Similarity, k: nat): (m: map<int, Option<real>>)
    ensures forall x :: x in m <==> exists i :: 0 <= i < |rows| && rows[i].labelScore == 0 && rows[i].id == x
  {
    var unl := Unlabeled(rows);
    UnlabeledIdsAre(rows);
    ById(Ids(unl), PoolEstimates(unl, Labeled(rows), sim, k))
  }

  /** The ids of the unlabeled part are exactly the ids of the unlabeled rows. */
  lemma UnlabeledIdsAre(rows: seq<Row>)
    ensures forall x :: x in Ids(Unlabeled(rows)) <==>
      exists i :: 0 <= i < |rows| && rows[i].labelScore == 0 && rows[i].id == x
  {
    var unl := Unlabeled(rows);
    forall x ensures x in Ids(unl) <==> exists i :: 0 <= i < |rows| && rows[i].labelScore == 0 && rows[i].id == x {
      if x in Ids(unl) {
        var u :| 0 <= u < |unl| && Ids(unl)[u] == x;
        assert unl[u] in unl;
        var i :| 0 <= i < |rows| && rows[i] == unl[u];
      }
      if exists i :: 0 <= i < |rows| && rows[i].labelScore == 0 && rows[i].id == x {
        var i :| 0 <= i < |rows| && rows[i].labelScore == 0 && rows[i].id == x;
        var u := UnlabeledIndex(rows, i);
        assert Ids(unl)[u] == x;
      }
    }
  }

  /** compute_recipe_affinity_score: one entry per catalog row, in catalog order. */
  function AffinityEstimates(rows: seq<Row>, sim: Similarity, k: nat): (est: seq<Option<real>>)
    requires UnlabeledIdsUnique(rows)
    ensures |est| == |rows|
  {
    var scoreById := EstimatesById(rows, sim, k);
    seq(|rows|, i requires 0 <= i < |rows| =>
      if rows[i].id in scoreById then scoreById[rows[i].id] else None)
  }

  /** An unlabeled recipe's id finds the estimate computed from its own embedding. */
  lemma UnlabeledRowLookup(rows: seq<Row>, sim: Similarity, k: nat, i: int)
    requires UnlabeledIdsUnique(rows) && 0 <= i < |rows| && rows[i].labelScore == 0
    ensures rows[i].id in EstimatesById(rows, sim, k)
    ensures EstimatesById(rows, sim, k)[rows[i].id] == EstimateOf(rows[i].embedding, Labeled(rows), sim, k)
  {
    var unl := Unlabeled(rows);
    var u := UnlabeledIndex(rows, i);
    UnlabeledKeepsUniqueIds(rows);
    ByIdLookup(Ids(unl), PoolEstimates(unl, Labeled(rows), sim, k), u);
  }

  /** Where an unlabeled row sits in the unlabeled part. */
  lemma UnlabeledIndex(rows: seq<Row>, i: int) returns (u: int)
    requires 0 <= i < |rows| && rows[i].labelScore == 0
    ensures 0 <= u < |Unlabeled(rows)| && Unlabeled(rows)[u] == rows[i]
  {
    var unl := Unlabeled(rows);
    assert rows[i] in unl;
    u :| 0 <= u < |unl| && unl[u] == rows[i];
  }

  /** No unlabeled recipe shares its id with a labeled one. */
  lemma LabeledIdNotUnlabeled(rows: seq<Row>, i: int)
    requires UniqueIds(rows) && 0 <= i < |rows| && rows[i].labelScore != 0
    ensures rows[i].id !in Ids(Unlabeled(rows))
  {
    var unl := Unlabeled(rows);
    forall u | 0 <= u < |unl| ensures unl[u].id != rows[i].id {
      assert unl[u] in unl;
      var j :| 0 <= j < |rows| && rows[j] == unl[u];
      assert j != i;
    }
  }

  /** The labeled part is nonempty exactly when some row carries a nonzero label. */
  lemma LabeledNonEmptyIff(rows: seq<Row>)
    ensures |Labeled(rows)| > 0 <==> exists j :: 0 <= j < |rows| && rows[j].labelScore != 0
  {
    if exists j :: 0 <= j < |rows| && rows[j].labelScore != 0 {
      var j :| 0 <= j < |rows| && rows[j].labelScore != 0;
      assert rows[j] in Labeled(rows);
    }
  }

  /**
   * Per row: a labeled recipe gets nothing, an unlabeled one gets the estimate
   * computed from its own embedding against the labeled pool.
   */
  lemma EstimateOfRow(rows: seq<Row>, sim: Similarity, k: nat, i: int)
    requires UniqueIds(rows) && 0 <= i < |rows|
    ensures AffinityEstimates(rows, sim, k)[i]
            == if rows[i].labelScore != 0 then None else EstimateOf(rows[i].embedding, Labeled(rows), sim, k)
  {
    if rows[i].labelScore != 0 {
      LabeledIdNotUnlabeled(rows, i);
    } else {
      UnlabeledRowLookup(rows, sim, k, i);
    }
  }

  /**
   * Without unique ids, a labeled recipe that shares its id with an unlabeled
   * one is given that recipe's estimate, since the lookup goes by id alone.
   */
  lemma LabeledTwinTakesEstimate(rows: seq<Row>, sim: Similarity, k: nat, i: int, j: int)
    requires UnlabeledIdsUnique(rows) && 0 <= i < |rows| && 0 <= j < |rows|
    requires rows[i].labelScore != 0 && rows[j].labelScore == 0 && rows[i].id == rows[j].id
    ensures AffinityEstimates(rows, sim, k)[i] == EstimateOf(rows[j].embedding, Labeled(rows), sim, k)
  {
    UnlabeledRowLookup(rows, sim, k, j);
  }

  /**
   * A labeled recipe whose id no unlabeled recipe shares gets no estimate,
   * whether or not other labeled recipes share its id.
   */
  lemma LabeledWithoutTwinGetsNone(rows: seq<Row>, sim: Similarity, k: nat, i: int)
    requires UnlabeledIdsUnique(rows) && 0 <= i < |rows| && rows[i].labelScore != 0
    requires forall j :: 0 <= j < |rows| && rows[j].labelScore == 0 ==> rows[j].id != rows[i].id
    ensures AffinityEstimates(rows, sim, k)[i].None?
  {
  }

  /** A recipe gets an estimate exactly when it is unlabeled and some recipe is labeled. */
  lemma EstimateExistsIff(rows: seq<Row>, sim: Similarity, k: nat, i: int)
    requires k > 0 && UniqueIds(rows) && 0 <= i < |rows|
    ensures AffinityEstimates(rows, sim, k)[i].Some?
            <==> rows[i].labelScore == 0 && exists j :: 0 <= j < |rows| && rows[j].labelScore != 0
  {
    EstimateOfRow(rows, sim, k, i);
    EstimateExistsIffPool(rows[i].embedding, Labeled(rows), sim, k);
    LabeledNonEmptyIff(rows);
  }

  /** With no labeled recipe, no recipe gets an estimate (and nothing fails). */
  lemma NoLabeledNoEstimates(rows: seq<Row>, sim: Similarity, k: nat)
    requires k > 0 && UniqueIds(rows)
    requires forall j :: 0 <= j < |rows| ==> rows[j].labelScore == 0
    ensures forall i :: 0 <= i < |rows| ==> AffinityEstimates(rows, sim, k)[i].None?
  {
    forall i | 0 <= i < |rows| ensures AffinityEstimates(rows, sim, k)[i].None? {
      EstimateExistsIff(rows, sim, k, i);
    }
  }

  /** Every estimate lies between the smallest and the largest nonzero label. */
  lemma EstimateWithinLabelRange(rows: seq<Row>, sim: Similarity, k: nat, i: int, lo: int, hi: int)
    requires UniqueIds(rows) && 0 <= i < |rows|
    requires forall j :: 0 <= j < |rows| && rows[j].labelScore != 0 ==> lo <= rows[j].labelScore <= hi
    ensures AffinityEstimates(rows, sim, k)[i].Some? ==>
      lo as real <= AffinityEstimates(rows, sim, k)[i].value <= hi as real
  {
    EstimateOfRow(rows, sim, k, i);
    var lab := Labeled(rows);
    forall p | 0 <= p < |lab| ensures lo <= lab[p].labelScore <= hi {
      assert lab[p] in lab;
      var j :| 0 <= j < |rows| && rows[j] == lab[p];
    }
    EstimateWithinPoolRange(rows[i].embedding, lab, sim, k, lo, hi);
  }

  /**
   * When exactly one recipe is labeled, with label L, every unlabeled recipe's
   * estimate is exactly L, however far its embedding lies.
   */
  lemma SingleLabeledRecipeSpreads(rows: seq<Row>, sim: Similarity, k: nat, j: int)
    requires k > 0 && UniqueIds(rows) && 0 <= j < |rows|
    requires rows[j].labelScore != 0
    requires forall q :: 0 <= q < |rows| && q != j ==> rows[q].labelScore == 0
    ensures forall i :: 0 <= i < |rows| && rows[i].labelScore == 0 ==>
      AffinityEstimates(rows, sim, k)[i] == Some(rows[j].labelScore as real)
  {
    forall i | 0 <= i < |rows| && rows[i].labelScore == 0
      ensures AffinityEstimates(rows, sim, k)[i] == Some(rows[j].labelScore as real)
    {
      SingleLabeledRow(rows, sim, k, j, i);
    }
  }

  lemma SingleLabeledRow(rows: seq<Row>, sim: Similarity, k: nat, j: int, i: int)
    requires k > 0 && UniqueIds(rows) && 0 <= j < |rows| && 0 <= i < |rows|
    requires rows[j].labelScore != 0 && rows[i].labelScore == 0
    requires forall q :: 0 <= q < |rows| && q != j ==> rows[q].labelScore == 0
    ensures AffinityEstimates(rows, sim, k)[i] == Some(rows[j].labelScore as real)
  {
    EstimateOfRow(rows, sim, k, i);
    var lab := Labeled(rows);
    var score := rows[j].labelScore;
    assert rows[j] in lab;
    forall p | 0 <= p < |lab| ensures lab[p].labelScore == score {
      assert lab[p] in lab;
      var q :| 0 <= q < |rows| && rows[q] == lab[p];
    }
    EstimateWithinPoolRange(rows[i].embedding, lab, sim, k, score, score);
  }

  /* ---------------------------------------------------------------------- */
  /* The estimator                                                          */
  /* ---------------------------------------------------------------------- */

  /** One label column per neighbour slot: column c holds the label found in slot c of each query. */
  method NeighborColumns(rIndexes: seq<seq<int>>, lab: seq<Row>, k: nat) returns (columns: seq<seq<Option<int>>>)
    requires forall u :: 0 <= u < |rIndexes| ==> |rIndexes[u]| == k
    ensures |columns| == k
    ensures forall c :: 0 <= c < k ==> |columns[c]| == |rIndexes|
    ensures forall c, u :: 0 <= c < k && 0 <= u < |rIndexes| ==> columns[c][u] == LabelAt(rIndexes[u][c], lab)
  {
    columns := [];
    for c := 0 to k
      invariant |columns| == c
      invariant forall c' :: 0 <= c' < c ==> |columns[c']| == |rIndexes|
      invariant forall c', u :: 0 <= c' < c && 0 <= u < |rIndexes| ==> columns[c'][u] == LabelAt(rIndexes[u][c'], lab)
    {
      columns := columns + [seq(|rIndexes|, u requires 0 <= u < |rIndexes| => LabelAt(rIndexes[u][c], lab))];
    }
  }

  /** mean(axis=1) over the label columns: one mean per query row. */
  method RowMeans(rIndexes: seq<seq<int>>, lab: seq<Row>, k: nat, columns: seq<seq<Option<int>>>)
    returns (means: seq<Option<real>>)
    requires forall u :: 0 <= u < |rIndexes| ==> |rIndexes[u]| == k
    requires |columns| == k && forall c :: 0 <= c < k ==> |columns[c]| == |rIndexes|
    requires forall c, u :: 0 <= c < k && 0 <= u < |rIndexes| ==> columns[c][u] == LabelAt(rIndexes[u][c], lab)
    ensures |means| == |rIndexes|
    ensures forall u :: 0 <= u < |rIndexes| ==> means[u] == MeanPresent(NeighborLabels(rIndexes[u], lab))
  {
    means := [];
    for u := 0 to |rIndexes|
      invariant |means| == u
      invariant forall v :: 0 <= v < u ==> means[v] == MeanPresent(NeighborLabels(rIndexes[v], lab))
    {
      var rowValues := seq(k, c requires 0 <= c < k => columns[c][u]);
      assert rowValues == NeighborLabels(rIndexes[u], lab);
      var mean := MeanSkipMissing(rowValues);
      means := means + [mean];
    }
  }

  /** pd.Series(values, index=ids): the map from each id to its value. */
  method IndexById(ids: seq<int>, vals: seq<Option<real>>) returns (m: map<int, Option<real>>)
    requires |ids| == |vals|
    ensures m == ById(ids, vals)
  {
    m := map[];
    for u := 0 to |ids|
      invariant m == ById(ids[..u], vals[..u])
    {
      assert ids[..u + 1][..u] == ids[..u] && vals[..u + 1][..u] == vals[..u];
      m := m[ids[u] := vals[u]];
    }
    assert ids[..|ids|] == ids && vals[..|vals|] == vals;
  }

  /**
   * compute_recipe_affinity_score: partition, search, one label column per
   * neighbour slot, the row-wise mean, then the lookup by id.
   */
  method ComputeRecipeAffinityScore(rows: seq<Row>, sim: Similarity) returns (estimated: seq<Option<real>>)
    requires UnlabeledIdsUnique(rows)
    ensures estimated == AffinityEstimates(rows, sim, NbNeighbors)
  {
    var lab := Labeled(rows);
    var unl := Unlabeled(rows);

    var rIndexes := seq(|unl|, u requires 0 <= u < |unl| =>
      Search(Similarities(unl[u].embedding, lab, sim), NbNeighbors));
    var columns := NeighborColumns(rIndexes, lab, NbNeighbors);
    var estimates := RowMeans(rIndexes, lab, NbNeighbors, columns);
    assert estimates == PoolEstimates(unl, lab, sim, NbNeighbors);
    var scoreById := IndexById(Ids(unl), estimates);

    estimated := seq(|rows|, i requires 0 <= i < |rows| =>
      if rows[i].id in scoreById then scoreById[rows[i].id] else None);
  }

  /**
   * Three recipes of which only the second is labeled (label 1), one neighbour
   * asked for: both unlabeled recipes are estimated at 1, whatever the
   * similarity, and the labeled one gets nothing.
   */
  lemma PotatoOnionScenario(sim: Similarity)
    ensures AffinityEstimates([Row(1, [1.0, 0.0], 0), Row(2, [0.9, 0.1], 1), Row(3, [0.0, 1.0], 0)], sim, 1)
            == [Some(1.0), None, Some(1.0)]
  {
    var rows := [Row(1, [1.0, 0.0], 0), Row(2, [0.9, 0.1], 1), Row(3, [0.0, 1.0], 0)];
    SingleLabeledRecipeSpreads(rows, sim, 1, 1);
    EstimateOfRow(rows, sim, 1, 1);
  }
}

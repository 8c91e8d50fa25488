/** Lines 43-50: the merged table grouped by `Status.U5MR`, the weighted
    columns and the births summed per group, and the population-weighted
    averages computed as the quotient of two sums. */
module Grouping {
  import opened Tables
  import opened Order
  import opened Weighting

  /** The columns that `agg` sums. */
  datatype Summed = WeightedCol(service: Service) | BirthsCol

  function Cell(r: Merged, c: Summed): real
    requires ANC4 in r.weighted && SBA in r.weighted
  {
    match c
    // One lookup per service: the precondition names the two keys, not `s`.
    case WeightedCol(s) => if s == ANC4 then r.weighted[ANC4] else r.weighted[SBA]
    case BirthsCol => r.births
  }

  /** The sum of column `c` over the rows labelled `group`. */
  function Total(rows: seq<Merged>, group: string, c: Summed): real
    requires HasWeights(rows)
  {
    if rows == [] then 0.0
    else
      var last := rows[|rows| - 1];
      Total(rows[..|rows| - 1], group, c) + (if last.status == group then Cell(last, c) else 0.0)
  }

  /** The number of rows labelled `group`. */
  function Count(rows: seq<Merged>, group: string): nat
  {
    if rows == [] then 0
    else Count(rows[..|rows| - 1], group) + (if rows[|rows| - 1].status == group then 1 else 0)
  }

  /** The sum of the observed values of `s` over the rows labelled `group`. */
  function SumValues(rows: seq<Merged>, group: string, s: Service): real
  {
    if rows == [] then 0.0
    else
      var last := rows[|rows| - 1];
      SumValues(rows[..|rows| - 1], group, s) + (if last.status == group then ValueOf(last, s) else 0.0)
  }

  /** The plain average of `s` over the rows labelled `group`, a reference
      against which the weighted average is compared. */
  function ArithmeticMean(rows: seq<Merged>, group: string, s: Service): real
    requires Count(rows, group) > 0
  {
    SumValues(rows, group, s) / (Count(rows, group) as real)
  }

  /** The group row `g` holds, for its group, the sums of both weighted columns
      and of the births, and no average yet. */
  predicate SumsOf(rows: seq<Merged>, g: GroupRow)
    requires HasWeights(rows)
  {
    && ANC4 in g.weightedSums && SBA in g.weightedSums
    && g.weightedSums[ANC4] == Total(rows, g.status, WeightedCol(ANC4))
    && g.weightedSums[SBA] == Total(rows, g.status, WeightedCol(SBA))
    && g.births == Total(rows, g.status, BirthsCol)
    && g.popWeighted == map[]
  }

  /** The group row that a group's first row starts. */
  function Start(r: Merged): GroupRow
    requires ANC4 in r.weighted && SBA in r.weighted
  {
    GroupRow(r.status, map[ANC4 := r.weighted[ANC4], SBA := r.weighted[SBA]], r.births, map[])
  }

  /** Adds one more row to its group's sums. */
  function Plus(g: GroupRow, r: Merged): GroupRow
    requires ANC4 in g.weightedSums && SBA in g.weightedSums
    requires ANC4 in r.weighted && SBA in r.weighted
  {
    g.(weightedSums := map[ANC4 := g.weightedSums[ANC4] + r.weighted[ANC4], SBA := g.weightedSums[SBA] + r.weighted[SBA]],
       births := g.births + r.births)
  }

  /** One pass over the table, keeping a running group row per group: the
      way a hash aggregation computes `groupby(...).agg("sum")`. */
  function Accumulate(rows: seq<Merged>): (acc: map<string, GroupRow>)
    requires HasWeights(rows)
    ensures forall l :: l in acc ==> ANC4 in acc[l].weightedSums && SBA in acc[l].weightedSums
  {
    if rows == [] then map[]
    else
      var init, last := rows[..|rows| - 1], rows[|rows| - 1];
      assert HasWeights(init);
      var acc := Accumulate(init);
      if last.status in acc then acc[last.status := Plus(acc[last.status], last)]
      else acc[last.status := Start(last)]
  }

  /** The one-pass aggregation has an entry for exactly the labels present,
      each holding the sums of its group. */
  lemma {:induction false} AccumulateSums(rows: seq<Merged>)
    requires HasWeights(rows)
    ensures forall l :: l in Accumulate(rows) <==> l in Column(rows, LabelOf)
    ensures forall l :: l in Accumulate(rows) ==> Accumulate(rows)[l].status == l && SumsOf(rows, Accumulate(rows)[l])
  {
    if rows != [] {
      var init, last := rows[..|rows| - 1], rows[|rows| - 1];
      assert HasWeights(init);
      AccumulateSums(init);
      var acc := Accumulate(init);
      assert Column(rows, LabelOf) == Column(init, LabelOf) + [last.status];
      forall l | l in acc && l != last.status
        ensures SumsOf(rows, acc[l])
      {
        OtherGroupSums(rows, acc[l]);
      }
      if last.status in acc {
        PlusSums(rows, acc[last.status]);
      } else {
        StartSums(rows);
      }
    }
  }

  /** A new row leaves the sums of every other group as they were. */
  lemma OtherGroupSums(rows: seq<Merged>, g: GroupRow)
    requires HasWeights(rows) && rows != []
    requires SumsOf(rows[..|rows| - 1], g) && g.status != rows[|rows| - 1].status
    ensures SumsOf(rows, g)
  {
  }

  /** `Plus` adds a new row to the sums of its own group. */
  lemma PlusSums(rows: seq<Merged>, g: GroupRow)
    requires HasWeights(rows) && rows != []
    requires SumsOf(rows[..|rows| - 1], g) && g.status == rows[|rows| - 1].status
    ensures SumsOf(rows, Plus(g, rows[|rows| - 1]))
  {
  }

  /** `Start` holds the sums of a group whose first row is the new row. */
  lemma StartSums(rows: seq<Merged>)
    requires HasWeights(rows) && rows != []
    requires rows[|rows| - 1].status !in Column(rows[..|rows| - 1], LabelOf)
    ensures SumsOf(rows, Start(rows[|rows| - 1]))
  {
    AbsentLabelTotals(rows[..|rows| - 1], rows[|rows| - 1].status);
  }

  /** A group that labels no row has all its sums zero. */
  lemma {:induction false} AbsentLabelTotals(rows: seq<Merged>, group: string)
    requires HasWeights(rows)
    requires group !in Column(rows, LabelOf)
    ensures Total(rows, group, WeightedCol(ANC4)) == 0.0
    ensures Total(rows, group, WeightedCol(SBA)) == 0.0
    ensures Total(rows, group, BirthsCol) == 0.0
    ensures Count(rows, group) == 0
  {
    if rows != [] {
      var init := rows[..|rows| - 1];
      assert Column(rows, LabelOf) == Column(init, LabelOf) + [rows[|rows| - 1].status];
      assert HasWeights(init);
      AbsentLabelTotals(init, group);
    }
  }

  /** `groupby("Status.U5MR").agg({...: "sum"}).reset_index()`: one row per
      distinct group, in ascending group order, with that group's sums. */
  function GroupSums(rows: seq<Merged>): (g: seq<GroupRow>)
    requires HasWeights(rows)
    ensures StrictlyAscending(Column(g, GroupLabel))
    ensures forall l :: l in Column(g, GroupLabel) <==> l in Column(rows, LabelOf)
    ensures forall i :: 0 <= i < |g| ==> SumsOf(rows, g[i])
  {
    var labels := Ascending(Column(rows, LabelOf));
    var acc := Accumulate(rows);
    AccumulateSums(rows);
    var g := seq(|labels|, i requires 0 <= i < |labels| => acc[labels[i]]);
    assert Column(g, GroupLabel) == labels;
    g
  }

  /** `ANC4_weighted / Births_2022` of one group row. The division has no
      guard in the source: the model defines it only for a non-zero total. */
  function WeightedMean(weightedSum: real, births: real): (m: real)
    requires births != 0.0
    ensures m * births == weightedSum
  {
    weightedSum / births
  }

  /** No average can be formed for a group whose countries all have zero
      births: its births total is zero. */
  lemma {:induction false} ZeroBirthsGroup(rows: seq<Merged>, group: string)
    requires HasWeights(rows)
    requires forall i :: 0 <= i < |rows| && rows[i].status == group ==> rows[i].births == 0.0
    ensures Total(rows, group, BirthsCol) == 0.0
  {
    if rows != [] {
      ZeroBirthsGroup(rows[..|rows| - 1], group);
    }
  }

  /** Dropping the last row keeps the weighted values products. */
  lemma ProductsOfPrefix(rows: seq<Merged>)
    requires WeightsAreProducts(rows) && rows != []
    ensures WeightsAreProducts(rows[..|rows| - 1])
  {
    var init := rows[..|rows| - 1];
    forall i, t | 0 <= i < |init| ensures t in init[i].weighted && init[i].weighted[t] == Weight(init[i], t) {
      assert init[i] == rows[i];
    }
  }

  /** `x` is `c` times `y`. */
  predicate Scaled(x: real, y: real, c: real)
  {
    x == c * y
  }

  /** Every row of `group` has births `c`, and its weighted values are its
      values times `c`. */
  predicate EqualBirths(rows: seq<Merged>, group: string, c: real)
    requires HasWeights(rows)
  {
    forall i :: 0 <= i < |rows| && rows[i].status == group ==>
      && rows[i].births == c
      && Scaled(Cell(rows[i], WeightedCol(ANC4)), rows[i].anc4, c)
      && Scaled(Cell(rows[i], WeightedCol(SBA)), rows[i].sba, c)
  }

  /** When every country of a group has the same births `c`, each weighted
      sum is `c` times the plain sum of the values. */
  lemma {:induction false} EqualBirthsWeighted(rows: seq<Merged>, group: string, c: real)
    requires HasWeights(rows) && EqualBirths(rows, group, c)
    ensures Scaled(Total(rows, group, WeightedCol(ANC4)), SumValues(rows, group, ANC4), c)
    ensures Scaled(Total(rows, group, WeightedCol(SBA)), SumValues(rows, group, SBA), c)
  {
    if rows != [] {
      var init, last := rows[..|rows| - 1], rows[|rows| - 1];
      assert HasWeights(init) && EqualBirths(init, group, c) by {
        forall i | 0 <= i < |init| ensures init[i] == rows[i] { }
      }
      EqualBirthsWeighted(init, group, c);
      if last.status == group {
        ScaledStep(Total(init, group, WeightedCol(ANC4)), SumValues(init, group, ANC4), Cell(last, WeightedCol(ANC4)), last.anc4, c);
        ScaledStep(Total(init, group, WeightedCol(SBA)), SumValues(init, group, SBA), Cell(last, WeightedCol(SBA)), last.sba, c);
      }
    }
  }

  /** Adding `w = c * v` to `total = c * sum` keeps the factor. */
  lemma ScaledStep(total: real, sum: real, w: real, v: real, c: real)
    requires Scaled(total, sum, c) && Scaled(w, v, c)
    ensures Scaled(total + w, sum + v, c)
  {
  }

  /** When every country of a group has the same births `c`, the births total
      is `c` times the number of countries. */
  lemma {:induction false} EqualBirthsCount(rows: seq<Merged>, group: string, c: real)
    requires HasWeights(rows)
    requires forall i :: 0 <= i < |rows| && rows[i].status == group ==> rows[i].births == c
    ensures Scaled(Total(rows, group, BirthsCol), Count(rows, group) as real, c)
  {
    if rows != [] {
      var init := rows[..|rows| - 1];
      assert HasWeights(init);
      EqualBirthsCount(init, group, c);
      if rows[|rows| - 1].status == group {
        CountStep(Total(init, group, BirthsCol), Count(init, group), c);
      }
    }
  }

  /** One more country with births `c` adds `c` to a total of `c` per country. */
  lemma CountStep(total: real, n: nat, c: real)
    requires Scaled(total, n as real, c)
    ensures Scaled(total + c, (n + 1) as real, c)
  {
  }

  /** With equal, non-zero births across a group, each weighted average is the
      plain average. */
  lemma EqualBirthsMean(rows: seq<Merged>, group: string, c: real)
    requires WeightsAreProducts(rows)
    requires Count(rows, group) > 0 && c != 0.0
    requires forall i :: 0 <= i < |rows| && rows[i].status == group ==> rows[i].births == c
    ensures HasWeights(rows) && Total(rows, group, BirthsCol) != 0.0
    ensures WeightedMean(Total(rows, group, WeightedCol(ANC4)), Total(rows, group, BirthsCol)) == ArithmeticMean(rows, group, ANC4)
    ensures WeightedMean(Total(rows, group, WeightedCol(SBA)), Total(rows, group, BirthsCol)) == ArithmeticMean(rows, group, SBA)
  {
    assert EqualBirths(rows, group, c) by {
      forall i | 0 <= i < |rows| && rows[i].status == group
        ensures Scaled(Cell(rows[i], WeightedCol(ANC4)), rows[i].anc4, c)
        ensures Scaled(Cell(rows[i], WeightedCol(SBA)), rows[i].sba, c)
      {
        assert rows[i].weighted[ANC4] == Weight(rows[i], ANC4);
        assert rows[i].weighted[SBA] == Weight(rows[i], SBA);
      }
    }
    EqualBirthsWeighted(rows, group, c);
    EqualBirthsCount(rows, group, c);
    var n := Count(rows, group) as real;
    ScaledMean(Total(rows, group, WeightedCol(ANC4)), Total(rows, group, BirthsCol), SumValues(rows, group, ANC4), n, c);
    ScaledMean(Total(rows, group, WeightedCol(SBA)), Total(rows, group, BirthsCol), SumValues(rows, group, SBA), n, c);
  }

  /** Scaling both sums by the same non-zero factor leaves their quotient as it is. */
  lemma ScaledMean(weightedSum: real, births: real, v: real, n: real, c: real)
    requires Scaled(weightedSum, v, c) && Scaled(births, n, c)
    requires n != 0.0 && c != 0.0
    ensures births != 0.0 && WeightedMean(weightedSum, births) == v / n
  {
    var q := v / n;
    assert q * n == v;
    assert weightedSum == q * births;
  }

  /** `group` labels row `k` and no other row. */
  predicate OnlyRow(rows: seq<Merged>, group: string, k: int)
  {
    && 0 <= k < |rows| && rows[k].status == group
    && forall i :: 0 <= i < |rows| && i != k ==> rows[i].status != group
  }

  lemma {:induction false} OnlyRowCount(rows: seq<Merged>, group: string, k: int)
    requires OnlyRow(rows, group, k)
    ensures Count(rows, group) == 1
  {
    var init := rows[..|rows| - 1];
    if k == |rows| - 1 {
      CountAbsent(init, group);
    } else {
      assert OnlyRow(init, group, k);
      OnlyRowCount(init, group, k);
    }
  }

  lemma {:induction false} CountAbsent(rows: seq<Merged>, group: string)
    requires forall i :: 0 <= i < |rows| ==> rows[i].status != group
    ensures Count(rows, group) == 0
  {
    if rows != [] {
      CountAbsent(rows[..|rows| - 1], group);
    }
  }

  /** A group of one country with non-zero births averages to that
      country's own values. */
  lemma SingleCountryMean(rows: seq<Merged>, group: string, k: int)
    requires WeightsAreProducts(rows)
    requires OnlyRow(rows, group, k) && rows[k].births != 0.0
    ensures HasWeights(rows) && Total(rows, group, BirthsCol) != 0.0
    ensures WeightedMean(Total(rows, group, WeightedCol(ANC4)), Total(rows, group, BirthsCol)) == rows[k].anc4
    ensures WeightedMean(Total(rows, group, WeightedCol(SBA)), Total(rows, group, BirthsCol)) == rows[k].sba
  {
    OnlyRowCount(rows, group, k);
    EqualBirthsMean(rows, group, rows[k].births);
    OnlyRowSum(rows, group, ANC4, k);
    OnlyRowSum(rows, group, SBA, k);
  }

  lemma {:induction false} OnlyRowSum(rows: seq<Merged>, group: string, s: Service, k: int)
    requires OnlyRow(rows, group, k)
    ensures SumValues(rows, group, s) == ValueOf(rows[k], s)
  {
    var init := rows[..|rows| - 1];
    if k == |rows| - 1 {
      AbsentSum(init, group, s);
    } else {
      assert OnlyRow(init, group, k);
      OnlyRowSum(init, group, s, k);
    }
  }

  lemma {:induction false} AbsentSum(rows: seq<Merged>, group: string, s: Service)
    requires forall i :: 0 <= i < |rows| ==> rows[i].status != group
    ensures SumValues(rows, group, s) == 0.0
  {
    if rows != [] {
      AbsentSum(rows[..|rows| - 1], group, s);
    }
  }

  /** A label that some row carries counts at least one row. */
  lemma {:induction false} PresentCount(rows: seq<Merged>, group: string)
    requires group in Column(rows, LabelOf)
    ensures Count(rows, group) > 0
  {
    var init := rows[..|rows| - 1];
    if rows[|rows| - 1].status != group {
      assert Column(rows, LabelOf) == Column(init, LabelOf) + [rows[|rows| - 1].status];
      PresentCount(init, group);
    }
  }

  /** A group whose countries all have positive births has a positive births
      total, so lines 49-50 are defined for it. */
  lemma {:induction false} PositiveBirthsTotal(rows: seq<Merged>, group: string)
    requires HasWeights(rows) && Count(rows, group) > 0
    requires forall i :: 0 <= i < |rows| && rows[i].status == group ==> rows[i].births > 0.0
    ensures Total(rows, group, BirthsCol) > 0.0
  {
    var init, last := rows[..|rows| - 1], rows[|rows| - 1];
    assert HasWeights(init);
    if Count(init, group) > 0 {
      PositiveBirthsTotal(init, group);
    } else if last.status == group {
      CountZeroTotal(init, group);
    }
  }

  lemma {:induction false} CountZeroTotal(rows: seq<Merged>, group: string)
    requires HasWeights(rows) && Count(rows, group) == 0
    ensures Total(rows, group, BirthsCol) == 0.0
  {
    if rows != [] {
      assert HasWeights(rows[..|rows| - 1]);
      CountZeroTotal(rows[..|rows| - 1], group);
    }
  }

  /** For a row of the grouped table whose countries all have the same
      non-zero births, the population-weighted averages are the plain
      averages. */
  lemma GroupMeanUnderEqualBirths(rows: seq<Merged>, i: int, c: real)
    requires WeightsAreProducts(rows)
    requires 0 <= i < |GroupSums(rows)| && c != 0.0
    requires forall j :: 0 <= j < |rows| && rows[j].status == GroupSums(rows)[i].status ==> rows[j].births == c
    ensures var g := GroupSums(rows)[i];
      && Count(rows, g.status) > 0 && g.births != 0.0
      && WeightedMean(g.weightedSums[ANC4], g.births) == ArithmeticMean(rows, g.status, ANC4)
      && WeightedMean(g.weightedSums[SBA], g.births) == ArithmeticMean(rows, g.status, SBA)
  {
    var g := GroupSums(rows)[i];
    assert g.status in Column(GroupSums(rows), GroupLabel) by {
      assert Column(GroupSums(rows), GroupLabel)[i] == g.status;
    }
    PresentCount(rows, g.status);
    EqualBirthsMean(rows, g.status, c);
  }

  /** For a row of the grouped table that stands for exactly one country with
      non-zero births, the population-weighted averages are that country's
      values. */
  lemma GroupMeanOfSingleCountry(rows: seq<Merged>, i: int, k: int)
    requires WeightsAreProducts(rows)
    requires 0 <= i < |GroupSums(rows)|
    requires OnlyRow(rows, GroupSums(rows)[i].status, k) && rows[k].births != 0.0
    ensures var g := GroupSums(rows)[i];
      && g.births != 0.0
      && WeightedMean(g.weightedSums[ANC4], g.births) == rows[k].anc4
      && WeightedMean(g.weightedSums[SBA], g.births) == rows[k].sba
  {
    SingleCountryMean(rows, GroupSums(rows)[i].status, k);
  }

  /** A group row once line 49 or 50 has run for service `s`. */
  function AddMean(g: GroupRow, s: Service): GroupRow
    requires s in g.weightedSums && g.births != 0.0
  {
    g.(popWeighted := g.popWeighted[s := WeightedMean(g.weightedSums[s], g.births)])
  }

  /** A group row once lines 49 and 50 have run. */
  function WithMeans(g: GroupRow): (w: GroupRow)
    requires ANC4 in g.weightedSums && SBA in g.weightedSums && g.births != 0.0
    ensures w.status == g.status && w.weightedSums == g.weightedSums && w.births == g.births
    ensures forall s :: s in w.popWeighted <==> s in g.popWeighted || s in Services
    ensures forall s :: s in Services ==> Scaled(w.weightedSums[s], w.births, w.popWeighted[s])
  {
    assert forall s :: s in Services <==> s == ANC4 || s == SBA;
    AddMean(AddMean(g, ANC4), SBA)
  }

  /** Every group has a non-zero births total and both weighted sums, so
      lines 49-50 are defined. */
  predicate MeansDefined(grouped: seq<GroupRow>)
  {
    forall i :: 0 <= i < |grouped| ==>
      ANC4 in grouped[i].weightedSums && SBA in grouped[i].weightedSums && grouped[i].births != 0.0
  }

  /** The grouped table once lines 49-50 have run: every row keeps its label
      and sums and gains, for each service, the quotient of its weighted sum
      by its births total. */
  function AddMeans(grouped: seq<GroupRow>): (r: seq<GroupRow>)
    requires MeansDefined(grouped)
    ensures |r| == |grouped|
    ensures forall i :: 0 <= i < |r| ==> r[i] == WithMeans(grouped[i])
    ensures forall i :: 0 <= i < |r| ==>
      r[i].status == grouped[i].status && r[i].weightedSums == grouped[i].weightedSums && r[i].births == grouped[i].births
    ensures forall i, s :: 0 <= i < |r| ==>
      s in grouped[i].weightedSums && s in r[i].popWeighted && r[i].popWeighted[s] == grouped[i].weightedSums[s] / grouped[i].births
  {
    var r := seq(|grouped|, i requires 0 <= i < |grouped| => WithMeans(grouped[i]));
    assert forall i, s :: 0 <= i < |r| ==>
      s in grouped[i].weightedSums && s in r[i].popWeighted && r[i].popWeighted[s] == grouped[i].weightedSums[s] / grouped[i].births by {
      forall i, s | 0 <= i < |r|
        ensures s in grouped[i].weightedSums && s in r[i].popWeighted && r[i].popWeighted[s] == grouped[i].weightedSums[s] / grouped[i].births
      {
        MeanIsQuotient(grouped[i], s);
      }
    }
    r
  }

  /** The average a group row gains for `s` is its weighted sum divided by its
      births total. */
  lemma MeanIsQuotient(g: GroupRow, s: Service)
    requires ANC4 in g.weightedSums && SBA in g.weightedSums && g.births != 0.0
    ensures s in g.weightedSums && s in WithMeans(g).popWeighted
    ensures WithMeans(g).popWeighted[s] == g.weightedSums[s] / g.births
  {
    var r := WithMeans(g);
    assert s in Services by {
      if s == ANC4 { assert Services[0] == ANC4; } else { assert Services[1] == SBA; }
    }
    Quotient(r.popWeighted[s], r.births, r.weightedSums[s]);
  }

  lemma Quotient(q: real, d: real, n: real)
    requires d != 0.0 && Scaled(n, d, q)
    ensures q == n / d
  {
  }


  /** Lines 49-50 as they run: each statement assigns a whole column of the
      grouped table. */
  method AddPopWeightedColumns(grouped: array<GroupRow>)
    requires MeansDefined(grouped[..])
    modifies grouped
    ensures grouped[..] == AddMeans(old(grouped[..]))
  {
    AddMeanColumn(grouped, ANC4);
    AddMeanColumn(grouped, SBA);
    assert forall k :: 0 <= k < grouped.Length ==> grouped[k] == WithMeans(old(grouped[k]));
  }

  /** One of lines 49-50: the column `<service>_pop_weighted` is assigned
      row by row, each row's average from that row's sums. */
  method AddMeanColumn(grouped: array<GroupRow>, s: Service)
    requires forall k :: 0 <= k < grouped.Length ==> s in grouped[k].weightedSums && grouped[k].births != 0.0
    modifies grouped
    ensures forall k :: 0 <= k < grouped.Length ==> grouped[k] == AddMean(old(grouped[k]), s)
  {
    for i := 0 to grouped.Length
      invariant forall k :: 0 <= k < i ==> grouped[k] == AddMean(old(grouped[k]), s)
      invariant forall k :: i <= k < grouped.Length ==> grouped[k] == old(grouped[k])
    {
      grouped[i] := AddMean(grouped[i], s);
    }
  }
}

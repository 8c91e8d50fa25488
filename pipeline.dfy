/** The whole analytic chain of `scripts/run_project.py`, from the four input
    tables to the grouped table with its population-weighted averages. */
module Pipeline {
  import opened Tables
  import opened Latest
  import opened Merge
  import opened Weighting
  import opened Grouping
  import opened Order

  /** The merged table of lines 15-36. */
  function MergedTable(anc4: seq<Observation>, sba: seq<Observation>, status: seq<StatusRow>, population: seq<PopulationRow>): seq<Merged>
  {
    MergeAll(LatestPerKey(FilterWindow(anc4)), LatestPerKey(FilterWindow(sba)), status, Births2022(population))
  }

  /** The merged table once lines 39-40 have added the weighted columns. */
  function WeightedTable(anc4: seq<Observation>, sba: seq<Observation>, status: seq<StatusRow>, population: seq<PopulationRow>): (w: seq<Merged>)
    ensures WeightsAreProducts(w)
  {
    var merged := MergedTable(anc4, sba, status, population);
    WeighedRowsAreProducts(merged);
    Weigh(merged)
  }

  /** The grouped table of lines 43-47. */
  function GroupedTable(anc4: seq<Observation>, sba: seq<Observation>, status: seq<StatusRow>, population: seq<PopulationRow>): seq<GroupRow>
  {
    GroupSums(WeightedTable(anc4, sba, status, population))
  }

  /** The table that line 53 writes out: the grouped table once lines 49-50
      have added the averages. */
  function PopulationWeighted(anc4: seq<Observation>, sba: seq<Observation>, status: seq<StatusRow>, population: seq<PopulationRow>): seq<GroupRow>
    requires MeansDefined(GroupedTable(anc4, sba, status, population))
  {
    AddMeans(GroupedTable(anc4, sba, status, population))
  }

  /** Lines 15-50 as they run: the merged table is built, its weighted columns
      are assigned in place, it is grouped, and the grouped table's average
      columns are assigned in place. */
  method Run(anc4: seq<Observation>, sba: seq<Observation>, status: seq<StatusRow>, population: seq<PopulationRow>)
      returns (result: seq<GroupRow>)
    requires MeansDefined(GroupedTable(anc4, sba, status, population))
    ensures result == PopulationWeighted(anc4, sba, status, population)
  {
    var merged := MergedTable(anc4, sba, status, population);
    var weighted := WeightColumns(merged);
    assert weighted == WeightedTable(anc4, sba, status, population);
    var sums := GroupSums(weighted);
    result := AverageColumns(sums);
  }

  /** Lines 39-40 on a data frame holding `merged`. */
  method WeightColumns(merged: seq<Merged>) returns (weighted: seq<Merged>)
    ensures weighted == Weigh(merged)
  {
    var table := new Merged[|merged|](i requires 0 <= i < |merged| => merged[i]);
    assert table[..] == merged;
    AddWeightedColumns(table);
    weighted := table[..];
  }

  /** Lines 49-50 on a data frame holding `sums`. */
  method AverageColumns(sums: seq<GroupRow>) returns (result: seq<GroupRow>)
    requires MeansDefined(sums)
    ensures result == AddMeans(sums)
  {
    var grouped := new GroupRow[|sums|](i requires 0 <= i < |sums| => sums[i]);
    assert grouped[..] == sums;
    AddPopWeightedColumns(grouped);
    result := grouped[..];
  }

  /** Reference sum: value times births over the merged rows of one group,
      computed directly on the merged table. */
  function ProductSum(rows: seq<Merged>, group: string, s: Service): real
  {
    if rows == [] then 0.0
    else
      var last := rows[|rows| - 1];
      ProductSum(rows[..|rows| - 1], group, s) + (if last.status == group then ValueOf(last, s) * last.births else 0.0)
  }

  /** Reference sum: births over the merged rows of one group. */
  function BirthsSum(rows: seq<Merged>, group: string): real
  {
    if rows == [] then 0.0
    else
      var last := rows[|rows| - 1];
      BirthsSum(rows[..|rows| - 1], group) + (if last.status == group then last.births else 0.0)
  }

  /** Summing the weighted columns that lines 39-40 add is summing value times
      births over the merged rows. */
  lemma WeighedTotals(rows: seq<Merged>, group: string, s: Service)
    ensures WeightsAreProducts(Weigh(rows))
    ensures Total(Weigh(rows), group, WeightedCol(s)) == ProductSum(rows, group, s)
    ensures Total(Weigh(rows), group, BirthsCol) == BirthsSum(rows, group)
  {
    WeighedRowsAreProducts(rows);
    ProductTotals(Weigh(rows), rows, group, s);
    BirthsTotals(Weigh(rows), rows, group);
  }

  lemma {:induction false} ProductTotals(w: seq<Merged>, rows: seq<Merged>, group: string, s: Service)
    requires |w| == |rows| && WeightsAreProducts(w)
    requires forall i :: 0 <= i < |w| ==> SameData(w[i], rows[i])
    ensures Total(w, group, WeightedCol(s)) == ProductSum(rows, group, s)
  {
    if w != [] {
      var n := |w| - 1;
      ProductsOfPrefix(w);
      assert forall i :: 0 <= i < n ==> SameData(w[..n][i], rows[..n][i]) by {
        forall i | 0 <= i < n ensures SameData(w[..n][i], rows[..n][i]) {
          assert w[..n][i] == w[i] && rows[..n][i] == rows[i];
        }
      }
      ProductTotals(w[..n], rows[..n], group, s);
      SameDataSameWeight(w[n], rows[n], s);
      assert Cell(w[n], WeightedCol(s)) == Weight(w[n], s) by {
        if s == ANC4 { } else { }
      }
    }
  }

  lemma {:induction false} BirthsTotals(w: seq<Merged>, rows: seq<Merged>, group: string)
    requires |w| == |rows| && HasWeights(w)
    requires forall i :: 0 <= i < |w| ==> SameData(w[i], rows[i])
    ensures Total(w, group, BirthsCol) == BirthsSum(rows, group)
  {
    if w != [] {
      var n := |w| - 1;
      assert HasWeights(w[..n]);
      assert forall i :: 0 <= i < n ==> SameData(w[..n][i], rows[..n][i]) by {
        forall i | 0 <= i < n ensures SameData(w[..n][i], rows[..n][i]) {
          assert w[..n][i] == w[i] && rows[..n][i] == rows[i];
        }
      }
      BirthsTotals(w[..n], rows[..n], group);
    }
  }

  /** A country reaches the merged table exactly when it has an ANC4 row and
      an SBA row in 2018-2022, a status row and a population row for 2022. */
  lemma PipelineKeys(anc4: seq<Observation>, sba: seq<Observation>, status: seq<StatusRow>, population: seq<PopulationRow>, k: string)
    ensures k in KeySet(MergedTable(anc4, sba, status, population), MergedKey)
        <==> && (exists a :: a in anc4 && a.area == k && InWindow(a))
             && (exists b :: b in sba && b.area == k && InWindow(b))
             && (exists st :: st in status && st.iso3 == k)
             && (exists p :: p in population && p.year == BirthsYear && p.iso3 == k)
  {
    var la, lb := LatestPerKey(FilterWindow(anc4)), LatestPerKey(FilterWindow(sba));
    var births := Births2022(population);
    MergedKeySet(la, lb, status, births);
    LatestKeysInWindow(anc4, k);
    LatestKeysInWindow(sba, k);
    KeySetMembers(status, StatusKey, k);
    BirthsKeys(population, k);
  }

  /** Every merged row holds the values of the latest ANC4 and SBA rows of its
      country in 2018-2022, the status of a status row of that country, and
      the births of a 2022 population row of that country. */
  lemma PipelineRowSources(anc4: seq<Observation>, sba: seq<Observation>, status: seq<StatusRow>, population: seq<PopulationRow>, i: int)
    requires 0 <= i < |MergedTable(anc4, sba, status, population)|
    ensures var m := MergedTable(anc4, sba, status, population)[i];
      && m.weighted == map[]
      && (exists a :: LatestOf(anc4, a) && a.area == m.iso3 && a.value == m.anc4)
      && (exists b :: LatestOf(sba, b) && b.area == m.iso3 && b.value == m.sba)
      && (exists st :: st in status && st.iso3 == m.iso3 && st.status == m.status)
      && (exists p :: p in population && p.year == BirthsYear && p.iso3 == m.iso3 && p.births == m.births)
  {
    var la, lb := LatestPerKey(FilterWindow(anc4)), LatestPerKey(FilterWindow(sba));
    forall a | a in la ensures LatestOf(anc4, a) {
      LatestRowIsLatest(anc4, a);
    }
    forall b | b in lb ensures LatestOf(sba, b) {
      LatestRowIsLatest(sba, b);
    }
    MergedRowSources(anc4, sba, population, la, lb, status, i);
  }

  /** `PipelineRowSources` for any tables `la` and `lb` of latest rows. */
  lemma MergedRowSources(anc4: seq<Observation>, sba: seq<Observation>, population: seq<PopulationRow>,
                         la: seq<Observation>, lb: seq<Observation>, status: seq<StatusRow>, i: int)
    requires forall a :: a in la ==> LatestOf(anc4, a)
    requires forall b :: b in lb ==> LatestOf(sba, b)
    requires 0 <= i < |MergeAll(la, lb, status, Births2022(population))|
    ensures var m := MergeAll(la, lb, status, Births2022(population))[i];
      && m.weighted == map[]
      && (exists a :: LatestOf(anc4, a) && a.area == m.iso3 && a.value == m.anc4)
      && (exists b :: LatestOf(sba, b) && b.area == m.iso3 && b.value == m.sba)
      && (exists st :: st in status && st.iso3 == m.iso3 && st.status == m.status)
      && (exists p :: p in population && p.year == BirthsYear && p.iso3 == m.iso3 && p.births == m.births)
  {
    var births := Births2022(population);
    var m := MergeAll(la, lb, status, births)[i];
    MergedRowsHaveSources(la, lb, status, births, i);
    var a, b, st, w :| a in la && b in lb && st in status && w in births && MadeFrom(m, a, b, st, w);
    var p :| p in population && p.year == BirthsYear && w == BirthsRow(p.iso3, p.births);
  }

  /** When the status table and the 2022 births have one row per country, the
      merged table has one row per country, in ascending order of the key. */
  lemma PipelineUniqueKeys(anc4: seq<Observation>, sba: seq<Observation>, status: seq<StatusRow>, population: seq<PopulationRow>)
    requires UniqueKeys(status, StatusKey) && UniqueKeys(Births2022(population), BirthsKey)
    ensures UniqueKeys(MergedTable(anc4, sba, status, population), MergedKey)
    ensures StrictlyAscending(Column(MergedTable(anc4, sba, status, population), MergedKey))
  {
    var la, lb := LatestPerKey(FilterWindow(anc4)), LatestPerKey(FilterWindow(sba));
    MergedUniqueKeys(la, lb, status, Births2022(population));
    MergedAscending(la, lb, status, Births2022(population));
  }

  /** The groups of the output are the status labels of the merged rows, each
      once and in ascending order. */
  lemma PipelineGroups(anc4: seq<Observation>, sba: seq<Observation>, status: seq<StatusRow>, population: seq<PopulationRow>, l: string)
    ensures l in Column(GroupedTable(anc4, sba, status, population), GroupLabel)
        <==> exists m :: m in MergedTable(anc4, sba, status, population) && m.status == l
    ensures UniqueKeys(GroupedTable(anc4, sba, status, population), GroupLabel)
  {
    var merged := MergedTable(anc4, sba, status, population);
    var gs := GroupedTable(anc4, sba, status, population);
    AscendingIsDistinct(Column(gs, GroupLabel));
    WeighKeepsLabels(merged);
    ColumnMembers(merged, LabelOf, l);
  }

  /** Each average of the output is the births-weighted average of the
      service's value over the merged rows of the group: the sum of value
      times births divided by the sum of births. */
  lemma PipelineMeans(anc4: seq<Observation>, sba: seq<Observation>, status: seq<StatusRow>, population: seq<PopulationRow>, i: int, s: Service)
    requires MeansDefined(GroupedTable(anc4, sba, status, population))
    requires 0 <= i < |PopulationWeighted(anc4, sba, status, population)|
    ensures var r := PopulationWeighted(anc4, sba, status, population)[i];
      var merged := MergedTable(anc4, sba, status, population);
      && s in r.popWeighted
      && BirthsSum(merged, r.status) == r.births != 0.0
      && r.popWeighted[s] == ProductSum(merged, r.status, s) / BirthsSum(merged, r.status)
  {
    var merged := MergedTable(anc4, sba, status, population);
    var w := WeightedTable(anc4, sba, status, population);
    WeighedRowsAreProducts(merged);
    GroupMeans(w, merged, i, s);
  }

  /** When every 2022 population row has positive births, every group has a
      positive births total and lines 49-50 never divide by zero. */
  lemma PositiveBirthsMeansDefined(anc4: seq<Observation>, sba: seq<Observation>, status: seq<StatusRow>, population: seq<PopulationRow>)
    requires forall p :: p in population && p.year == BirthsYear ==> p.births > 0.0
    ensures MeansDefined(GroupedTable(anc4, sba, status, population))
  {
    var merged := MergedTable(anc4, sba, status, population);
    var w := WeightedTable(anc4, sba, status, population);
    WeighedRowsAreProducts(merged);
    forall j | 0 <= j < |w| ensures w[j].births > 0.0 {
      PipelineRowSources(anc4, sba, status, population, j);
      assert SameData(w[j], merged[j]);
    }
    var gs := GroupedTable(anc4, sba, status, population);
    forall i | 0 <= i < |gs|
      ensures ANC4 in gs[i].weightedSums && SBA in gs[i].weightedSums && gs[i].births != 0.0
    {
      assert gs[i].status in Column(gs, GroupLabel) by {
        assert Column(gs, GroupLabel)[i] == gs[i].status;
      }
      PresentCount(w, gs[i].status);
      PositiveBirthsTotal(w, gs[i].status);
      assert SumsOf(w, gs[i]);
    }
  }

  /** The averages computed from the sums of any weighted table whose rows
      carry the data of `rows`. */
  lemma GroupMeans(w: seq<Merged>, rows: seq<Merged>, i: int, s: Service)
    requires |w| == |rows| && WeightsAreProducts(w)
    requires forall j :: 0 <= j < |w| ==> SameData(w[j], rows[j])
    requires MeansDefined(GroupSums(w)) && 0 <= i < |GroupSums(w)|
    ensures var r := WithMeans(GroupSums(w)[i]);
      && s in r.popWeighted
      && BirthsSum(rows, r.status) == r.births != 0.0
      && r.popWeighted[s] == ProductSum(rows, r.status, s) / BirthsSum(rows, r.status)
  {
    var g := GroupSums(w)[i];
    ProductTotals(w, rows, g.status, s);
    BirthsTotals(w, rows, g.status);
    assert g.weightedSums[s] == Total(w, g.status, WeightedCol(s)) by {
      assert SumsOf(w, g);
      if s == ANC4 { } else { }
    }
    MeanIsQuotient(g, s);
  }
}

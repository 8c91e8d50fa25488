/** Lines 39-40: for each service, the merged table gains a column
    `<service>_weighted` holding the observed value times the births. */
module Weighting {
  import opened Tables

  /** `OBS_VALUE_<service> * Births_2022` of one row. */
  function Weight(r: Merged, s: Service): real
  {
    ValueOf(r, s) * r.births
  }

  /** Line 40 for one row and one service. */
  function AddColumn(r: Merged, s: Service): Merged
  {
    r.(weighted := r.weighted[s := Weight(r, s)])
  }

  /** `w` and `r` agree on every column but the weighted ones. */
  predicate SameData(w: Merged, r: Merged)
  {
    w.iso3 == r.iso3 && w.anc4 == r.anc4 && w.sba == r.sba && w.status == r.status && w.births == r.births
  }

  lemma SameDataSameWeight(v: Merged, r: Merged, s: Service)
    requires SameData(v, r)
    ensures Weight(v, s) == Weight(r, s)
  {
  }

  /** The columns the loop has added to a row after visiting `ss`. */
  function AddColumns(r: Merged, ss: seq<Service>): (w: Merged)
    ensures SameData(w, r)
    ensures forall s :: s in w.weighted <==> s in r.weighted || s in ss
    ensures forall s :: s in ss ==> w.weighted[s] == Weight(r, s)
    ensures forall s :: s in r.weighted && s !in ss ==> w.weighted[s] == r.weighted[s]
  {
    if ss == [] then r
    else
      assert forall s :: s in ss <==> s in ss[..|ss| - 1] || s == ss[|ss| - 1] by {
        assert ss == ss[..|ss| - 1] + [ss[|ss| - 1]];
      }
      var v := AddColumns(r, ss[..|ss| - 1]);
      assert forall s :: Weight(v, s) == Weight(r, s) by {
        forall s ensures Weight(v, s) == Weight(r, s) {
          SameDataSameWeight(v, r, s);
        }
      }
      AddColumn(v, ss[|ss| - 1])
  }

  /** A row once the loop over `["ANC4", "SBA"]` is done. */
  function WithWeights(r: Merged): Merged
  {
    AddColumns(r, Services)
  }

  /** The merged table once the loop is done. */
  function Weigh(rows: seq<Merged>): (w: seq<Merged>)
    ensures |w| == |rows|
    ensures forall i :: 0 <= i < |rows| ==> w[i] == WithWeights(rows[i])
  {
    seq(|rows|, i requires 0 <= i < |rows| => WithWeights(rows[i]))
  }

  /** Both weighted columns exist in every row, as `agg` demands of the
      columns it is asked to sum. */
  predicate HasWeights(rows: seq<Merged>)
  {
    forall i :: 0 <= i < |rows| ==> ANC4 in rows[i].weighted && SBA in rows[i].weighted
  }

  /** Every row holds both weighted columns, and each is exactly the row's
      value of that service times its births. */
  predicate WeightsAreProducts(rows: seq<Merged>)
  {
    && HasWeights(rows)
    && forall i, s :: 0 <= i < |rows| ==> s in rows[i].weighted && rows[i].weighted[s] == Weight(rows[i], s)
  }

  /** After the loop, the ANC4 and SBA weighted values of every row are value
      times births, whatever columns the row had before, and no other column
      of the row has changed. */
  lemma {:induction false} WeighedRowsAreProducts(rows: seq<Merged>)
    ensures WeightsAreProducts(Weigh(rows))
    ensures forall i :: 0 <= i < |rows| ==> SameData(Weigh(rows)[i], rows[i])
  {
    var w := Weigh(rows);
    forall i, s | 0 <= i < |rows|
      ensures s in w[i].weighted && w[i].weighted[s] == Weight(w[i], s)
    {
      assert s in Services by {
        match s
        case ANC4 => assert Services[0] == ANC4;
        case SBA => assert Services[1] == SBA;
      }
    }
  }

  /** Adding the weighted columns leaves the status column as it was. */
  lemma WeighKeepsLabels(rows: seq<Merged>)
    ensures Column(Weigh(rows), LabelOf) == Column(rows, LabelOf)
  {
    WeighedRowsAreProducts(rows);
  }

  /** Lines 39-40 as they run: the outer loop visits the services, and for each
      the whole column is assigned, row by row. */
  method AddWeightedColumns(table: array<Merged>)
    modifies table
    ensures table[..] == Weigh(old(table[..]))
  {
    for j := 0 to |Services|
      invariant forall k :: 0 <= k < table.Length ==> table[k] == AddColumns(old(table[k]), Services[..j])
    {
      var service := Services[j];
      for i := 0 to table.Length
        invariant forall k :: 0 <= k < i ==> table[k] == AddColumns(old(table[k]), Services[..j + 1])
        invariant forall k :: i <= k < table.Length ==> table[k] == AddColumns(old(table[k]), Services[..j])
      {
        assert Services[..j + 1][..j] == Services[..j];
        table[i] := AddColumn(table[i], service);
      }
    }
    assert Services[..|Services|] == Services;
  }
}

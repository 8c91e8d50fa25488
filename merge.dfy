/** Lines 23-36: the three inner merges that put the latest ANC4 row, the
    latest SBA row, the status row and the 2022 births of a country side by
    side. The key column is renamed from `REF_AREA:Geographic area` to
    `ISO3Code` between the first and the second merge; its values are
    compared as they are. */
module Merge {
  import opened Tables
  import opened Join
  import opened Order

  const BirthsYear: int := 2022

  /** Lines 32-33: the population rows of year 2022, reduced to their
      `ISO3Code` and `Births_2022` columns, in their original order. */
  function Births2022(population: seq<PopulationRow>): (r: seq<BirthsRow>)
    ensures forall b :: b in r <==> exists p :: p in population && p.year == BirthsYear && b == BirthsRow(p.iso3, p.births)
    ensures forall b :: multiset(r)[b] == multiset(population)[PopulationRow(b.iso3, BirthsYear, b.births)]
  {
    if population == [] then []
    else
      var init, last := population[..|population| - 1], population[|population| - 1];
      assert population == init + [last];
      Births2022(init) + (if last.year == BirthsYear then [BirthsRow(last.iso3, last.births)] else [])
  }

  /** A country has a births row exactly when it has a population row for
      2022. */
  lemma BirthsKeys(population: seq<PopulationRow>, k: string)
    ensures k in KeySet(Births2022(population), BirthsKey)
        <==> exists p :: p in population && p.year == BirthsYear && p.iso3 == k
  {
    var births := Births2022(population);
    KeySetMembers(births, BirthsKey, k);
    if p :| p in population && p.year == BirthsYear && p.iso3 == k {
      assert BirthsRow(p.iso3, p.births) in births;
    }
  }

  /** The rows after the first merge: a latest ANC4 row and a latest SBA row
      of the same country. */
  type ServicesRow = (Observation, Observation)
  /** The rows after the status merge. */
  type StatusJoined = (ServicesRow, StatusRow)
  /** The rows after the births merge. */
  type BirthsJoined = (StatusJoined, BirthsRow)

  function ServicesKey(p: ServicesRow): string { p.0.area }
  function StatusJoinedKey(t: StatusJoined): string { t.0.0.area }

  /** Projects a joined row onto the columns of the merged table; no
      weighted column exists yet. */
  function ToMerged(t: BirthsJoined): Merged
  {
    Merged(t.0.0.0.area, t.0.0.0.value, t.0.0.1.value, t.0.1.status, t.1.births, map[])
  }

  /** The merged row that the four source rows `a`, `b`, `s`, `w` of one
      country make together. */
  predicate MadeFrom(m: Merged, a: Observation, b: Observation, s: StatusRow, w: BirthsRow)
  {
    && a.area == b.area == s.iso3 == w.iso3
    && m == Merged(a.area, a.value, b.value, s.status, w.births, map[])
  }

  function JoinAll(anc4: seq<Observation>, sba: seq<Observation>, status: seq<StatusRow>, births: seq<BirthsRow>): seq<BirthsJoined>
  {
    var services := InnerJoin(anc4, sba, AreaOf, AreaOf);
    var withStatus := InnerJoin(services, status, ServicesKey, StatusKey);
    InnerJoin(withStatus, births, StatusJoinedKey, BirthsKey)
  }

  /** The merged table of lines 23-36, given the latest ANC4 and SBA rows,
      the status table and the 2022 births table. */
  function MergeAll(anc4: seq<Observation>, sba: seq<Observation>, status: seq<StatusRow>, births: seq<BirthsRow>): (r: seq<Merged>)
    ensures forall i :: 0 <= i < |r| ==> r[i].weighted == map[]
  {
    var joined := JoinAll(anc4, sba, status, births);
    seq(|joined|, i requires 0 <= i < |joined| => ToMerged(joined[i]))
  }

  /** Every merged row is made from one row of each of the four tables, all of
      the same country. */
  lemma MergedRowsHaveSources(anc4: seq<Observation>, sba: seq<Observation>, status: seq<StatusRow>, births: seq<BirthsRow>, i: int)
    requires 0 <= i < |MergeAll(anc4, sba, status, births)|
    ensures exists a, b, s, w ::
              && a in anc4 && b in sba && s in status && w in births
              && MadeFrom(MergeAll(anc4, sba, status, births)[i], a, b, s, w)
  {
    var t := JoinAll(anc4, sba, status, births)[i];
    assert t in JoinAll(anc4, sba, status, births);
    assert MadeFrom(MergeAll(anc4, sba, status, births)[i], t.0.0.0, t.0.0.1, t.0.1, t.1);
  }

  /** Every choice of one row from each table, all of one country, shows up
      in the merged table: the merge drops nothing that matches. */
  lemma SourcesAreMerged(anc4: seq<Observation>, sba: seq<Observation>, status: seq<StatusRow>, births: seq<BirthsRow>,
                         a: Observation, b: Observation, s: StatusRow, w: BirthsRow)
    requires a in anc4 && b in sba && s in status && w in births
    requires a.area == b.area == s.iso3 == w.iso3
    ensures Merged(a.area, a.value, b.value, s.status, w.births, map[]) in MergeAll(anc4, sba, status, births)
  {
    var joined := JoinAll(anc4, sba, status, births);
    var t := (((a, b), s), w);
    assert t in joined;
    var i :| 0 <= i < |joined| && joined[i] == t;
    assert MergeAll(anc4, sba, status, births)[i] == ToMerged(t);
  }

  /** The countries of the merged table are exactly those present in all four
      tables. */
  lemma MergedKeySet(anc4: seq<Observation>, sba: seq<Observation>, status: seq<StatusRow>, births: seq<BirthsRow>)
    ensures KeySet(MergeAll(anc4, sba, status, births), MergedKey)
         == KeySet(anc4, AreaOf) * KeySet(sba, AreaOf) * KeySet(status, StatusKey) * KeySet(births, BirthsKey)
  {
    var r := MergeAll(anc4, sba, status, births);
    forall k | k in KeySet(r, MergedKey)
      ensures k in KeySet(anc4, AreaOf) * KeySet(sba, AreaOf) * KeySet(status, StatusKey) * KeySet(births, BirthsKey)
    {
      var i :| 0 <= i < |r| && r[i].iso3 == k;
      MergedRowsHaveSources(anc4, sba, status, births, i);
      var a, b, s, w :| a in anc4 && b in sba && s in status && w in births && MadeFrom(r[i], a, b, s, w);
      InKeySet(anc4, AreaOf, a);
      InKeySet(sba, AreaOf, b);
      InKeySet(status, StatusKey, s);
      InKeySet(births, BirthsKey, w);
    }
    forall k | k in KeySet(anc4, AreaOf) * KeySet(sba, AreaOf) * KeySet(status, StatusKey) * KeySet(births, BirthsKey)
      ensures k in KeySet(r, MergedKey)
    {
      var ia :| 0 <= ia < |anc4| && anc4[ia].area == k;
      var ib :| 0 <= ib < |sba| && sba[ib].area == k;
      var ist :| 0 <= ist < |status| && status[ist].iso3 == k;
      var iw :| 0 <= iw < |births| && births[iw].iso3 == k;
      var m := Merged(k, anc4[ia].value, sba[ib].value, status[ist].status, births[iw].births, map[]);
      SourcesAreMerged(anc4, sba, status, births, anc4[ia], sba[ib], status[ist], births[iw]);
      InKeySet(r, MergedKey, m);
    }
  }

  lemma InKeySet<T>(s: seq<T>, key: T -> string, x: T)
    requires x in s
    ensures key(x) in KeySet(s, key)
  {
    var i :| 0 <= i < |s| && s[i] == x;
  }

  /** When the four tables have unique keys, so has the merged table. */
  lemma MergedUniqueKeys(anc4: seq<Observation>, sba: seq<Observation>, status: seq<StatusRow>, births: seq<BirthsRow>)
    requires UniqueKeys(anc4, AreaOf) && UniqueKeys(sba, AreaOf)
    requires UniqueKeys(status, StatusKey) && UniqueKeys(births, BirthsKey)
    ensures UniqueKeys(MergeAll(anc4, sba, status, births), MergedKey)
  {
    var services := InnerJoin(anc4, sba, AreaOf, AreaOf);
    JoinUniqueKeys(anc4, sba, AreaOf, AreaOf);
    assert UniqueKeys(services, ServicesKey);
    var withStatus := InnerJoin(services, status, ServicesKey, StatusKey);
    JoinUniqueKeys(services, status, ServicesKey, StatusKey);
    assert UniqueKeys(withStatus, StatusJoinedKey);
    JoinUniqueKeys(withStatus, births, StatusJoinedKey, BirthsKey);
  }

  /** When the ANC4 keys ascend strictly and the other three tables have
      unique keys, the merged table lists its countries in strictly ascending
      order: each merge keeps the order of its left table. */
  lemma MergedAscending(anc4: seq<Observation>, sba: seq<Observation>, status: seq<StatusRow>, births: seq<BirthsRow>)
    requires StrictlyAscending(Column(anc4, AreaOf)) && UniqueKeys(sba, AreaOf)
    requires UniqueKeys(status, StatusKey) && UniqueKeys(births, BirthsKey)
    ensures StrictlyAscending(Column(MergeAll(anc4, sba, status, births), MergedKey))
  {
    var services := InnerJoin(anc4, sba, AreaOf, AreaOf);
    JoinAscending(anc4, sba, AreaOf, AreaOf);
    assert StrictlyAscending(Column(services, ServicesKey));
    var withStatus := InnerJoin(services, status, ServicesKey, StatusKey);
    JoinAscending(services, status, ServicesKey, StatusKey);
    assert StrictlyAscending(Column(withStatus, StatusJoinedKey));
    JoinAscending(withStatus, births, StatusJoinedKey, BirthsKey);
  }
}

/** The rows of the four input tables and of the tables the pipeline builds
    from them, with the key columns the merges match on. */
module Tables {

  /** One row of an indicator table (ANC4 or SBA): the country key column
      `REF_AREA:Geographic area`, the year `TIME_PERIOD` and `OBS_VALUE`. */
  datatype Observation = Observation(area: string, period: int, value: real)

  /** One row of the country-status table: its `ISO3Code` and its
      `Status.U5MR` label. */
  datatype StatusRow = StatusRow(iso3: string, status: string)

  /** One row of the demographic-projection table: `ISO3 Alpha-code`, `Year`
      and `Births (thousands)`. */
  datatype PopulationRow = PopulationRow(iso3: string, year: int, births: real)

  /** One row of the births table after the 2022 selection and the renaming:
      `ISO3Code` and `Births_2022`. */
  datatype BirthsRow = BirthsRow(iso3: string, births: real)

  /** The two coverage indicators the pipeline weights. */
  datatype Service = ANC4 | SBA

  /** The services in the order the weighting loop visits them. */
  const Services: seq<Service> := [ANC4, SBA]

  /** One row of the fully merged table: `ISO3Code`, `OBS_VALUE_ANC4`,
      `OBS_VALUE_SBA`, `Status.U5MR`, `Births_2022`, and the
      `<service>_weighted` columns added so far. */
  datatype Merged = Merged(
    iso3: string,
    anc4: real,
    sba: real,
    status: string,
    births: real,
    weighted: map<Service, real>)

  /** The observed value of a service in a merged row (`OBS_VALUE_<service>`). */
  function ValueOf(r: Merged, s: Service): real
  {
    match s
    case ANC4 => r.anc4
    case SBA => r.sba
  }

  /** One row of the grouped table: the `Status.U5MR` label, the sums of the
      `<service>_weighted` columns, the sum of `Births_2022`, and the
      `<service>_pop_weighted` columns added so far. */
  datatype GroupRow = GroupRow(
    status: string,
    weightedSums: map<Service, real>,
    births: real,
    popWeighted: map<Service, real>)

  // Key columns, one per row type.

  function AreaOf(o: Observation): string { o.area }
  function StatusKey(s: StatusRow): string { s.iso3 }
  function BirthsKey(b: BirthsRow): string { b.iso3 }
  function MergedKey(m: Merged): string { m.iso3 }
  function LabelOf(m: Merged): string { m.status }
  function GroupLabel(g: GroupRow): string { g.status }

  /** The column `key` of a table. */
  function Column<T>(s: seq<T>, key: T -> string): (c: seq<string>)
    ensures |c| == |s|
    ensures forall i :: 0 <= i < |s| ==> c[i] == key(s[i])
  {
    seq(|s|, i requires 0 <= i < |s| => key(s[i]))
  }

  /** The distinct values of the column `key` of a table. */
  function KeySet<T>(s: seq<T>, key: T -> string): set<string>
  {
    set i | 0 <= i < |s| :: key(s[i])
  }

  /** No two rows of the table share a value in the column `key`. */
  predicate UniqueKeys<T>(s: seq<T>, key: T -> string)
  {
    forall i, j :: 0 <= i < j < |s| ==> key(s[i]) != key(s[j])
  }

  /** A value is a key of a table exactly when some row carries it. */
  lemma KeySetMembers<T>(s: seq<T>, key: T -> string, k: string)
    ensures k in KeySet(s, key) <==> exists x :: x in s && key(x) == k
  {
    if x :| x in s && key(x) == k {
      var i :| 0 <= i < |s| && s[i] == x;
    }
    if k in KeySet(s, key) {
      var i :| 0 <= i < |s| && key(s[i]) == k;
      assert s[i] in s;
    }
  }

  /** A value is in a column exactly when some row carries it. */
  lemma ColumnMembers<T>(s: seq<T>, key: T -> string, k: string)
    ensures k in Column(s, key) <==> exists x :: x in s && key(x) == k
  {
    if x :| x in s && key(x) == k {
      var i :| 0 <= i < |s| && s[i] == x;
      assert Column(s, key)[i] == k;
    }
    if k in Column(s, key) {
      var i :| 0 <= i < |s| && Column(s, key)[i] == k;
      assert s[i] in s;
    }
  }
}

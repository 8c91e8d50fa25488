/** The temporal selection applied to each indicator table: keep the years
    2018 to 2022, sort by year, and take the last row of every country. */
module Latest {
  import opened Tables
  import opened Order

  const FirstYear: int := 2018
  const LastYear: int := 2022

  /** `TIME_PERIOD.between(2018, 2022)`: both ends are included. */
  predicate InWindow(o: Observation)
  {
    FirstYear <= o.period <= LastYear
  }

  /** The rows of an indicator table whose year lies in the window, in their
      original order. */
  function FilterWindow(obs: seq<Observation>): (r: seq<Observation>)
    ensures forall o :: multiset(r)[o] == if InWindow(o) then multiset(obs)[o] else 0
    ensures forall o :: o in r <==> o in obs && InWindow(o)
  {
    if obs == [] then []
    else
      var init, last := obs[..|obs| - 1], obs[|obs| - 1];
      assert obs == init + [last];
      FilterWindow(init) + (if InWindow(last) then [last] else [])
  }

  /** Years never decrease along `s`. */
  predicate ByPeriod(s: seq<Observation>)
  {
    forall i, j :: 0 <= i < j < |s| ==> s[i].period <= s[j].period
  }

  /** Places `o` after every row of `s` whose year is not later than its own. */
  function InsertByPeriod(s: seq<Observation>, o: Observation): (r: seq<Observation>)
    requires ByPeriod(s)
    ensures ByPeriod(r)
    ensures multiset(r) == multiset(s) + multiset{o}
  {
    if s == [] then [o]
    else
      var init, last := s[..|s| - 1], s[|s| - 1];
      assert s == init + [last];
      if last.period <= o.period then
        assert forall i :: 0 <= i < |s| ==> s[i].period <= o.period;
        AppendByPeriod(s, o);
        s + [o]
      else
        var rest := InsertByPeriod(init, o);
        assert forall i :: 0 <= i < |init| ==> init[i].period <= last.period by {
          forall i | 0 <= i < |init| ensures init[i].period <= last.period {
            assert s[i] == init[i];
          }
        }
        PeriodsBounded(rest, init, o, last.period);
        AppendByPeriod(rest, last);
        rest + [last]
  }

  /** A row no earlier than every row of a year-ordered `s` may follow it. */
  lemma AppendByPeriod(s: seq<Observation>, x: Observation)
    requires ByPeriod(s)
    requires forall i :: 0 <= i < |s| ==> s[i].period <= x.period
    ensures ByPeriod(s + [x])
  {
  }

  /** A rearrangement of `init` and `o` stays within a bound on their years. */
  lemma PeriodsBounded(rest: seq<Observation>, init: seq<Observation>, o: Observation, bound: int)
    requires multiset(rest) == multiset(init) + multiset{o}
    requires forall i :: 0 <= i < |init| ==> init[i].period <= bound
    requires o.period <= bound
    ensures forall i :: 0 <= i < |rest| ==> rest[i].period <= bound
  {
    forall i | 0 <= i < |rest| ensures rest[i].period <= bound {
      var x := rest[i];
      assert x in multiset(rest);
      if x != o {
        assert x in multiset(init);
        var j :| 0 <= j < |init| && init[j] == x;
      }
    }
  }

  /** `sort_values("TIME_PERIOD")`, as a stable insertion sort. */
  function SortByPeriod(obs: seq<Observation>): (r: seq<Observation>)
    ensures ByPeriod(r)
    ensures multiset(r) == multiset(obs)
  {
    if obs == [] then []
    else
      var init, last := obs[..|obs| - 1], obs[|obs| - 1];
      assert obs == init + [last];
      InsertByPeriod(SortByPeriod(init), last)
  }

  /** The last row of `s` for country `k`: what `groupby(...).last()` keeps. */
  function LastRow(s: seq<Observation>, k: string): (r: Observation)
    requires k in Column(s, AreaOf)
    ensures r in s && r.area == k
    ensures ByPeriod(s) ==> forall o :: o in s && o.area == k ==> o.period <= r.period
  {
    var init, last := s[..|s| - 1], s[|s| - 1];
    assert s == init + [last];
    if last.area == k then
      assert ByPeriod(s) ==> forall o :: o in init ==> o.period <= last.period by {
        if ByPeriod(s) {
          forall o | o in init ensures o.period <= last.period {
            var i :| 0 <= i < |init| && init[i] == o;
            assert s[i] == o;
          }
        }
      }
      last
    else
      assert k in Column(init, AreaOf) by {
        var i :| 0 <= i < |s| && Column(s, AreaOf)[i] == k;
        assert i < |init| && Column(init, AreaOf)[i] == k;
      }
      LastRow(init, k)
  }

  /** The last row of every key of `keys`, in the order of `keys`. */
  function LastRows(sorted: seq<Observation>, keys: seq<string>): (r: seq<Observation>)
    requires forall k :: k in keys ==> k in Column(sorted, AreaOf)
    ensures |r| == |keys|
    ensures forall i :: 0 <= i < |r| ==> r[i] in sorted && r[i].area == keys[i]
    ensures ByPeriod(sorted) ==>
      forall i, o :: 0 <= i < |r| && o in sorted && o.area == keys[i] ==> o.period <= r[i].period
  {
    if keys == [] then [] else [LastRow(sorted, keys[0])] + LastRows(sorted, keys[1..])
  }

  lemma SameKeySet(s: seq<Observation>, t: seq<Observation>)
    requires multiset(s) == multiset(t)
    ensures KeySet(s, AreaOf) == KeySet(t, AreaOf)
    ensures forall k :: k in Column(s, AreaOf) <==> k in KeySet(t, AreaOf)
  {
    forall k | k in KeySet(s, AreaOf) ensures k in KeySet(t, AreaOf) {
      var i :| 0 <= i < |s| && s[i].area == k;
      assert s[i] in multiset(t);
      var j :| 0 <= j < |t| && t[j] == s[i];
    }
    forall k | k in KeySet(t, AreaOf) ensures k in KeySet(s, AreaOf) {
      var i :| 0 <= i < |t| && t[i].area == k;
      assert t[i] in multiset(s);
      var j :| 0 <= j < |s| && s[j] == t[i];
    }
    forall k ensures k in Column(s, AreaOf) <==> k in KeySet(s, AreaOf) {
      if k in KeySet(s, AreaOf) {
        var i :| 0 <= i < |s| && s[i].area == k;
        assert Column(s, AreaOf)[i] == k;
      }
    }
  }

  /** `sort_values("TIME_PERIOD").groupby(area).last().reset_index()`: one row
      per country, in ascending key order, holding that country's latest year. */
  function LatestPerKey(obs: seq<Observation>): (r: seq<Observation>)
    ensures StrictlyAscending(Column(r, AreaOf))
    ensures UniqueKeys(r, AreaOf)
    ensures KeySet(r, AreaOf) == KeySet(obs, AreaOf)
    ensures forall i :: 0 <= i < |r| ==> r[i] in obs
    ensures forall i, o :: 0 <= i < |r| && o in obs && o.area == r[i].area ==> o.period <= r[i].period
  {
    var sorted := SortByPeriod(obs);
    SameKeySet(sorted, obs);
    var keys := Ascending(Column(sorted, AreaOf));
    var r := LastRows(sorted, keys);
    assert Column(r, AreaOf) == keys;
    AscendingIsDistinct(keys);
    SameRows(sorted, obs);
    LastRowsKeySet(keys, r);
    r
  }

  /** Two tables with the same rows, counted with multiplicity, hold the same rows. */
  lemma SameRows(s: seq<Observation>, t: seq<Observation>)
    requires multiset(s) == multiset(t)
    ensures forall o :: o in s <==> o in t
  {
    forall o ensures o in s <==> o in t {
      assert o in s <==> o in multiset(s);
    }
  }

  /** One row per key of `keys` covers every key of `keys`. */
  lemma LastRowsKeySet(keys: seq<string>, r: seq<Observation>)
    requires Column(r, AreaOf) == keys
    ensures KeySet(r, AreaOf) == set k | k in keys
  {
    forall k | k in keys ensures k in KeySet(r, AreaOf) {
      var m :| 0 <= m < |keys| && keys[m] == k;
      assert AreaOf(r[m]) == k;
    }
  }

  /** Lines 15-20 together keep a country exactly when it has a row in the
      window. */
  lemma LatestKeysInWindow(obs: seq<Observation>, k: string)
    ensures k in KeySet(LatestPerKey(FilterWindow(obs)), AreaOf)
        <==> exists o :: o in obs && o.area == k && InWindow(o)
  {
    var f := FilterWindow(obs);
    if k in KeySet(f, AreaOf) {
      var i :| 0 <= i < |f| && f[i].area == k;
      assert f[i] in obs && InWindow(f[i]);
    }
    if o :| o in obs && o.area == k && InWindow(o) {
      assert o in f;
      var i :| 0 <= i < |f| && f[i] == o;
      assert k in KeySet(f, AreaOf);
    }
  }

  /** `a` is an in-window row of `obs` with the largest in-window year of its
      country. */
  predicate LatestOf(obs: seq<Observation>, a: Observation)
  {
    && a in obs && InWindow(a)
    && forall o :: o in obs && o.area == a.area && InWindow(o) ==> o.period <= a.period
  }

  /** Lines 15-20 together give each kept country one of its in-window rows,
      one with the largest in-window year. */
  lemma LatestRowIsLatest(obs: seq<Observation>, a: Observation)
    requires a in LatestPerKey(FilterWindow(obs))
    ensures LatestOf(obs, a)
  {
    var r := LatestPerKey(FilterWindow(obs));
    var i :| 0 <= i < |r| && r[i] == a;
    assert a in FilterWindow(obs);
  }
}

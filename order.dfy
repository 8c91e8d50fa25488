/** The order in which a grouped table lists its groups: strings compared
    code point by code point, a proper prefix first. Both `groupby` calls of
    the pipeline emit their groups in this order. */
module Order {

  /** `a` sorts strictly before `b`. */
  predicate Below(a: string, b: string)
    decreases |a|
  {
    if |a| == 0 then |b| > 0
    else |b| > 0 && (a[0] < b[0] || (a[0] == b[0] && Below(a[1..], b[1..])))
  }

  lemma {:induction false} BelowIrreflexive(a: string)
    ensures !Below(a, a)
    decreases |a|
  {
    if |a| > 0 {
      BelowIrreflexive(a[1..]);
    }
  }

  lemma {:induction false} BelowTransitive(a: string, b: string, c: string)
    requires Below(a, b) && Below(b, c)
    ensures Below(a, c)
    decreases |a|
  {
    if |a| > 0 && a[0] == b[0] && b[0] == c[0] {
      BelowTransitive(a[1..], b[1..], c[1..]);
    }
  }

  lemma {:induction false} BelowTotal(a: string, b: string)
    ensures a == b || Below(a, b) || Below(b, a)
    decreases |a|
  {
    if |a| > 0 && |b| > 0 && a[0] == b[0] {
      BelowTotal(a[1..], b[1..]);
      if a[1..] == b[1..] {
        assert a == [a[0]] + a[1..];
        assert b == [b[0]] + b[1..];
      }
    }
  }

  /** Every earlier entry sorts strictly before every later one. */
  predicate StrictlyAscending(s: seq<string>)
  {
    forall i, j :: 0 <= i < j < |s| ==> Below(s[i], s[j])
  }

  /** A strictly ascending sequence lists each string at most once. */
  lemma AscendingIsDistinct(s: seq<string>)
    requires StrictlyAscending(s)
    ensures forall i, j :: 0 <= i < j < |s| ==> s[i] != s[j]
  {
    forall i, j | 0 <= i < j < |s|
      ensures s[i] != s[j]
    {
      BelowIrreflexive(s[i]);
    }
  }

  /** Adds `k` to an ascending sequence of distinct strings, unless it is there. */
  function Insert(s: seq<string>, k: string): (r: seq<string>)
    requires StrictlyAscending(s)
    ensures StrictlyAscending(r)
    ensures forall x :: x in r <==> x in s || x == k
  {
    if s == [] then [k]
    else if s[0] == k then s
    else if Below(k, s[0]) then
      assert forall j :: 0 < j < |s| ==> Below(k, s[j]) by {
        forall j | 0 < j < |s| ensures Below(k, s[j]) {
          BelowTransitive(k, s[0], s[j]);
        }
      }
      [k] + s
    else
      var rest := Insert(s[1..], k);
      assert Below(s[0], k) by {
        BelowTotal(s[0], k);
      }
      assert forall x :: x in rest ==> Below(s[0], x) by {
        forall x | x in rest ensures Below(s[0], x) {
          if x != k {
            var j :| 0 <= j < |s[1..]| && s[1..][j] == x;
            assert s[j + 1] == x;
          }
        }
      }
      assert forall x :: x in s <==> x == s[0] || x in s[1..] by {
        assert s == [s[0]] + s[1..];
      }
      [s[0]] + rest
  }

  /** The distinct strings of `ks`, in ascending order: the group keys of a
      `groupby` over a column holding `ks`. */
  function Ascending(ks: seq<string>): (r: seq<string>)
    ensures StrictlyAscending(r)
    ensures forall x :: x in r <==> x in ks
  {
    if ks == [] then []
    else
      var r := Insert(Ascending(ks[..|ks| - 1]), ks[|ks| - 1]);
      assert forall x :: x in ks <==> x in ks[..|ks| - 1] || x == ks[|ks| - 1] by {
        assert ks == ks[..|ks| - 1] + [ks[|ks| - 1]];
      }
      r
  }
}

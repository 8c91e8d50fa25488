/** `pd.merge(left, right, on=key)` with the default `how="inner"`: every
    pair of a left row and a right row with equal keys, grouped by left row in
    left order, and within a left row in right order. */
module Join {
  import opened Tables
  import opened Order

  /** The rows of `right` whose key is the key of `l`, each paired with `l`. */
  function Matches<L(!new), R(!new)>(l: L, right: seq<R>, lkey: L -> string, rkey: R -> string): (m: seq<(L, R)>)
    ensures forall p :: p in m <==> p.0 == l && p.1 in right && rkey(p.1) == lkey(l)
    ensures UniqueKeys(right, rkey) ==> |m| <= 1
    ensures (forall x :: x in right ==> rkey(x) != lkey(l)) ==> m == []
  {
    if right == [] then []
    else
      assert forall x :: x in right <==> x == right[0] || x in right[1..] by {
        assert right == [right[0]] + right[1..];
      }
      assert UniqueKeys(right, rkey) ==> UniqueKeys(right[1..], rkey) by {
        if UniqueKeys(right, rkey) {
          forall i, j | 0 <= i < j < |right[1..]|
            ensures rkey(right[1..][i]) != rkey(right[1..][j])
          {
            assert right[1..][i] == right[i + 1] && right[1..][j] == right[j + 1];
          }
        }
      }
      var rest := Matches(l, right[1..], lkey, rkey);
      assert UniqueKeys(right, rkey) ==> forall x :: x in right[1..] ==> rkey(x) != rkey(right[0]) by {
        if UniqueKeys(right, rkey) {
          forall x | x in right[1..] ensures rkey(x) != rkey(right[0]) {
            var j :| 0 <= j < |right[1..]| && right[1..][j] == x;
            assert right[j + 1] == x;
          }
        }
      }
      assert UniqueKeys(right, rkey) && rkey(right[0]) == lkey(l) ==> rest == [];
      (if rkey(right[0]) == lkey(l) then [(l, right[0])] else []) + rest
  }

  /** The inner join of `left` and `right` on the given key columns. */
  function InnerJoin<L(!new), R(!new)>(left: seq<L>, right: seq<R>, lkey: L -> string, rkey: R -> string): (j: seq<(L, R)>)
    ensures forall p :: p in j <==> p.0 in left && p.1 in right && lkey(p.0) == rkey(p.1)
  {
    if left == [] then []
    else
      assert forall x :: x in left <==> x == left[0] || x in left[1..] by {
        assert left == [left[0]] + left[1..];
      }
      Matches(left[0], right, lkey, rkey) + InnerJoin(left[1..], right, lkey, rkey)
  }

  /** A pair of `l` and a matching right row occurs once for every copy of
      that right row among the matches of `l`. */
  lemma {:induction false} MatchesCount<L(!new), R(!new)>(l: L, right: seq<R>, lkey: L -> string, rkey: R -> string, p: (L, R))
    ensures multiset(Matches(l, right, lkey, rkey))[p]
         == if p.0 == l && rkey(p.1) == lkey(l) then multiset(right)[p.1] else 0
  {
    if right != [] {
      assert right == [right[0]] + right[1..];
      MatchesCount(l, right[1..], lkey, rkey, p);
    }
  }

  /** A matching pair occurs in the inner merge once for every copy of its
      left row and every copy of its right row; a pair that does not match not
      at all. */
  lemma InnerJoinCount<L(!new), R(!new)>(left: seq<L>, right: seq<R>, lkey: L -> string, rkey: R -> string, p: (L, R))
    ensures multiset(InnerJoin(left, right, lkey, rkey))[p]
         == if lkey(p.0) == rkey(p.1) then multiset(left)[p.0] * multiset(right)[p.1] else 0
  {
    PairCopies(left, right, lkey, rkey, p);
  }

  /** `n` is `a` times `b`. */
  predicate Times(n: nat, a: nat, b: nat)
  {
    n == a * b
  }

  lemma {:induction false} PairCopies<L(!new), R(!new)>(left: seq<L>, right: seq<R>, lkey: L -> string, rkey: R -> string, p: (L, R))
    ensures lkey(p.0) != rkey(p.1) ==> multiset(InnerJoin(left, right, lkey, rkey))[p] == 0
    ensures lkey(p.0) == rkey(p.1) ==> Times(multiset(InnerJoin(left, right, lkey, rkey))[p], multiset(left)[p.0], multiset(right)[p.1])
  {
    if left != [] {
      assert left == [left[0]] + left[1..];
      var m, rest := Matches(left[0], right, lkey, rkey), InnerJoin(left[1..], right, lkey, rkey);
      assert multiset(InnerJoin(left, right, lkey, rkey))[p] == multiset(m)[p] + multiset(rest)[p];
      assert multiset(left)[p.0] == (if p.0 == left[0] then 1 else 0) + multiset(left[1..])[p.0];
      MatchesCount(left[0], right, lkey, rkey, p);
      PairCopies(left[1..], right, lkey, rkey, p);
      if lkey(p.0) == rkey(p.1) {
        JoinStep(multiset(m)[p], multiset(rest)[p], p.0 == left[0], multiset(left[1..])[p.0], multiset(right)[p.1]);
      }
    }
  }

  /** The count of a pair after one more left row. */
  lemma JoinStep(head: nat, tail: nat, isHead: bool, b: nat, c: nat)
    requires head == (if isHead then c else 0) && Times(tail, b, c)
    ensures Times(head + tail, (if isHead then 1 else 0) + b, c)
  {
  }

  /** The keys of the joined rows are the keys the two tables share. */
  lemma JoinKeySet<L(!new), R(!new)>(left: seq<L>, right: seq<R>, lkey: L -> string, rkey: R -> string, k: string)
    ensures (exists p :: p in InnerJoin(left, right, lkey, rkey) && lkey(p.0) == k)
        <==> k in KeySet(left, lkey) && k in KeySet(right, rkey)
  {
    if k in KeySet(left, lkey) && k in KeySet(right, rkey) {
      var i :| 0 <= i < |left| && lkey(left[i]) == k;
      var j :| 0 <= j < |right| && rkey(right[j]) == k;
      assert (left[i], right[j]) in InnerJoin(left, right, lkey, rkey);
    }
    if p :| p in InnerJoin(left, right, lkey, rkey) && lkey(p.0) == k {
      var i :| 0 <= i < |left| && left[i] == p.0;
      var j :| 0 <= j < |right| && right[j] == p.1;
      assert lkey(left[i]) == k && rkey(right[j]) == k;
    }
  }

  /** No two joined rows carry the same key. */
  predicate JoinedKeysUnique<L, R>(j: seq<(L, R)>, lkey: L -> string)
  {
    forall a, b :: 0 <= a < b < |j| ==> lkey(j[a].0) != lkey(j[b].0)
  }

  /** Joining two tables whose keys are unique gives a table whose keys are
      unique: no left row meets more than one right row. */
  lemma {:induction false} JoinUniqueKeys<L(!new), R(!new)>(left: seq<L>, right: seq<R>, lkey: L -> string, rkey: R -> string)
    requires UniqueKeys(left, lkey) && UniqueKeys(right, rkey)
    ensures JoinedKeysUnique(InnerJoin(left, right, lkey, rkey), lkey)
  {
    if left != [] {
      var tail := left[1..];
      assert UniqueKeys(tail, lkey) by {
        forall a, b | 0 <= a < b < |tail| ensures lkey(tail[a]) != lkey(tail[b]) {
          assert tail[a] == left[a + 1] && tail[b] == left[b + 1];
        }
      }
      JoinUniqueKeys(tail, right, lkey, rkey);
      var m := Matches(left[0], right, lkey, rkey);
      var rest := InnerJoin(tail, right, lkey, rkey);
      assert InnerJoin(left, right, lkey, rkey) == m + rest;
      forall b | 0 <= b < |rest| ensures lkey(rest[b].0) != lkey(left[0]) {
        assert rest[b] in rest;
        var c :| 0 <= c < |tail| && tail[c] == rest[b].0;
        assert tail[c] == left[c + 1];
      }
      forall a | 0 <= a < |m| ensures lkey(m[a].0) == lkey(left[0]) {
        assert m[a] in m;
      }
      ConcatUnique(m, rest, lkey, lkey(left[0]));
    }
  }

  /** At most one row of key `k` followed by rows of other, unique keys
      gives unique keys. */
  lemma ConcatUnique<L, R>(m: seq<(L, R)>, rest: seq<(L, R)>, lkey: L -> string, k: string)
    requires |m| <= 1
    requires forall a :: 0 <= a < |m| ==> lkey(m[a].0) == k
    requires forall b :: 0 <= b < |rest| ==> lkey(rest[b].0) != k
    requires JoinedKeysUnique(rest, lkey)
    ensures JoinedKeysUnique(m + rest, lkey)
  {
    var j := m + rest;
    forall a, b | 0 <= a < b < |j| ensures lkey(j[a].0) != lkey(j[b].0) {
      if a < |m| {
        assert j[a] == m[a] && j[b] == rest[b - |m|];
      } else {
        assert j[a] == rest[a - |m|] && j[b] == rest[b - |m|];
      }
    }
  }

  /** The keys of the joined rows ascend strictly. */
  predicate JoinedAscending<L, R>(j: seq<(L, R)>, lkey: L -> string)
  {
    forall a, b :: 0 <= a < b < |j| ==> Below(lkey(j[a].0), lkey(j[b].0))
  }

  /** Joining a table whose keys ascend strictly with a table whose keys are
      unique keeps the left order: the joined keys ascend strictly too. */
  lemma {:induction false} JoinAscending<L(!new), R(!new)>(left: seq<L>, right: seq<R>, lkey: L -> string, rkey: R -> string)
    requires StrictlyAscending(Column(left, lkey)) && UniqueKeys(right, rkey)
    ensures JoinedAscending(InnerJoin(left, right, lkey, rkey), lkey)
  {
    if left != [] {
      var tail := left[1..];
      AscendingTail(left, lkey);
      JoinAscending(tail, right, lkey, rkey);
      var m := Matches(left[0], right, lkey, rkey);
      var rest := InnerJoin(tail, right, lkey, rkey);
      assert InnerJoin(left, right, lkey, rkey) == m + rest;
      forall b | 0 <= b < |rest| ensures Below(lkey(left[0]), lkey(rest[b].0)) {
        assert rest[b] in rest;
      }
      forall a | 0 <= a < |m| ensures lkey(m[a].0) == lkey(left[0]) {
        assert m[a] in m;
      }
      ConcatAscending(m, rest, lkey, lkey(left[0]));
    }
  }

  /** At most one row of key `k` followed by strictly ascending rows of keys
      above `k` gives strictly ascending keys. */
  lemma ConcatAscending<L, R>(m: seq<(L, R)>, rest: seq<(L, R)>, lkey: L -> string, k: string)
    requires |m| <= 1
    requires forall a :: 0 <= a < |m| ==> lkey(m[a].0) == k
    requires forall b :: 0 <= b < |rest| ==> Below(k, lkey(rest[b].0))
    requires JoinedAscending(rest, lkey)
    ensures JoinedAscending(m + rest, lkey)
  {
    var j := m + rest;
    forall a, b | 0 <= a < b < |j| ensures Below(lkey(j[a].0), lkey(j[b].0)) {
      if a < |m| {
        assert j[a] == m[a] && j[b] == rest[b - |m|];
      } else {
        assert j[a] == rest[a - |m|] && j[b] == rest[b - |m|];
      }
    }
  }

  /** Below the head of a strictly ascending table lie no keys of its tail,
      and the tail ascends strictly. */
  lemma AscendingTail<L>(left: seq<L>, lkey: L -> string)
    requires left != [] && StrictlyAscending(Column(left, lkey))
    ensures StrictlyAscending(Column(left[1..], lkey))
    ensures forall x :: x in left[1..] ==> Below(lkey(left[0]), lkey(x))
  {
    var c := Column(left, lkey);
    assert Column(left[1..], lkey) == c[1..];
    forall x | x in left[1..] ensures Below(lkey(left[0]), lkey(x)) {
      var i :| 0 <= i < |left[1..]| && left[1..][i] == x;
      assert c[0] == lkey(left[0]) && c[i + 1] == lkey(x);
    }
  }
}

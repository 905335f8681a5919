/**
 Row selection in `main`: `sorted(..., key=sum, reverse=True)`, which is a
 stable sort into non-increasing order of the per-service total, followed by
 the filter that keeps the services whose total is positive.
 */
module Selection {
  import opened Grouping
  import opened Stats

  /** The sort key: the service's running total. */
  function Key(e: Entry): int {
    Sum(e.amounts)
  }

  predicate NonIncreasing(l: Series) {
    forall i, j :: 0 <= i < j < |l| ==> Key(l[i]) >= Key(l[j])
  }

  /** The entries of `l` whose key is `k`, in their order in `l`. */
  function WithKey(l: Series, k: int): Series {
    if l == [] then []
    else (if Key(l[0]) == k then [l[0]] else []) + WithKey(l[1..], k)
  }

  /** Places `x` before the first entry whose key is not greater than its own. */
  function Insert(x: Entry, l: Series): Series {
    if l == [] then [x]
    else if Key(x) >= Key(l[0]) then [x] + l
    else [l[0]] + Insert(x, l[1..])
  }

  /** The stable descending sort, as an insertion sort from the back. */
  function SortDesc(l: Series): Series {
    if l == [] then [] else Insert(l[0], SortDesc(l[1..]))
  }

  /** The filter `sum(y) > 0.0`. */
  function Positive(l: Series): Series {
    if l == [] then []
    else (if Key(l[0]) > 0 then [l[0]] else []) + Positive(l[1..])
  }

  /** The rows of the report, in print order. */
  function SelectRows(series: Series): Series {
    Positive(SortDesc(series))
  }

  /** Every key in `l` is at most `k`. */
  predicate AllAtMost(l: Series, k: int) {
    forall i :: 0 <= i < |l| ==> Key(l[i]) <= k
  }

  lemma ConsNonIncreasing(a: Entry, l: Series)
    ensures NonIncreasing([a] + l) <==> AllAtMost(l, Key(a)) && NonIncreasing(l)
  {
    var r := [a] + l;
    if NonIncreasing(r) {
      forall i | 0 <= i < |l| ensures Key(l[i]) <= Key(a) {
        assert r[0] == a && r[i + 1] == l[i];
      }
      forall i, j | 0 <= i < j < |l| ensures Key(l[i]) >= Key(l[j]) {
        assert r[i + 1] == l[i] && r[j + 1] == l[j];
      }
    }
    if AllAtMost(l, Key(a)) && NonIncreasing(l) {
      forall i, j | 0 <= i < j < |r| ensures Key(r[i]) >= Key(r[j]) {
        assert r[j] == l[j - 1];
        if i > 0 {
          assert r[i] == l[i - 1];
        }
      }
    }
  }

  lemma {:induction false} InsertPermutation(x: Entry, l: Series)
    ensures multiset(Insert(x, l)) == multiset(l) + multiset{x}
  {
    if l != [] && Key(x) < Key(l[0]) {
      InsertPermutation(x, l[1..]);
      assert l == [l[0]] + l[1..];
    }
  }

  lemma {:induction false} InsertAllAtMost(x: Entry, l: Series, k: int)
    requires AllAtMost(l, k) && Key(x) <= k
    ensures AllAtMost(Insert(x, l), k)
  {
    if l != [] && Key(x) < Key(l[0]) {
      InsertAllAtMost(x, l[1..], k);
      var r := Insert(x, l);
      assert forall i :: 1 <= i < |r| ==> r[i] == Insert(x, l[1..])[i - 1];
    }
  }

  lemma {:induction false} InsertNonIncreasing(x: Entry, l: Series)
    requires NonIncreasing(l)
    ensures NonIncreasing(Insert(x, l))
  {
    if l == [] {
    } else if Key(x) >= Key(l[0]) {
      assert l == [l[0]] + l[1..];
      ConsNonIncreasing(l[0], l[1..]);
      ConsNonIncreasing(x, l);
    } else {
      assert l == [l[0]] + l[1..];
      ConsNonIncreasing(l[0], l[1..]);
      InsertNonIncreasing(x, l[1..]);
      InsertAllAtMost(x, l[1..], Key(l[0]));
      ConsNonIncreasing(l[0], Insert(x, l[1..]));
    }
  }

  lemma {:induction false} InsertWithKey(x: Entry, l: Series, k: int)
    ensures WithKey(Insert(x, l), k) == (if Key(x) == k then [x] else []) + WithKey(l, k)
  {
    if l != [] && Key(x) < Key(l[0]) {
      InsertWithKey(x, l[1..], k);
      assert ([l[0]] + Insert(x, l[1..]))[1..] == Insert(x, l[1..]);
    } else if l != [] {
      assert ([x] + l)[1..] == l;
    }
  }

  lemma {:induction false} InsertLacks(x: Entry, l: Series, name: string)
    requires Lacks(l, name) && x.service != name
    ensures Lacks(Insert(x, l), name)
  {
    InsertPermutation(x, l);
    var r := Insert(x, l);
    forall i | 0 <= i < |r| ensures r[i].service != name {
      assert r[i] in multiset(r);
    }
  }

  lemma {:induction false} InsertDistinct(x: Entry, l: Series)
    requires Distinct(l) && Lacks(l, x.service)
    ensures Distinct(Insert(x, l))
  {
    if l == [] {
    } else if Key(x) >= Key(l[0]) {
      ConsDistinct(x, l);
    } else {
      assert l == [l[0]] + l[1..];
      ConsDistinct(l[0], l[1..]);
      InsertDistinct(x, l[1..]);
      InsertLacks(x, l[1..], l[0].service);
      ConsDistinct(l[0], Insert(x, l[1..]));
    }
  }

  lemma {:induction false} SortDescPermutation(l: Series)
    ensures multiset(SortDesc(l)) == multiset(l)
  {
    if l != [] {
      SortDescPermutation(l[1..]);
      InsertPermutation(l[0], SortDesc(l[1..]));
      assert l == [l[0]] + l[1..];
    }
  }

  lemma {:induction false} SortDescNonIncreasing(l: Series)
    ensures NonIncreasing(SortDesc(l))
  {
    if l != [] {
      SortDescNonIncreasing(l[1..]);
      InsertNonIncreasing(l[0], SortDesc(l[1..]));
    }
  }

  lemma {:induction false} SortDescWithKey(l: Series, k: int)
    ensures WithKey(SortDesc(l), k) == WithKey(l, k)
  {
    if l != [] {
      SortDescWithKey(l[1..], k);
      InsertWithKey(l[0], SortDesc(l[1..]), k);
    }
  }

  /** The sort is a permutation into non-increasing key order that keeps
      the input order among equal keys: the stable sort. */
  lemma SortDescSpec(l: Series)
    ensures multiset(SortDesc(l)) == multiset(l)
    ensures NonIncreasing(SortDesc(l))
    ensures forall k :: WithKey(SortDesc(l), k) == WithKey(l, k)
  {
    SortDescPermutation(l);
    SortDescNonIncreasing(l);
    forall k ensures WithKey(SortDesc(l), k) == WithKey(l, k) {
      SortDescWithKey(l, k);
    }
  }

  /** Sorting keeps the services distinct. */
  lemma {:induction false} SortDescDistinct(l: Series)
    requires Distinct(l)
    ensures Distinct(SortDesc(l))
  {
    if l != [] {
      assert l == [l[0]] + l[1..];
      ConsDistinct(l[0], l[1..]);
      SortDescDistinct(l[1..]);
      SortDescSpec(l[1..]);
      var s := SortDesc(l[1..]);
      forall i | 0 <= i < |s| ensures s[i].service != l[0].service {
        assert s[i] in multiset(l[1..]);
      }
      InsertDistinct(l[0], s);
    }
  }

  lemma {:induction false} PositiveMembers(l: Series)
    ensures forall e :: e in Positive(l) <==> e in l && Key(e) > 0
  {
    if l != [] {
      PositiveMembers(l[1..]);
      assert l == [l[0]] + l[1..];
    }
  }

  lemma {:induction false} PositiveAllAtMost(l: Series, k: int)
    requires AllAtMost(l, k)
    ensures AllAtMost(Positive(l), k)
  {
    PositiveMembers(l);
    var p := Positive(l);
    forall i | 0 <= i < |p| ensures Key(p[i]) <= k {
      assert p[i] in l;
    }
  }

  lemma {:induction false} PositiveLacks(l: Series, name: string)
    requires Lacks(l, name)
    ensures Lacks(Positive(l), name)
  {
    PositiveMembers(l);
    var p := Positive(l);
    forall i | 0 <= i < |p| ensures p[i].service != name {
      assert p[i] in l;
    }
  }

  lemma {:induction false} PositiveNonIncreasing(l: Series)
    requires NonIncreasing(l)
    ensures NonIncreasing(Positive(l))
  {
    if l != [] {
      assert l == [l[0]] + l[1..];
      ConsNonIncreasing(l[0], l[1..]);
      PositiveNonIncreasing(l[1..]);
      if Key(l[0]) > 0 {
        PositiveAllAtMost(l[1..], Key(l[0]));
        ConsNonIncreasing(l[0], Positive(l[1..]));
      }
    }
  }

  lemma {:induction false} PositiveDistinct(l: Series)
    requires Distinct(l)
    ensures Distinct(Positive(l))
  {
    if l != [] {
      assert l == [l[0]] + l[1..];
      ConsDistinct(l[0], l[1..]);
      PositiveDistinct(l[1..]);
      if Key(l[0]) > 0 {
        PositiveLacks(l[1..], l[0].service);
        ConsDistinct(l[0], Positive(l[1..]));
      }
    }
  }

  lemma {:induction false} PositiveWithKey(l: Series, k: int)
    ensures WithKey(Positive(l), k) == if k > 0 then WithKey(l, k) else []
  {
    if l != [] {
      PositiveWithKey(l[1..], k);
      assert WithKey(l, k) == (if Key(l[0]) == k then [l[0]] else []) + WithKey(l[1..], k);
      if Key(l[0]) > 0 {
        var p := [l[0]] + Positive(l[1..]);
        assert Positive(l) == p;
        assert p[0] == l[0] && p[1..] == Positive(l[1..]);
        assert WithKey(p, k) == (if Key(l[0]) == k then [l[0]] else []) + WithKey(Positive(l[1..]), k);
        if k <= 0 {
          assert WithKey(p, k) == [] + [];
        }
      } else {
        assert Positive(l) == [] + Positive(l[1..]) == Positive(l[1..]);
        if k > 0 {
          assert WithKey(l, k) == [] + WithKey(l[1..], k) == WithKey(l[1..], k);
        }
      }
    }
  }

  /** `idx` is strictly ascending. */
  predicate Ascending(idx: seq<int>) {
    forall j, j' :: 0 <= j < j' < |idx| ==> idx[j] < idx[j']
  }

  /** The positions `p` with `i <= p < |l|` of the entries of `l` with a
      positive total, ascending. */
  function PositivePositions(l: Series, i: nat): (idx: seq<int>)
    requires i <= |l|
    ensures Ascending(idx)
    ensures forall j :: 0 <= j < |idx| ==> i <= idx[j] < |l| && Key(l[idx[j]]) > 0
    ensures forall p :: i <= p < |l| && Key(l[p]) > 0 ==> p in idx
    decreases |l| - i
  {
    if i == |l| then []
    else (if Key(l[i]) > 0 then [i] else []) + PositivePositions(l, i + 1)
  }

  /** Prepending an entry and its position keeps `rest` indexed by `pos` into `l`. */
  lemma ConsIndexed(l: Series, p: int, rest: Series, pos: seq<int>)
    requires 0 <= p < |l|
    requires |rest| == |pos|
    requires forall j :: 0 <= j < |pos| ==> 0 <= pos[j] < |l| && rest[j] == l[pos[j]]
    ensures forall j :: 0 <= j < |pos| + 1 ==> ([l[p]] + rest)[j] == l[([p] + pos)[j]]
  {
    forall j | 0 <= j < |pos| + 1 ensures ([l[p]] + rest)[j] == l[([p] + pos)[j]] {
      if j > 0 {
        assert ([l[p]] + rest)[j] == rest[j - 1];
        assert ([p] + pos)[j] == pos[j - 1];
      }
    }
  }

  /** The filter keeps the positive entries in their order in `l`: its `j`-th
      entry is the one at the `j`-th positive position of `l`. */
  lemma {:induction false} PositiveSubsequence(l: Series, i: nat)
    requires i <= |l|
    ensures |Positive(l[i..])| == |PositivePositions(l, i)|
    ensures forall j :: 0 <= j < |Positive(l[i..])| ==>
              Positive(l[i..])[j] == l[PositivePositions(l, i)[j]]
    decreases |l| - i
  {
    if i < |l| {
      PositiveSubsequence(l, i + 1);
      var rest := Positive(l[i + 1..]);
      var pos := PositivePositions(l, i + 1);
      assert l[i..][0] == l[i] && l[i..][1..] == l[i + 1..];
      if Key(l[i]) > 0 {
        assert Positive(l[i..]) == [l[i]] + rest;
        assert PositivePositions(l, i) == [i] + pos;
        ConsIndexed(l, i, rest, pos);
      } else {
        assert Positive(l[i..]) == [] + rest;
        assert PositivePositions(l, i) == [] + pos;
      }
    }
  }

  /** The rows are exactly the services with a positive total, with no
      repeats, in non-increasing order of total, services with equal
      totals in the order of the service map. */
  lemma SelectRowsSpec(series: Series)
    requires Distinct(series)
    ensures forall e :: e in SelectRows(series) <==> e in series && Key(e) > 0
    ensures Distinct(SelectRows(series))
    ensures NonIncreasing(SelectRows(series))
    ensures forall k :: WithKey(SelectRows(series), k) == if k > 0 then WithKey(series, k) else []
  {
    var sorted := SortDesc(series);
    SortDescSpec(series);
    SortDescDistinct(series);
    PositiveMembers(sorted);
    PositiveNonIncreasing(sorted);
    PositiveDistinct(sorted);
    forall k ensures WithKey(SelectRows(series), k) == if k > 0 then WithKey(series, k) else [] {
      PositiveWithKey(sorted, k);
    }
    forall e ensures e in sorted <==> e in series {
      assert e in multiset(sorted) <==> e in multiset(series);
    }
  }
}

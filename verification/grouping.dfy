/**
 The grouping loop of `get_month_to_date`: the time-ordered result buckets
 of the daily cost query, each a list of (service, amount) groups, folded
 into a per-service list of amounts. Python's dict keeps insertion order, and
 that order decides ties in the report's sort, so the map is modelled as an
 association list in order of first appearance.
 */
module Grouping {

  /** One group of a bucket: a service and its amount, in cents. */
  datatype Group = Group(service: string, amount: int)

  /** One day's groups, in response order. */
  type Bucket = seq<Group>

  /** One key of the service map and its list of amounts. */
  datatype Entry = Entry(service: string, amounts: seq<int>)

  /** The service map, in key-insertion order. */
  type Series = seq<Entry>

  /** All groups, bucket by bucket, each bucket in its own order. */
  function Flatten(buckets: seq<Bucket>): seq<Group> {
    if buckets == [] then []
    else Flatten(buckets[..|buckets| - 1]) + buckets[|buckets| - 1]
  }

  /** The amounts of service `name`, in the order the groups arrive. */
  function AmountsOf(gs: seq<Group>, name: string): seq<int> {
    if gs == [] then []
    else AmountsOf(gs[..|gs| - 1], name)
         + (if gs[|gs| - 1].service == name then [gs[|gs| - 1].amount] else [])
  }

  /** The services of `gs`, each once, in order of first appearance. */
  function FirstSeen(gs: seq<Group>): seq<string> {
    if gs == [] then []
    else
      var f := FirstSeen(gs[..|gs| - 1]);
      if gs[|gs| - 1].service in f then f else f + [gs[|gs| - 1].service]
  }

  /** The keys of the service map, in order. */
  function Services(s: Series): seq<string> {
    if s == [] then [] else [s[0].service] + Services(s[1..])
  }

  predicate Distinct(s: Series) {
    forall i, j :: 0 <= i < j < |s| ==> s[i].service != s[j].service
  }

  /** Dict lookup: the list stored under `name`, or empty when absent. */
  function Lookup(s: Series, name: string): seq<int> {
    if s == [] then []
    else if s[0].service == name then s[0].amounts
    else Lookup(s[1..], name)
  }

  /** The number of values stored across all keys. */
  function TotalLength(s: Series): nat {
    if s == [] then 0 else |s[0].amounts| + TotalLength(s[1..])
  }

  /** Distinct keys, and no key with an empty list. */
  predicate WellFormed(s: Series) {
    Distinct(s) && forall i :: 0 <= i < |s| ==> s[i].amounts != []
  }

  /** One step of the loop: create the key's list if missing, then append. */
  function Add(s: Series, g: Group): Series {
    if s == [] then [Entry(g.service, [g.amount])]
    else if s[0].service == g.service then [s[0].(amounts := s[0].amounts + [g.amount])] + s[1..]
    else [s[0]] + Add(s[1..], g)
  }

  /** The whole loop over a flat sequence of groups. */
  function GroupAll(gs: seq<Group>): Series {
    if gs == [] then [] else Add(GroupAll(gs[..|gs| - 1]), gs[|gs| - 1])
  }

  lemma {:induction false} ServicesIndex(s: Series)
    ensures |Services(s)| == |s|
    ensures forall i :: 0 <= i < |s| ==> Services(s)[i] == s[i].service
  {
    if s != [] {
      ServicesIndex(s[1..]);
    }
  }

  lemma LookupEntry(s: Series, i: int)
    requires Distinct(s) && 0 <= i < |s|
    ensures Lookup(s, s[i].service) == s[i].amounts
  {
    if i > 0 {
      LookupEntry(s[1..], i - 1);
    }
  }

  /** No entry of `l` is for service `name`. */
  predicate Lacks(l: Series, name: string) {
    forall i :: 0 <= i < |l| ==> l[i].service != name
  }

  lemma ConsDistinct(a: Entry, l: Series)
    ensures Distinct([a] + l) <==> Lacks(l, a.service) && Distinct(l)
  {
    var r := [a] + l;
    if Distinct(r) {
      forall i | 0 <= i < |l| ensures l[i].service != a.service {
        assert r[0] == a && r[i + 1] == l[i];
      }
      forall i, j | 0 <= i < j < |l| ensures l[i].service != l[j].service {
        assert r[i + 1] == l[i] && r[j + 1] == l[j];
      }
    }
    if Lacks(l, a.service) && Distinct(l) {
      forall i, j | 0 <= i < j < |r| ensures r[i].service != r[j].service {
        assert r[j] == l[j - 1];
        if i > 0 {
          assert r[i] == l[i - 1];
        }
      }
    }
  }

  /** A name is absent from the keys exactly when no entry is for it. */
  lemma {:induction false} LacksIff(s: Series, name: string)
    ensures Lacks(s, name) <==> name !in Services(s)
  {
    ServicesIndex(s);
    if !Lacks(s, name) {
      var i :| 0 <= i < |s| && s[i].service == name;
      assert Services(s)[i] == name;
    }
  }

  lemma {:induction false} AddLookup(s: Series, g: Group, name: string)
    ensures Lookup(Add(s, g), name) == Lookup(s, name) + (if name == g.service then [g.amount] else [])
  {
    if s != [] && s[0].service != g.service {
      AddLookup(s[1..], g, name);
      assert Add(s, g)[1..] == Add(s[1..], g);
    } else if s != [] {
      assert Add(s, g)[1..] == s[1..];
    }
  }

  lemma {:induction false} AddServices(s: Series, g: Group)
    ensures Services(Add(s, g))
            == if g.service in Services(s) then Services(s) else Services(s) + [g.service]
  {
    if s != [] && s[0].service != g.service {
      AddServices(s[1..], g);
      assert Add(s, g)[1..] == Add(s[1..], g);
      assert Services(s) == [s[0].service] + Services(s[1..]);
      if g.service !in Services(s[1..]) {
        assert Services(Add(s, g)) == [s[0].service] + (Services(s[1..]) + [g.service]);
      }
    } else if s != [] {
      assert Add(s, g)[1..] == s[1..];
    }
  }

  lemma {:induction false} AddTotalLength(s: Series, g: Group)
    ensures TotalLength(Add(s, g)) == TotalLength(s) + 1
  {
    if s != [] && s[0].service != g.service {
      AddTotalLength(s[1..], g);
      assert Add(s, g)[1..] == Add(s[1..], g);
    } else if s != [] {
      assert Add(s, g)[1..] == s[1..];
    }
  }

  lemma {:induction false} AddWellFormed(s: Series, g: Group)
    requires WellFormed(s)
    ensures WellFormed(Add(s, g))
  {
    if s != [] && s[0].service != g.service {
      var rest := s[1..];
      assert s == [s[0]] + rest;
      ConsDistinct(s[0], rest);
      assert WellFormed(rest) by {
        forall i | 0 <= i < |rest| ensures rest[i].amounts != [] {
          assert rest[i] == s[i + 1];
        }
      }
      AddWellFormed(rest, g);
      AddServices(rest, g);
      LacksIff(rest, s[0].service);
      LacksIff(Add(rest, g), s[0].service);
      ConsDistinct(s[0], Add(rest, g));
      var r := Add(s, g);
      assert r == [s[0]] + Add(rest, g);
      forall i | 0 <= i < |r| ensures r[i].amounts != [] {
        if i > 0 {
          assert r[i] == Add(rest, g)[i - 1];
        }
      }
    } else if s != [] {
      var r := Add(s, g);
      assert r[1..] == s[1..];
      assert s == [s[0]] + s[1..];
      ConsDistinct(s[0], s[1..]);
      ConsDistinct(r[0], r[1..]);
      assert r == [r[0]] + r[1..];
      forall i | 0 <= i < |r| ensures r[i].amounts != [] {
        if i > 0 {
          assert r[i] == s[i];
        }
      }
    }
  }

  /** What one step of the loop does to the map. */
  lemma AddSpec(s: Series, g: Group)
    requires WellFormed(s)
    ensures WellFormed(Add(s, g))
    ensures Services(Add(s, g))
            == if g.service in Services(s) then Services(s) else Services(s) + [g.service]
    ensures forall name ::
              Lookup(Add(s, g), name) == Lookup(s, name) + (if name == g.service then [g.amount] else [])
    ensures TotalLength(Add(s, g)) == TotalLength(s) + 1
  {
    AddWellFormed(s, g);
    AddServices(s, g);
    AddTotalLength(s, g);
    forall name ensures
      Lookup(Add(s, g), name) == Lookup(s, name) + (if name == g.service then [g.amount] else [])
    {
      AddLookup(s, g, name);
    }
  }

  /** The map the loop builds: distinct keys in order of first appearance,
      each holding exactly the amounts of its service in arrival order, none
      empty, and as many values in all as there were groups. */
  lemma {:induction false} GroupAllSpec(gs: seq<Group>)
    ensures WellFormed(GroupAll(gs))
    ensures Services(GroupAll(gs)) == FirstSeen(gs)
    ensures forall name :: Lookup(GroupAll(gs), name) == AmountsOf(gs, name)
    ensures TotalLength(GroupAll(gs)) == |gs|
  {
    if gs != [] {
      GroupAllSpec(gs[..|gs| - 1]);
      AddSpec(GroupAll(gs[..|gs| - 1]), gs[|gs| - 1]);
    }
  }

  /** A service has a key exactly when some group names it. */
  lemma {:induction false} FirstSeenMembership(gs: seq<Group>, name: string)
    ensures name in FirstSeen(gs) <==> exists k :: 0 <= k < |gs| && gs[k].service == name
  {
    if gs != [] {
      var init := gs[..|gs| - 1];
      FirstSeenMembership(init, name);
      if exists k :: 0 <= k < |gs| && gs[k].service == name {
        var k :| 0 <= k < |gs| && gs[k].service == name;
        if k < |gs| - 1 {
          assert init[k] == gs[k];
        }
      }
    }
  }

  /** The list of a service holds one amount per group of that service. */
  lemma {:induction false} AmountsOfCount(gs: seq<Group>, name: string)
    ensures |AmountsOf(gs, name)| == |set k | 0 <= k < |gs| && gs[k].service == name|
  {
    if gs != [] {
      var n := |gs| - 1;
      var init := gs[..n];
      AmountsOfCount(init, name);
      var before := set k | 0 <= k < n && init[k].service == name;
      var all := set k | 0 <= k < |gs| && gs[k].service == name;
      if gs[n].service == name {
        assert all == before + {n};
      } else {
        assert all == before;
      }
    }
  }

  /** `get_month_to_date`'s nested loop over buckets and their groups. */
  method MonthToDate(buckets: seq<Bucket>) returns (series: Series)
    ensures series == GroupAll(Flatten(buckets))
    ensures WellFormed(series)
    ensures Services(series) == FirstSeen(Flatten(buckets))
    ensures forall i :: 0 <= i < |series| ==>
              series[i].amounts == AmountsOf(Flatten(buckets), series[i].service)
    ensures TotalLength(series) == |Flatten(buckets)|
  {
    series := [];
    for i := 0 to |buckets|
      invariant series == GroupAll(Flatten(buckets[..i]))
    {
      var groups := buckets[i];
      assert Flatten(buckets[..i]) + groups[..0] == Flatten(buckets[..i]);
      for j := 0 to |groups|
        invariant series == GroupAll(Flatten(buckets[..i]) + groups[..j])
      {
        var prefix := Flatten(buckets[..i]) + groups[..j];
        assert (Flatten(buckets[..i]) + groups[..j + 1])[..|prefix|] == prefix;
        series := Add(series, groups[j]);
      }
      assert buckets[..i + 1][..i] == buckets[..i];
      assert groups[..|groups|] == groups;
    }
    assert buckets[..|buckets|] == buckets;
    GroupAllSpec(Flatten(buckets));
    forall i | 0 <= i < |series|
      ensures series[i].amounts == AmountsOf(Flatten(buckets), series[i].service)
    {
      LookupEntry(series, i);
    }
  }
}

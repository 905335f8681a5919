/**
 The per-service report of `main`, end to end: group the month-to-date
 buckets, select and order the rows, compute each row's statistics, and lay
 the table out. Amounts are turned into text by a caller-supplied `show`,
 which maps an amount in cents to the text printed for it.
 */
module Report {
  import opened Wrappers
  import opened Calendar
  import opened DateWindow
  import opened Grouping
  import opened Stats
  import opened Selection
  import opened Layout

  /** One printed row, before formatting; money in cents. */
  datatype Row = Row(
    service: string,
    estimate: real,
    total: int,
    mean: real,
    variance: Option<real>,
    latest: int)

  datatype Table = Table(nameWidth: nat, rows: seq<Row>)

  function RowOf(e: Entry, days: int): Row
    requires e.amounts != []
  {
    var a := e.amounts;
    Row(e.service, MonthlyEstimate(days, a), Sum(a), Mean(a), SafeVariance(a), a[|a| - 1])
  }

  function RowsOf(l: Series, days: int): (rows: seq<Row>)
    requires forall i :: 0 <= i < |l| ==> l[i].amounts != []
    ensures |rows| == |l|
  {
    if l == [] then [] else [RowOf(l[0], days)] + RowsOf(l[1..], days)
  }

  function RowServices(rows: seq<Row>): (names: seq<string>)
    ensures |names| == |rows|
  {
    if rows == [] then [] else [rows[0].service] + RowServices(rows[1..])
  }

  /** The rows whose running total is `k`, in order. */
  function RowsWithTotal(rows: seq<Row>, k: int): seq<Row> {
    if rows == [] then []
    else (if rows[0].total == k then [rows[0]] else []) + RowsWithTotal(rows[1..], k)
  }

  lemma {:induction false} SumPositiveNonEmpty(xs: seq<int>)
    requires Sum(xs) > 0
    ensures xs != []
  {
  }

  lemma SelectedNonEmpty(series: Series)
    ensures forall i :: 0 <= i < |SelectRows(series)| ==> SelectRows(series)[i].amounts != []
  {
    PositiveMembers(SortDesc(series));
    var sel := SelectRows(series);
    forall i | 0 <= i < |sel| ensures sel[i].amounts != [] {
      assert sel[i] in sel;
      SumPositiveNonEmpty(sel[i].amounts);
    }
  }

  /** The table `main` prints for the month-to-date buckets; None where
      `max()` raises because no service has a positive total. */
  function BuildTable(now: Date, buckets: seq<Bucket>): Option<Table>
    requires InRange(now)
  {
    var selected := SelectRows(GroupAll(Flatten(buckets)));
    match MaxNameWidth(selected)
    case None => None
    case Some(w) =>
      SelectedNonEmpty(GroupAll(Flatten(buckets)));
      Some(Table(w, RowsOf(selected, DaysThisMonth(now))))
  }

  lemma {:induction false} RowsOfIndex(l: Series, days: int, i: int)
    requires forall j :: 0 <= j < |l| ==> l[j].amounts != []
    requires 0 <= i < |l|
    ensures RowsOf(l, days)[i] == RowOf(l[i], days)
    decreases i
  {
    if i > 0 {
      RowsOfIndex(l[1..], days, i - 1);
    }
  }

  lemma {:induction false} RowServicesIndex(rows: seq<Row>, i: int)
    requires 0 <= i < |rows|
    ensures RowServices(rows)[i] == rows[i].service
    decreases i
  {
    if i > 0 {
      RowServicesIndex(rows[1..], i - 1);
    }
  }

  lemma {:induction false} RowsOfWithTotal(l: Series, days: int, k: int)
    requires forall i :: 0 <= i < |l| ==> l[i].amounts != []
    ensures forall i :: 0 <= i < |WithKey(l, k)| ==> WithKey(l, k)[i].amounts != []
    ensures RowServices(RowsWithTotal(RowsOf(l, days), k)) == Services(WithKey(l, k))
  {
    if l != [] {
      RowsOfWithTotal(l[1..], days, k);
      var rows := RowsOf(l, days);
      assert rows[0] == RowOf(l[0], days) && rows[1..] == RowsOf(l[1..], days);
      var w := WithKey(l, k);
      assert w == (if Key(l[0]) == k then [l[0]] else []) + WithKey(l[1..], k);
      if Key(l[0]) == k {
        assert w[0] == l[0] && w[1..] == WithKey(l[1..], k);
        assert forall i :: 1 <= i < |w| ==> w[i] == WithKey(l[1..], k)[i - 1];
        var sub := RowsWithTotal(rows, k);
        assert sub == [rows[0]] + RowsWithTotal(rows[1..], k);
        assert sub[0] == rows[0] && sub[1..] == RowsWithTotal(rows[1..], k);
        assert RowServices(sub) == [l[0].service] + RowServices(RowsWithTotal(rows[1..], k));
        assert Services(w) == [l[0].service] + Services(WithKey(l[1..], k));
      } else {
        assert RowsWithTotal(rows, k) == RowsWithTotal(rows[1..], k);
        assert w == WithKey(l[1..], k);
      }
    }
  }

  /** The amounts of a row's service, as the grouping loop collected them. */
  lemma EntryAmounts(gs: seq<Group>, e: Entry)
    requires e in GroupAll(gs)
    ensures e.amounts == AmountsOf(gs, e.service)
    ensures e.service in FirstSeen(gs)
  {
    GroupAllSpec(gs);
    var s := GroupAll(gs);
    var m :| 0 <= m < |s| && s[m] == e;
    LookupEntry(s, m);
    ServicesIndex(s);
  }

  /** There is no table exactly when no row survives the selection. */
  lemma BuildTableNoneIffNoRows(now: Date, buckets: seq<Bucket>)
    requires InRange(now)
    ensures BuildTable(now, buckets).None? <==> SelectRows(GroupAll(Flatten(buckets))) == []
  {
  }

  /** No row survives the selection exactly when no service has a positive total. */
  lemma {:induction false} NoRowsIffNoPositiveTotal(gs: seq<Group>)
    ensures SelectRows(GroupAll(gs)) == []
      <==> forall k :: 0 <= k < |gs| ==> Sum(AmountsOf(gs, gs[k].service)) <= 0
  {
    var series := GroupAll(gs);
    var selected := SelectRows(series);
    GroupAllSpec(gs);
    SelectRowsSpec(series);
    ServicesIndex(series);
    if selected == [] {
      forall k | 0 <= k < |gs| ensures Sum(AmountsOf(gs, gs[k].service)) <= 0 {
        FirstSeenMembership(gs, gs[k].service);
        var m :| 0 <= m < |series| && Services(series)[m] == gs[k].service;
        EntryAmounts(gs, series[m]);
        assert series[m] !in selected;
      }
    } else {
      var e := selected[0];
      assert e in selected;
      EntryAmounts(gs, e);
      var m :| 0 <= m < |series| && series[m] == e;
      FirstSeenMembership(gs, e.service);
      var k :| 0 <= k < |gs| && gs[k].service == e.service;
      assert Sum(AmountsOf(gs, gs[k].service)) > 0;
    }
  }

  /** There is no table exactly when no service has a positive total. */
  lemma {:induction false} BuildTableNoneIff(now: Date, buckets: seq<Bucket>)
    requires InRange(now)
    ensures var gs := Flatten(buckets);
      BuildTable(now, buckets).None?
      <==> forall k :: 0 <= k < |gs| ==> Sum(AmountsOf(gs, gs[k].service)) <= 0
  {
    BuildTableNoneIffNoRows(now, buckets);
    NoRowsIffNoPositiveTotal(Flatten(buckets));
  }

  /** Each row's entry is the map's entry for its service, as selected. */
  lemma TableRows(now: Date, buckets: seq<Bucket>, i: int)
    requires InRange(now)
    requires BuildTable(now, buckets).Some?
    requires 0 <= i < |BuildTable(now, buckets).value.rows|
    ensures var sel := SelectRows(GroupAll(Flatten(buckets)));
      && |BuildTable(now, buckets).value.rows| == |sel|
      && sel[i].amounts != []
      && BuildTable(now, buckets).value.rows[i] == RowOf(sel[i], DaysThisMonth(now))
      && sel[i].amounts == AmountsOf(Flatten(buckets), sel[i].service)
      && Key(sel[i]) > 0
  {
    var series := GroupAll(Flatten(buckets));
    var sel := SelectRows(series);
    SelectedNonEmpty(series);
    RowsOfIndex(sel, DaysThisMonth(now), i);
    PositiveMembers(SortDesc(series));
    assert sel[i] in sel;
    SortDescPermutation(series);
    assert sel[i] in multiset(SortDesc(series));
    EntryAmounts(Flatten(buckets), sel[i]);
  }

  /** Each row carries its service's total, which is positive, its latest
      amount, its mean, its monthly estimate and its variance, which is
      "N/A" exactly below two points. */
  lemma BuildTableContents(now: Date, buckets: seq<Bucket>)
    requires InRange(now)
    requires BuildTable(now, buckets).Some?
    ensures var gs := Flatten(buckets);
      var t := BuildTable(now, buckets).value;
      forall i :: 0 <= i < |t.rows| ==>
        var a := AmountsOf(gs, t.rows[i].service);
        && a != []
        && t.rows[i].total == Sum(a) > 0
        && t.rows[i].latest == a[|a| - 1]
        && t.rows[i].mean == Mean(a)
        && t.rows[i].estimate == MonthlyEstimate(DaysThisMonth(now), a)
        && t.rows[i].variance == SafeVariance(a)
        && (t.rows[i].variance.None? <==> |a| < 2)
  {
    var t := BuildTable(now, buckets).value;
    forall i | 0 <= i < |t.rows|
      ensures var a := AmountsOf(Flatten(buckets), t.rows[i].service);
        && a != []
        && t.rows[i].total == Sum(a) > 0
        && t.rows[i].latest == a[|a| - 1]
        && t.rows[i].mean == Mean(a)
        && t.rows[i].estimate == MonthlyEstimate(DaysThisMonth(now), a)
        && t.rows[i].variance == SafeVariance(a)
        && (t.rows[i].variance.None? <==> |a| < 2)
    {
      TableRows(now, buckets, i);
    }
  }

  /** The rows are exactly the services with a positive total. */
  lemma BuildTableMembers(now: Date, buckets: seq<Bucket>)
    requires InRange(now)
    requires BuildTable(now, buckets).Some?
    ensures var gs := Flatten(buckets);
      var t := BuildTable(now, buckets).value;
      forall name :: name in RowServices(t.rows)
        <==> name in FirstSeen(gs) && Sum(AmountsOf(gs, name)) > 0
  {
    var gs := Flatten(buckets);
    var series := GroupAll(gs);
    var sel := SelectRows(series);
    var rows := BuildTable(now, buckets).value.rows;
    GroupAllSpec(gs);
    SelectRowsSpec(series);
    ServicesIndex(series);
    forall name ensures name in RowServices(rows)
                        <==> name in FirstSeen(gs) && Sum(AmountsOf(gs, name)) > 0 {
      if name in RowServices(rows) {
        var i :| 0 <= i < |rows| && RowServices(rows)[i] == name;
        RowServicesIndex(rows, i);
        TableRows(now, buckets, i);
        assert sel[i] in sel;
        EntryAmounts(gs, sel[i]);
      }
      if name in FirstSeen(gs) && Sum(AmountsOf(gs, name)) > 0 {
        var m :| 0 <= m < |series| && Services(series)[m] == name;
        EntryAmounts(gs, series[m]);
        assert series[m] in sel;
        var i :| 0 <= i < |sel| && sel[i] == series[m];
        TableRows(now, buckets, i);
        RowServicesIndex(rows, i);
      }
    }
  }

  /** Rows in non-increasing order of total, no service twice, and among equal
      totals the services in the order they first appeared. */
  lemma BuildTableOrder(now: Date, buckets: seq<Bucket>)
    requires InRange(now)
    requires BuildTable(now, buckets).Some?
    ensures var t := BuildTable(now, buckets).value;
      && (forall i, j :: 0 <= i < j < |t.rows| ==>
            t.rows[i].total >= t.rows[j].total && t.rows[i].service != t.rows[j].service)
      && (forall k :: k > 0 ==>
            RowServices(RowsWithTotal(t.rows, k)) == Services(WithKey(GroupAll(Flatten(buckets)), k)))
  {
    var series := GroupAll(Flatten(buckets));
    var sel := SelectRows(series);
    var t := BuildTable(now, buckets).value;
    GroupAllSpec(Flatten(buckets));
    SelectRowsSpec(series);
    SelectedNonEmpty(series);
    forall i, j | 0 <= i < j < |t.rows|
      ensures t.rows[i].total >= t.rows[j].total && t.rows[i].service != t.rows[j].service
    {
      TableRows(now, buckets, i);
      TableRows(now, buckets, j);
    }
    forall k | k > 0
      ensures RowServices(RowsWithTotal(t.rows, k)) == Services(WithKey(series, k))
    {
      RowsOfWithTotal(sel, DaysThisMonth(now), k);
    }
  }

  /** The name column is as wide as the longest reported name. */
  lemma BuildTableWidth(now: Date, buckets: seq<Bucket>)
    requires InRange(now)
    requires BuildTable(now, buckets).Some?
    ensures var t := BuildTable(now, buckets).value;
      && (forall i :: 0 <= i < |t.rows| ==> |t.rows[i].service| <= t.nameWidth)
      && (exists i :: 0 <= i < |t.rows| && |t.rows[i].service| == t.nameWidth)
  {
    var sel := SelectRows(GroupAll(Flatten(buckets)));
    var t := BuildTable(now, buckets).value;
    forall i | 0 <= i < |t.rows| ensures t.rows[i].service == sel[i].service {
      TableRows(now, buckets, i);
    }
  }

  /** A value cell: the number through `show`, or "N/A" for no variance. */
  function VarianceText(v: Option<real>, show: real -> string): string {
    match v
    case None => "N/A"
    case Some(x) => show(x)
  }

  /** `show` for a value in cents squared: dividing by 100 first makes the
      cents-to-dollars conversion of `show` yield dollars squared. */
  function ShowSquared(show: real -> string): real -> string {
    x => show(x / 100.0)
  }

  /** One printed row line of the table. */
  function RenderRow(row: Row, w: nat, show: real -> string): string {
    RowLine(row.service,
            [show(row.estimate), show(row.total as real), show(row.mean),
             VarianceText(row.variance, ShowSquared(show)), show(row.latest as real)],
            w)
  }

  /** Every row line of a built table starts with its full service name
      padded to the name column, followed by `" || "`: names are never cut. */
  lemma RenderedRowsAligned(now: Date, buckets: seq<Bucket>, show: real -> string)
    requires InRange(now)
    requires BuildTable(now, buckets).Some?
    ensures var t := BuildTable(now, buckets).value;
      forall i :: 0 <= i < |t.rows| ==>
        var line := RenderRow(t.rows[i], t.nameWidth, show);
        && |line| >= t.nameWidth + 4
        && line[..|t.rows[i].service|] == t.rows[i].service
        && line[t.nameWidth..t.nameWidth + 4] == NameSeparator
  {
    BuildTableWidth(now, buckets);
    var t := BuildTable(now, buckets).value;
    forall i | 0 <= i < |t.rows|
      ensures var line := RenderRow(t.rows[i], t.nameWidth, show);
        && |line| >= t.nameWidth + 4
        && line[..|t.rows[i].service|] == t.rows[i].service
        && line[t.nameWidth..t.nameWidth + 4] == NameSeparator
    {
      var r := t.rows[i];
      RowNameColumn(r.service,
                    [show(r.estimate), show(r.total as real), show(r.mean),
                     VarianceText(r.variance, ShowSquared(show)), show(r.latest as real)],
                    t.nameWidth);
    }
  }

  /** Two days of EC2 at $10.00 and $12.50 and two days of S3 at $0.00 in a
      30-day month: only EC2 is reported, with total $22.50, mean $11.25,
      monthly estimate $337.50, variance 3.125 dollars squared and latest $12.50. */
  lemma Ec2AndS3Example()
    ensures BuildTable(Date(2024, 11, 15),
                       [[Group("EC2", 1000), Group("S3", 0)],
                        [Group("EC2", 1250), Group("S3", 0)]])
            == Some(Table(3, [Row("EC2", 33750.0, 2250, 1125.0, Some(31250.0), 1250)]))
  {
    var buckets := [[Group("EC2", 1000), Group("S3", 0)], [Group("EC2", 1250), Group("S3", 0)]];
    var ec2 := Entry("EC2", [1000, 1250]);
    var s3 := Entry("S3", [0, 0]);
    ExampleGrouping();
    ExampleSelection();
    ExampleRow();
    assert MaxNameWidth([ec2]) == Some(3);
    assert DaysThisMonth(Date(2024, 11, 15)) == 30;
    assert RowsOf([ec2], 30) == [RowOf(ec2, 30)];
  }

  lemma ExampleGrouping()
    ensures GroupAll(Flatten([[Group("EC2", 1000), Group("S3", 0)], [Group("EC2", 1250), Group("S3", 0)]]))
            == [Entry("EC2", [1000, 1250]), Entry("S3", [0, 0])]
  {
    var buckets := [[Group("EC2", 1000), Group("S3", 0)], [Group("EC2", 1250), Group("S3", 0)]];
    var gs := [Group("EC2", 1000), Group("S3", 0), Group("EC2", 1250), Group("S3", 0)];
    assert Flatten(buckets[..1]) == buckets[0];
    assert Flatten(buckets) == gs;
    var ec2 := Entry("EC2", [1000, 1250]);
    var s3 := Entry("S3", [0, 0]);
    assert gs[..3][..2] == gs[..2] && gs[..2][..1] == gs[..1] && gs[..4] == gs;
    assert GroupAll(gs[..1]) == [Entry("EC2", [1000])];
    assert "EC2" != "S3" by {
      assert "EC2"[0] != "S3"[0];
    }
    var e1 := [Entry("EC2", [1000])];
    assert Add(e1, gs[1]) == [e1[0]] + Add(e1[1..], gs[1]);
    assert GroupAll(gs[..2]) == [Entry("EC2", [1000]), Entry("S3", [0])];
    var e2 := [Entry("EC2", [1000]), Entry("S3", [0])];
    assert [1000] + [1250] == [1000, 1250];
    assert [0] + [0] == [0, 0];
    assert Add(e2, gs[2]) == [ec2] + e2[1..];
    assert GroupAll(gs[..3]) == [ec2, Entry("S3", [0])];
    var e3 := [ec2, Entry("S3", [0])];
    assert Add(e3[1..], gs[3]) == [s3];
    assert Add(e3, gs[3]) == [ec2] + Add(e3[1..], gs[3]);
  }

  lemma ExampleSelection()
    ensures SelectRows([Entry("EC2", [1000, 1250]), Entry("S3", [0, 0])]) == [Entry("EC2", [1000, 1250])]
  {
    var ec2 := Entry("EC2", [1000, 1250]);
    var s3 := Entry("S3", [0, 0]);
    assert Key(ec2) == 2250 && Key(s3) == 0;
    assert SortDesc([s3]) == [s3];
    assert SortDesc([ec2, s3]) == [ec2, s3];
    assert Positive([s3]) == [];
  }

  lemma ExampleRow()
    ensures RowOf(Entry("EC2", [1000, 1250]), 30) == Row("EC2", 33750.0, 2250, 1125.0, Some(31250.0), 1250)
  {
    assert ScaledSquaredDeviations([1250], 2, 2250) == 62500;
    assert ScaledSquaredDeviations([1000, 1250], 2, 2250) == 125000;
    assert SampleVariance([1000, 1250]) == 31250.0;
    assert Sum([1000, 1250]) == 2250;
    assert Mean([1000, 1250]) == 1125.0;
    assert MonthlyEstimate(30, [1000, 1250]) == 33750.0;
  }
}

/**
 The chart data: weekly sale records reduced, in one left-to-right pass, into one
 bucket per month label, the buckets kept in the order their month was first seen.
 The accumulator is the object keyed by month label; as its keys are never
 integer-like, its values come out in insertion order, so it is modelled as an
 ordered association list.
 */
module Aggregation {
  import opened Dates

  datatype SaleRecord = SaleRecord(
    weekEnding: string,
    retailSales: int,
    wholesaleSales: int,
    unitsSold: int,
    retailerMargin: int)

  datatype MonthlyAggregate = MonthlyAggregate(
    month: string,
    retailSales: int,
    retailerMargin: int,
    wholesaleSales: int)

  /** The three amounts a bucket sums. */
  datatype Measure = RetailSales | RetailerMargin | WholesaleSales

  function SaleAmount(s: SaleRecord, f: Measure): int {
    match f
    case RetailSales => s.retailSales
    case RetailerMargin => s.retailerMargin
    case WholesaleSales => s.wholesaleSales
  }

  function BucketAmount(b: MonthlyAggregate, f: Measure): int {
    match f
    case RetailSales => b.retailSales
    case RetailerMargin => b.retailerMargin
    case WholesaleSales => b.wholesaleSales
  }

  /** Every record carries a well-formed `YYYY-MM-DD` week-ending date. */
  predicate WellFormedSales(sales: seq<SaleRecord>) {
    forall i :: 0 <= i < |sales| ==> IsIsoDate(sales[i].weekEnding)
  }

  /** The bucket key of a record: the upper-cased month abbreviation of its week ending. */
  function SaleMonth(s: SaleRecord): string {
    WeekEndingMonth(s.weekEnding)
  }

  /** A record together with the month label the reducer computes for it first. */
  datatype KeyedSale = KeyedSale(month: string, sale: SaleRecord)

  /** Each record paired with its month label, in input order. */
  function Keyed(sales: seq<SaleRecord>): (ks: seq<KeyedSale>)
    ensures |ks| == |sales|
    ensures forall i :: 0 <= i < |sales| ==> ks[i] == KeyedSale(SaleMonth(sales[i]), sales[i])
  {
    seq(|sales|, i requires 0 <= i < |sales| => KeyedSale(SaleMonth(sales[i]), sales[i]))
  }

  /** The month labels of the records, record by record. */
  function Labels(ks: seq<KeyedSale>): (ls: seq<string>)
    ensures |ls| == |ks|
    ensures forall i :: 0 <= i < |ks| ==> ls[i] == ks[i].month
  {
    seq(|ks|, i requires 0 <= i < |ks| => ks[i].month)
  }

  /**
   The keys of the buckets, in order. This is the bucket counterpart of `Labels`; the two
   stay separate because they read keys off different element types.
   */
  function Months(buckets: seq<MonthlyAggregate>): (ms: seq<string>)
    ensures |ms| == |buckets|
    ensures forall i :: 0 <= i < |buckets| ==> ms[i] == buckets[i].month
  {
    seq(|buckets|, i requires 0 <= i < |buckets| => buckets[i].month)
  }

  /** No month label is the key of two buckets (object keys are unique). */
  predicate DistinctMonths(buckets: seq<MonthlyAggregate>) {
    forall i, j :: 0 <= i < j < |buckets| ==> buckets[i].month != buckets[j].month
  }

  /** Position of the bucket keyed `m`, or `|buckets|` when there is none. */
  function IndexOfMonth(buckets: seq<MonthlyAggregate>, m: string): (k: nat)
    ensures k <= |buckets|
    ensures k < |buckets| ==> buckets[k].month == m
    ensures forall j :: 0 <= j < k ==> buckets[j].month != m
    ensures k == |buckets| <==> m !in Months(buckets)
  {
    if |buckets| == 0 then 0
    else if buckets[0].month == m then 0
    else
      assert Months(buckets)[1..] == Months(buckets[1..]);
      1 + IndexOfMonth(buckets[1..], m)
  }

  /** The zero-initialised bucket created the first time a month is seen. */
  function EmptyBucket(m: string): (b: MonthlyAggregate)
    ensures b.month == m
    ensures forall f :: BucketAmount(b, f) == 0
  {
    MonthlyAggregate(m, 0, 0, 0)
  }

  /** Adds a record's three amounts into a bucket. */
  function AddToBucket(b: MonthlyAggregate, s: SaleRecord): (r: MonthlyAggregate)
    ensures r.month == b.month
    ensures forall f :: BucketAmount(r, f) == BucketAmount(b, f) + SaleAmount(s, f)
  {
    MonthlyAggregate(
      b.month,
      b.retailSales + s.retailSales,
      b.retailerMargin + s.retailerMargin,
      b.wholesaleSales + s.wholesaleSales)
  }

  /**
   The reducer's step for a record whose month label is `m`: find the bucket keyed
   `m`, creating a zero one at the end only if the month is new, and add the
   record into it.
   */
  function AddSale(acc: seq<MonthlyAggregate>, m: string, sale: SaleRecord): (r: seq<MonthlyAggregate>)
    requires DistinctMonths(acc)
    ensures DistinctMonths(r)
    ensures m in Months(acc) <==> |r| == |acc|
    ensures m !in Months(acc) <==> |r| == |acc| + 1
    ensures forall k :: 0 <= k < |acc| ==> r[k].month == acc[k].month
    ensures forall k :: 0 <= k < |acc| && acc[k].month != m ==> r[k] == acc[k]
    ensures forall k :: |acc| <= k < |r| ==> r[k].month == m
    ensures forall k, f :: 0 <= k < |r| && r[k].month == m ==>
      BucketAmount(r[k], f) == (if k < |acc| then BucketAmount(acc[k], f) else 0) + SaleAmount(sale, f)
  {
    var k := IndexOfMonth(acc, m);
    if k == |acc| then acc + [AddToBucket(EmptyBucket(m), sale)]
    else acc[k := AddToBucket(acc[k], sale)]
  }

  /** The reduction: the left fold of `AddSale` over the keyed records, from no buckets. */
  function Reduce(ks: seq<KeyedSale>): (r: seq<MonthlyAggregate>)
    ensures DistinctMonths(r)
    ensures |r| <= |ks|
    ensures |ks| > 0 ==> |r| > 0
  {
    if |ks| == 0 then []
    else
      var last := ks[|ks| - 1];
      AddSale(Reduce(ks[..|ks| - 1]), last.month, last.sale)
  }

  /** `graphDataFromSales`: key every record by its month label and reduce. */
  function GraphDataFromSales(sales: seq<SaleRecord>): (r: seq<MonthlyAggregate>)
    ensures DistinctMonths(r)
    ensures |r| <= |sales|
    ensures |r| == 0 <==> |sales| == 0
  {
    Reduce(Keyed(sales))
  }

  lemma GraphDataIsReduce(sales: seq<SaleRecord>)
    ensures GraphDataFromSales(sales) == Reduce(Keyed(sales))
  {
  }

  lemma ReduceStep(ks: seq<KeyedSale>)
    requires |ks| > 0
    ensures var last := ks[|ks| - 1];
      Reduce(ks) == AddSale(Reduce(ks[..|ks| - 1]), last.month, last.sale)
  {
  }

  lemma LabelsStep(ks: seq<KeyedSale>)
    requires |ks| > 0
    ensures Labels(ks) == Labels(ks[..|ks| - 1]) + [ks[|ks| - 1].month]
  {
  }

  // Sums over records and over buckets
  //
  // `SumSales` and `SumMonth` sum over keyed records, the form the fold works on;
  // `SumRecords` and `SumRecordsOfMonth` below sum over the records themselves, the
  // form the results are stated in. `SumsOfKeyed` shows the two agree. The fold's
  // lemmas stay on keyed records so that the solver never unfolds date parsing there.

  /** The sum of one amount over all records. */
  function SumSales(ks: seq<KeyedSale>, f: Measure): int {
    if |ks| == 0 then 0 else SumSales(ks[..|ks| - 1], f) + SaleAmount(ks[|ks| - 1].sale, f)
  }

  /** The sum of one amount over the records whose month label is `m`, whatever their year. */
  function SumMonth(ks: seq<KeyedSale>, m: string, f: Measure): int {
    if |ks| == 0 then 0
    else
      var last := ks[|ks| - 1];
      SumMonth(ks[..|ks| - 1], m, f) + (if last.month == m then SaleAmount(last.sale, f) else 0)
  }

  /** The sum of one amount over all buckets. */
  function Total(buckets: seq<MonthlyAggregate>, f: Measure): int {
    if |buckets| == 0 then 0 else Total(buckets[..|buckets| - 1], f) + BucketAmount(buckets[|buckets| - 1], f)
  }

  /** The sum of one amount over the records themselves. */
  function SumRecords(sales: seq<SaleRecord>, f: Measure): int {
    if |sales| == 0 then 0 else SumRecords(sales[..|sales| - 1], f) + SaleAmount(sales[|sales| - 1], f)
  }

  /** The sum of one amount over the records whose week ending carries month label `m`. */
  function SumRecordsOfMonth(sales: seq<SaleRecord>, m: string, f: Measure): int {
    if |sales| == 0 then 0
    else
      var last := sales[|sales| - 1];
      SumRecordsOfMonth(sales[..|sales| - 1], m, f) + (if SaleMonth(last) == m then SaleAmount(last, f) else 0)
  }

  lemma KeyedPrefix(sales: seq<SaleRecord>)
    requires |sales| > 0
    ensures Keyed(sales)[..|sales| - 1] == Keyed(sales[..|sales| - 1])
  {
  }

  /** Keying the records changes none of the sums. */
  lemma {:induction false} SumsOfKeyed(sales: seq<SaleRecord>, m: string, f: Measure)
    ensures SumSales(Keyed(sales), f) == SumRecords(sales, f)
    ensures SumMonth(Keyed(sales), m, f) == SumRecordsOfMonth(sales, m, f)
  {
    if |sales| > 0 {
      SumsOfKeyed(sales[..|sales| - 1], m, f);
      KeyedPrefix(sales);
    }
  }

  lemma {:induction false} TotalUpdate(bs: seq<MonthlyAggregate>, k: nat, b: MonthlyAggregate, f: Measure)
    requires k < |bs|
    ensures Total(bs[k := b], f) == Total(bs, f) - BucketAmount(bs[k], f) + BucketAmount(b, f)
  {
    var n := |bs|;
    if k < n - 1 {
      TotalUpdate(bs[..n - 1], k, b, f);
      assert bs[k := b][..n - 1] == bs[..n - 1][k := b];
    } else {
      assert bs[k := b][..n - 1] == bs[..n - 1];
    }
  }

  /** One step moves exactly the record's amounts into the buckets. */
  lemma AddSaleTotal(acc: seq<MonthlyAggregate>, m: string, sale: SaleRecord, f: Measure)
    requires DistinctMonths(acc)
    ensures Total(AddSale(acc, m, sale), f) == Total(acc, f) + SaleAmount(sale, f)
  {
    var k := IndexOfMonth(acc, m);
    if k == |acc| {
      var r := AddSale(acc, m, sale);
      assert r[..|acc|] == acc;
    } else {
      TotalUpdate(acc, k, AddToBucket(acc[k], sale), f);
    }
  }

  lemma {:induction false} ReduceConservesTotals(ks: seq<KeyedSale>, f: Measure)
    ensures Total(Reduce(ks), f) == SumSales(ks, f)
  {
    if |ks| > 0 {
      var last := ks[|ks| - 1];
      ReduceConservesTotals(ks[..|ks| - 1], f);
      AddSaleTotal(Reduce(ks[..|ks| - 1]), last.month, last.sale, f);
    }
  }

  /** Conservation: the buckets together hold exactly the records' totals, for each amount. */
  lemma GraphDataConservesTotals(sales: seq<SaleRecord>, f: Measure)
    ensures Total(GraphDataFromSales(sales), f) == SumRecords(sales, f)
  {
    GraphDataIsReduce(sales);
    ReduceConservesTotals(Keyed(sales), f);
    SumsOfKeyed(sales, "", f);
  }

  // Keys

  lemma AddSaleMonths(acc: seq<MonthlyAggregate>, m: string, sale: SaleRecord)
    requires DistinctMonths(acc)
    ensures forall x :: x in Months(AddSale(acc, m, sale)) <==> x in Months(acc) || x == m
  {
    var r := AddSale(acc, m, sale);
    var k := IndexOfMonth(acc, m);
    forall x
      ensures x in Months(r) <==> x in Months(acc) || x == m
    {
      if x in Months(r) {
        var i :| 0 <= i < |r| && Months(r)[i] == x;
        if i < |acc| {
          assert Months(acc)[i] == x;
        }
      }
      if x in Months(acc) {
        var i :| 0 <= i < |acc| && Months(acc)[i] == x;
        assert Months(r)[i] == x;
      }
      if x == m {
        if k < |acc| {
          assert Months(r)[k] == m;
        } else {
          assert Months(r)[|acc|] == m;
        }
      }
    }
  }

  lemma {:induction false} ReduceMonths(ks: seq<KeyedSale>)
    ensures forall x :: x in Months(Reduce(ks)) <==> x in Labels(ks)
  {
    if |ks| > 0 {
      var n := |ks|;
      var prefix := ks[..n - 1];
      ReduceMonths(prefix);
      ReduceStep(ks);
      LabelsStep(ks);
      AddSaleMonths(Reduce(prefix), ks[n - 1].month, ks[n - 1].sale);
    }
  }

  /** The bucket keys are exactly the month labels that occur among the records. */
  lemma GraphDataMonths(sales: seq<SaleRecord>)
    ensures forall x :: x in Months(GraphDataFromSales(sales)) <==>
      exists i :: 0 <= i < |sales| && SaleMonth(sales[i]) == x
  {
    var ks := Keyed(sales);
    ReduceMonths(ks);
    forall x
      ensures x in Labels(ks) <==> exists i :: 0 <= i < |sales| && SaleMonth(sales[i]) == x
    {
      if exists i :: 0 <= i < |sales| && SaleMonth(sales[i]) == x {
        var i :| 0 <= i < |sales| && SaleMonth(sales[i]) == x;
        assert Labels(ks)[i] == x;
      }
    }
  }

  // At most twelve buckets

  function RemoveAll(ys: seq<string>, x: string): (r: seq<string>)
    ensures |r| <= |ys|
    ensures x in ys ==> |r| < |ys|
    ensures forall y :: y in r <==> y in ys && y != x
  {
    if |ys| == 0 then []
    else (if ys[0] == x then [] else [ys[0]]) + RemoveAll(ys[1..], x)
  }

  /** A repetition-free sequence drawn from `ys` is no longer than `ys`. */
  lemma {:induction false} DistinctWithin(xs: seq<string>, ys: seq<string>)
    requires forall i, j :: 0 <= i < j < |xs| ==> xs[i] != xs[j]
    requires forall x :: x in xs ==> x in ys
    ensures |xs| <= |ys|
  {
    if |xs| > 0 {
      var x := xs[|xs| - 1];
      var xs' := xs[..|xs| - 1];
      forall y | y in xs'
        ensures y in RemoveAll(ys, x)
      {
        var i :| 0 <= i < |xs'| && xs'[i] == y;
        assert xs[i] == y;
      }
      DistinctWithin(xs', RemoveAll(ys, x));
    }
  }

  /** With well-formed dates there are at most twelve buckets, one per calendar month at most. */
  lemma GraphDataAtMostTwelve(sales: seq<SaleRecord>)
    requires WellFormedSales(sales)
    ensures |GraphDataFromSales(sales)| <= 12
  {
    var all := AllMonthLabels();
    forall i | 0 <= i < |sales|
      ensures SaleMonth(sales[i]) in all
    {
      LabelListed(sales[i].weekEnding, all);
    }
    KeysWithinLabels(sales, all);
  }

  /** A well-formed date's key is in any list that holds every month's label. */
  lemma LabelListed(w: string, all: seq<string>)
    requires IsIsoDate(w)
    requires |all| == 12 && forall m :: 1 <= m <= 12 ==> all[m - 1] == MonthLabel(m)
    ensures WeekEndingMonth(w) in all
  {
    var mo := ParseIsoDate(w).value.month;
    assert all[mo - 1] == WeekEndingMonth(w);
  }

  /** Pigeonhole: when every record's key is listed in `all`, there are no more buckets than `all` has entries. */
  lemma KeysWithinLabels(sales: seq<SaleRecord>, all: seq<string>)
    requires forall i :: 0 <= i < |sales| ==> SaleMonth(sales[i]) in all
    ensures |GraphDataFromSales(sales)| <= |all|
  {
    var r := GraphDataFromSales(sales);
    GraphDataMonths(sales);
    forall x | x in Months(r)
      ensures x in all
    {
      var i :| 0 <= i < |sales| && SaleMonth(sales[i]) == x;
    }
    DistinctWithin(Months(r), all);
  }

  // Partition of the records among the buckets

  /** A month that no record carries sums to zero. */
  lemma {:induction false} SumMonthAbsent(ks: seq<KeyedSale>, m: string, f: Measure)
    requires m !in Labels(ks)
    ensures SumMonth(ks, m, f) == 0
  {
    if |ks| > 0 {
      var n := |ks|;
      var prefix := ks[..n - 1];
      assert Labels(ks)[n - 1] == ks[n - 1].month;
      assert Labels(ks) == Labels(prefix) + [ks[n - 1].month];
      SumMonthAbsent(prefix, m, f);
    }
  }

  /** Each bucket holds the sums of the records in `ks` carrying its month. */
  predicate HoldsMonthSums(r: seq<MonthlyAggregate>, ks: seq<KeyedSale>) {
    forall k, f :: 0 <= k < |r| ==> BucketAmount(r[k], f) == SumMonth(ks, r[k].month, f)
  }

  lemma AddSaleMonthSums(acc: seq<MonthlyAggregate>, ks: seq<KeyedSale>, m: string, sale: SaleRecord)
    requires DistinctMonths(acc)
    requires HoldsMonthSums(acc, ks)
    requires forall x :: x in Months(acc) <==> x in Labels(ks)
    ensures HoldsMonthSums(AddSale(acc, m, sale), ks + [KeyedSale(m, sale)])
  {
    var r := AddSale(acc, m, sale);
    var ks2 := ks + [KeyedSale(m, sale)];
    assert ks2[..|ks2| - 1] == ks;
    forall k, f | 0 <= k < |r|
      ensures BucketAmount(r[k], f) == SumMonth(ks2, r[k].month, f)
    {
      var x := r[k].month;
      assert SumMonth(ks2, x, f) == SumMonth(ks, x, f) + (if m == x then SaleAmount(sale, f) else 0);
      if k == |acc| {
        assert m !in Months(acc);
        SumMonthAbsent(ks, m, f);
      } else {
        assert acc[k].month == x;
      }
    }
  }

  lemma {:induction false} ReduceBucketSums(ks: seq<KeyedSale>)
    ensures HoldsMonthSums(Reduce(ks), ks)
  {
    if |ks| > 0 {
      var n := |ks|;
      var prefix := ks[..n - 1];
      var last := ks[n - 1];
      ReduceBucketSums(prefix);
      ReduceMonths(prefix);
      ReduceStep(ks);
      AddSaleMonthSums(Reduce(prefix), prefix, last.month, last.sale);
      assert prefix + [KeyedSale(last.month, last.sale)] == ks;
    }
  }

  /**
   Each bucket holds the sums over exactly the records whose month label is its key,
   whatever their year; a month no bucket carries has no records.
   */
  lemma GraphDataBucketSums(sales: seq<SaleRecord>)
    ensures var r := GraphDataFromSales(sales);
      forall k, f :: 0 <= k < |r| ==> BucketAmount(r[k], f) == SumRecordsOfMonth(sales, r[k].month, f)
    ensures forall m, f :: m !in Months(GraphDataFromSales(sales)) ==> SumRecordsOfMonth(sales, m, f) == 0
    ensures forall m, i :: m !in Months(GraphDataFromSales(sales)) && 0 <= i < |sales| ==> SaleMonth(sales[i]) != m
  {
    GraphDataIsReduce(sales);
    var r := GraphDataFromSales(sales);
    ReduceBucketSums(Keyed(sales));
    ReduceMonths(Keyed(sales));
    forall k, f | 0 <= k < |r|
      ensures BucketAmount(r[k], f) == SumRecordsOfMonth(sales, r[k].month, f)
    {
      SumsOfKeyed(sales, r[k].month, f);
    }
    forall m, f | m !in Months(r)
      ensures SumRecordsOfMonth(sales, m, f) == 0
    {
      SumMonthAbsent(Keyed(sales), m, f);
      SumsOfKeyed(sales, m, f);
    }
    forall m, i | m !in Months(r) && 0 <= i < |sales|
      ensures SaleMonth(sales[i]) != m
    {
      assert Labels(Keyed(sales))[i] == SaleMonth(sales[i]);
    }
  }

  // Order of the buckets

  /** Position of the first occurrence of `m` in `ls`. */
  function FirstIndex(ls: seq<string>, m: string): (k: nat)
    requires m in ls
    ensures k < |ls| && ls[k] == m
    ensures forall j :: 0 <= j < k ==> ls[j] != m
  {
    if ls[0] == m then 0 else 1 + FirstIndex(ls[1..], m)
  }

  lemma FirstIndexIs(ls: seq<string>, m: string, k: nat)
    requires k < |ls| && ls[k] == m
    requires forall j :: 0 <= j < k ==> ls[j] != m
    ensures FirstIndex(ls, m) == k
  {
  }

  /** Extending the records keeps the first occurrence of every month already seen. */
  lemma FirstIndexAppend(ls: seq<string>, x: string, m: string)
    requires m in ls
    ensures m in ls + [x] && FirstIndex(ls + [x], m) == FirstIndex(ls, m)
  {
    FirstIndexIs(ls + [x], m, FirstIndex(ls, m));
  }

  /** Buckets are ordered by the first occurrence of their month in `ls`. */
  predicate InFirstSeenOrder(r: seq<MonthlyAggregate>, ls: seq<string>) {
    forall i, j :: 0 <= i < j < |r| ==>
      && r[i].month in ls && r[j].month in ls
      && FirstIndex(ls, r[i].month) < FirstIndex(ls, r[j].month)
  }

  lemma AddSaleFirstSeenOrder(acc: seq<MonthlyAggregate>, ls: seq<string>, m: string, sale: SaleRecord)
    requires DistinctMonths(acc)
    requires InFirstSeenOrder(acc, ls)
    requires forall x :: x in Months(acc) <==> x in ls
    ensures InFirstSeenOrder(AddSale(acc, m, sale), ls + [m])
  {
    var r := AddSale(acc, m, sale);
    var ls2 := ls + [m];
    forall i | 0 <= i < |acc|
      ensures acc[i].month in ls && r[i].month in ls2 && FirstIndex(ls2, r[i].month) == FirstIndex(ls, acc[i].month)
    {
      assert Months(acc)[i] == acc[i].month;
      FirstIndexAppend(ls, m, acc[i].month);
    }
    forall i, j | 0 <= i < j < |r|
      ensures && r[i].month in ls2 && r[j].month in ls2
              && FirstIndex(ls2, r[i].month) < FirstIndex(ls2, r[j].month)
    {
      if j >= |acc| {
        assert r[j].month == m && m !in ls;
        FirstIndexIs(ls2, m, |ls|);
      }
    }
  }

  lemma {:induction false} ReduceFirstSeenOrder(ks: seq<KeyedSale>)
    ensures InFirstSeenOrder(Reduce(ks), Labels(ks))
  {
    if |ks| > 0 {
      var n := |ks|;
      var prefix := ks[..n - 1];
      var last := ks[n - 1];
      ReduceFirstSeenOrder(prefix);
      ReduceMonths(prefix);
      AddSaleFirstSeenOrder(Reduce(prefix), Labels(prefix), last.month, last.sale);
      LabelsStep(ks);
      ReduceStep(ks);
    }
  }

  /** Buckets appear in the order their months first occur among the records, not in calendar order. */
  lemma GraphDataFirstSeenOrder(sales: seq<SaleRecord>)
    ensures InFirstSeenOrder(GraphDataFromSales(sales), Labels(Keyed(sales)))
  {
    GraphDataIsReduce(sales);
    ReduceFirstSeenOrder(Keyed(sales));
  }

  // Records of the same month in different years

  /**
   Two records with well-formed dates share a bucket exactly when their `MM` fields
   agree: the year is ignored, so January of two different years lands in one bucket.
   */
  lemma SameBucketIffSameMonthField(sales: seq<SaleRecord>, i: nat, j: nat)
    requires i < |sales| && j < |sales|
    requires IsIsoDate(sales[i].weekEnding) && IsIsoDate(sales[j].weekEnding)
    ensures var r := GraphDataFromSales(sales);
      && IndexOfMonth(r, SaleMonth(sales[i])) < |r|
      && IndexOfMonth(r, SaleMonth(sales[j])) < |r|
      && (IndexOfMonth(r, SaleMonth(sales[i])) == IndexOfMonth(r, SaleMonth(sales[j]))
          <==> sales[i].weekEnding[5..7] == sales[j].weekEnding[5..7])
  {
    GraphDataMonths(sales);
    SameLabelIffSameMonthField(sales[i].weekEnding, sales[j].weekEnding);
  }

  // Example

  /** Two records of the same month label make a single bucket holding both. */
  lemma SameMonthPair(a: SaleRecord, b: SaleRecord)
    requires SaleMonth(a) == SaleMonth(b)
    ensures GraphDataFromSales([a, b]) == [AddToBucket(AddToBucket(EmptyBucket(SaleMonth(a)), a), b)]
  {
    var m := SaleMonth(a);
    var ks := Keyed([a, b]);
    var first := [AddToBucket(EmptyBucket(m), a)];
    assert ks == [KeyedSale(m, a), KeyedSale(m, b)];
    assert Reduce(ks[..1]) == first by {
      assert ks[..1] == [KeyedSale(m, a)];
      ReduceStep(ks[..1]);
      assert ks[..1][..0] == [];
    }
    assert Reduce(ks) == AddSale(first, m, b) by {
      ReduceStep(ks);
    }
    assert IndexOfMonth(first, m) == 0;
    GraphDataIsReduce([a, b]);
  }

  /** Two records of different month labels make two buckets, the first record's month first. */
  lemma DistinctMonthPair(a: SaleRecord, b: SaleRecord)
    requires SaleMonth(a) != SaleMonth(b)
    ensures GraphDataFromSales([a, b]) ==
      [AddToBucket(EmptyBucket(SaleMonth(a)), a), AddToBucket(EmptyBucket(SaleMonth(b)), b)]
  {
    var ma, mb := SaleMonth(a), SaleMonth(b);
    var ks := Keyed([a, b]);
    var first := [AddToBucket(EmptyBucket(ma), a)];
    assert ks == [KeyedSale(ma, a), KeyedSale(mb, b)];
    assert Reduce(ks[..1]) == first by {
      assert ks[..1] == [KeyedSale(ma, a)];
      ReduceStep(ks[..1]);
      assert ks[..1][..0] == [];
    }
    assert Reduce(ks) == AddSale(first, mb, b) by {
      ReduceStep(ks);
    }
    assert IndexOfMonth(first, mb) == 1 by {
      assert first[1..] == [];
    }
    GraphDataIsReduce([a, b]);
  }

  /**
   The output depends on the order of the records: swapping two records of different
   months swaps their buckets, so the reduction is not order-independent.
   */
  lemma InputOrderMatters(a: SaleRecord, b: SaleRecord)
    requires SaleMonth(a) != SaleMonth(b)
    ensures GraphDataFromSales([a, b])[0].month == SaleMonth(a)
    ensures GraphDataFromSales([b, a])[0].month == SaleMonth(b)
    ensures GraphDataFromSales([a, b]) != GraphDataFromSales([b, a])
  {
    DistinctMonthPair(a, b);
    DistinctMonthPair(b, a);
  }

  /** Two January weeks of different years share the one `JAN` bucket. */
  lemma TwoJanuariesExample(a: SaleRecord, b: SaleRecord)
    requires a == SaleRecord("2022-01-07", 100, 60, 5, 20)
    requires b == SaleRecord("2023-01-05", 200, 90, 7, 30)
    ensures GraphDataFromSales([a, b]) == [MonthlyAggregate("JAN", 300, 50, 150)]
  {
    EarlierYearLabelExample();
    MonthLabelExample();
    SameMonthPair(a, b);
  }
}

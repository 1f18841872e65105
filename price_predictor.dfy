/** The price predictor: per-interval averages of stock prices and of the sentiment relation are
    merged by time, grouped into New York trading days, and each day's mean sentiment is compared
    with the mean of up to three preceding days to predict a price one percent up, one percent
    down or unchanged. Every changed prediction is written out as 720 two-minute documents. */
module PricePredictor {
  import opened Wrappers
  import opened Seqs
  import opened Text
  import opened Sorting
  import opened Documents
  import CustomMath

  const ANALYSIS_DAYS := 3
  const DOCUMENT_TYPE := "prediction"
  const INDEX_NAME := "predictions"
  const NYSE_TRADE_END_HOUR := 20
  const NYSE_UTC_OFFSET := -6 * 3600       // seconds
  const SECONDS_PER_DAY := 86400
  const SLOTS_PER_DAY := 720               // 24 hours of two-minute marks

  // ---------------------------------------------------------------------------------------
  // The aggregation request and its result
  // ---------------------------------------------------------------------------------------

  /** The search body: a date histogram over "date" with the configured interval, each bucket
      averaging `field`. */
  function AggregationBody(intervalMinutes: int, field: string): Value {
    VDict([
      ("size", VInt(0)),
      ("aggs", VDict([
        ("by_time", VDict([
          ("date_histogram", VDict([
            ("field", VStr("date")),
            ("interval", VStr(Interval(intervalMinutes)))])),
          ("aggs", VDict([
            ("avg_value", VDict([
              ("avg", VDict([("field", VStr(field))]))]))]))]))]))])
  }

  /** One histogram bucket: its time (seconds since the epoch, parsed from key_as_string) and
      the average of the field, None for a bucket without documents. */
  datatype Bucket = Bucket(date: int, avg: Option<real>)

  datatype Aggregation = Aggregation(date: int, value: real)

  /** A bucket is kept unless its average is null or zero (both are falsy). */
  predicate HasValue(b: Bucket) {
    b.avg.Some? && b.avg.value != 0.0
  }

  function Aggregations(buckets: seq<Bucket>): seq<Aggregation> {
    if buckets == [] then []
    else
      var b := buckets[|buckets| - 1];
      Aggregations(buckets[..|buckets| - 1]) + (if HasValue(b) then [Aggregation(b.date, b.avg.value)] else [])
  }

  /** get_aggregated_prices and get_aggregated_sentiments: the buckets with a value, in order. */
  method GetAggregatedValues(buckets: seq<Bucket>) returns (aggregations: seq<Aggregation>)
    ensures aggregations == Aggregations(buckets)
  {
    aggregations := [];
    for i := 0 to |buckets|
      invariant aggregations == Aggregations(buckets[..i])
    {
      assert buckets[..i + 1][..i] == buckets[..i];
      var b := buckets[i];
      if !HasValue(b) {
        continue;
      }
      aggregations := aggregations + [Aggregation(b.date, b.avg.value)];
    }
    assert buckets[..|buckets|] == buckets;
  }

  /** An aggregation is produced exactly for each bucket with a non-zero average. */
  lemma {:induction false} AggregationsFacts(buckets: seq<Bucket>)
    ensures forall a :: a in Aggregations(buckets) <==> a.value != 0.0 && Bucket(a.date, Some(a.value)) in buckets
    ensures |Aggregations(buckets)| <= |buckets|
  {
    if buckets != [] {
      var init := buckets[..|buckets| - 1];
      AggregationsFacts(init);
      assert buckets == init + [buckets[|buckets| - 1]];
    }
  }

  // ---------------------------------------------------------------------------------------
  // Merging prices and sentiments by time
  // ---------------------------------------------------------------------------------------

  /** The value of the last aggregation at `date`: a later assignment overwrites an earlier one. */
  function LastValue(aggregations: seq<Aggregation>, date: int): (r: Option<real>)
    ensures r.Some? <==> exists a :: a in aggregations && a.date == date
    ensures r.Some? ==> Aggregation(date, r.value) in aggregations
  {
    if aggregations == [] then None
    else
      var init := aggregations[..|aggregations| - 1];
      var last := aggregations[|aggregations| - 1];
      assert aggregations == init + [last];
      if last.date == date then Some(last.value) else LastValue(init, date)
  }

  lemma LastValueStep(aggregations: seq<Aggregation>, i: nat, date: int)
    requires i < |aggregations|
    ensures LastValue(aggregations[..i + 1], date)
      == if aggregations[i].date == date then Some(aggregations[i].value) else LastValue(aggregations[..i], date)
  {
    assert aggregations[..i + 1][..i] == aggregations[..i];
  }

  /** The fields one merged date holds; a missing key is None. */
  datatype Entry = Entry(price: Option<real>, sentiment: Option<real>)

  /** A complete merged record. */
  datatype Record = Record(date: int, price: real, sentiment: real)

  /** The merged dictionary after assigning all of `prices`, then all of `sentiments`. */
  ghost predicate MergedFrom(merged: Dict<int, Entry>, prices: seq<Aggregation>, sentiments: seq<Aggregation>) {
    && IsDict(merged)
    && forall d :: Get(merged, d) ==
         if LastValue(prices, d).Some? || LastValue(sentiments, d).Some?
         then Some(Entry(LastValue(prices, d), LastValue(sentiments, d)))
         else None
  }

  /** The merged entries that hold both a price and a sentiment, in dictionary order. */
  function Complete(merged: Dict<int, Entry>): seq<Record> {
    if merged == [] then []
    else
      var e := merged[0].1;
      (if e.price.Some? && e.sentiment.Some? then [Record(merged[0].0, e.price.value, e.sentiment.value)] else [])
      + Complete(merged[1..])
  }

  function ByDate(): (Record, Record) -> bool {
    (a: Record, b: Record) => a.date <= b.date
  }

  lemma {:induction false} CompleteFacts(merged: Dict<int, Entry>)
    requires IsDict(merged)
    ensures forall r :: r in Complete(merged) <==> Get(merged, r.date) == Some(Entry(Some(r.price), Some(r.sentiment)))
    ensures forall i, j :: 0 <= i < j < |Complete(merged)| ==> Complete(merged)[i].date != Complete(merged)[j].date
  {
    if merged != [] {
      var rest := merged[1..];
      assert Keys(merged) == [merged[0].0] + Keys(rest);
      assert Keys(rest) == Keys(merged)[1..];
      assert merged[0].0 !in Keys(rest) by {
        forall j | 0 <= j < |Keys(rest)| ensures Keys(rest)[j] != merged[0].0 {
          assert Keys(merged)[j + 1] != Keys(merged)[0];
        }
      }
      CompleteFacts(rest);
      var c := Complete(merged);
      forall j | 0 <= j < |Complete(rest)| ensures Complete(rest)[j].date != merged[0].0 {
        assert Complete(rest)[j] in Complete(rest);
      }
    }
  }

  /** Sorting the complete records by date gives strictly increasing dates, and exactly the
      records the merged dictionary holds in full. */
  lemma SortedCompleteFacts(merged: Dict<int, Entry>)
    requires IsDict(merged)
    ensures var s := Sort(Complete(merged), ByDate());
      && (forall i, j :: 0 <= i < j < |s| ==> s[i].date < s[j].date)
      && (forall r :: r in s <==> Get(merged, r.date) == Some(Entry(Some(r.price), Some(r.sentiment))))
  {
    var c := Complete(merged);
    var s := Sort(c, ByDate());
    CompleteFacts(merged);
    assert TotalPreorder(ByDate());
    SortFacts(c, ByDate());
    SortMembers(c, ByDate());
    assert Distinct(c);
    SortDistinct(c, ByDate());
    forall i, j | 0 <= i < j < |s| ensures s[i].date < s[j].date {
      assert ByDate()(s[i], s[j]);
      assert s[i] in c && s[j] in c;
    }
  }

  /** The entry after assigning a price to it. */
  function WithPrice(e: Option<Entry>, v: real): Entry {
    if e.Some? then e.value.(price := Some(v)) else Entry(Some(v), None)
  }

  /** The entry after assigning a sentiment to it. */
  function WithSentiment(e: Option<Entry>, v: real): Entry {
    if e.Some? then e.value.(sentiment := Some(v)) else Entry(None, Some(v))
  }

  /** One step of the price loop keeps the dictionary merged from the prices read so far. */
  lemma PriceStep(merged: Dict<int, Entry>, prices: seq<Aggregation>, i: nat)
    requires i < |prices| && MergedFrom(merged, prices[..i], [])
    ensures var p := prices[i];
      MergedFrom(Set(merged, p.date, WithPrice(Get(merged, p.date), p.value)), prices[..i + 1], [])
  {
    var p := prices[i];
    SetFacts(merged, p.date, WithPrice(Get(merged, p.date), p.value));
    forall d ensures LastValue(prices[..i + 1], d)
      == if p.date == d then Some(p.value) else LastValue(prices[..i], d) {
      LastValueStep(prices, i, d);
    }
  }

  /** One step of the sentiment loop keeps the dictionary merged from the sentiments read so far. */
  lemma SentimentStep(merged: Dict<int, Entry>, prices: seq<Aggregation>, sentiments: seq<Aggregation>, i: nat)
    requires i < |sentiments| && MergedFrom(merged, prices, sentiments[..i])
    ensures var s := sentiments[i];
      MergedFrom(Set(merged, s.date, WithSentiment(Get(merged, s.date), s.value)), prices, sentiments[..i + 1])
  {
    var s := sentiments[i];
    SetFacts(merged, s.date, WithSentiment(Get(merged, s.date), s.value));
    forall d ensures LastValue(sentiments[..i + 1], d)
      == if s.date == d then Some(s.value) else LastValue(sentiments[..i], d) {
      LastValueStep(sentiments, i, d);
    }
  }

  /** get_merged_aggregations: records with the last price and the last sentiment of each time
      that has both, sorted by time. */
  method GetMergedAggregations(prices: seq<Aggregation>, sentiments: seq<Aggregation>) returns (complete: seq<Record>)
    ensures forall i, j :: 0 <= i < j < |complete| ==> complete[i].date < complete[j].date
    ensures forall r :: r in complete <==>
      LastValue(prices, r.date) == Some(r.price) && LastValue(sentiments, r.date) == Some(r.sentiment)
  {
    var merged: Dict<int, Entry> := [];
    for i := 0 to |prices|
      invariant MergedFrom(merged, prices[..i], [])
    {
      var p := prices[i];
      var e := Get(merged, p.date);
      PriceStep(merged, prices, i);
      if e.Some? {
        merged := Set(merged, p.date, e.value.(price := Some(p.value)));
      } else {
        merged := Set(merged, p.date, Entry(Some(p.value), None));
      }
    }
    assert prices[..|prices|] == prices;
    for i := 0 to |sentiments|
      invariant MergedFrom(merged, prices, sentiments[..i])
    {
      var s := sentiments[i];
      var e := Get(merged, s.date);
      SentimentStep(merged, prices, sentiments, i);
      if e.Some? {
        merged := Set(merged, s.date, e.value.(sentiment := Some(s.value)));
      } else {
        merged := Set(merged, s.date, Entry(None, Some(s.value)));
      }
    }
    assert sentiments[..|sentiments|] == sentiments;
    complete := Sort(Complete(merged), ByDate());
    SortedCompleteFacts(merged);
  }

  // ---------------------------------------------------------------------------------------
  // Trading days
  // ---------------------------------------------------------------------------------------

  /** The New York trading day (days since the epoch) of a UTC time: shifted by the six-hour
      offset, and counted as the following day from 20:00 on. */
  function TradingDay(t: int): int {
    var local := t + NYSE_UTC_OFFSET;
    var day := if (local % SECONDS_PER_DAY) / 3600 >= NYSE_TRADE_END_HOUR then local + SECONDS_PER_DAY else local;
    day / SECONDS_PER_DAY
  }

  /** Trading day d runs from 02:00 UTC of day d to 01:59:59 UTC of day d + 1. */
  lemma TradingDayBounds(t: int)
    ensures TradingDay(t) * SECONDS_PER_DAY + 7200 <= t < TradingDay(t) * SECONDS_PER_DAY + 7200 + SECONDS_PER_DAY
  {
    var local := t - 21600;
    var q := local / 86400;
    var m := local % 86400;
    assert local == q * 86400 + m && 0 <= m < 86400;
    if m / 3600 >= 20 {
      assert m >= 72000;
      assert (local + 86400) == (q + 1) * 86400 + m;
      assert TradingDay(t) == q + 1;
    } else {
      assert m < 72000;
      assert TradingDay(t) == q;
    }
  }

  /** Later times fall on the same or a later trading day. */
  lemma TradingDayMonotone(t1: int, t2: int)
    requires t1 <= t2
    ensures TradingDay(t1) <= TradingDay(t2)
  {
    TradingDayBounds(t1);
    TradingDayBounds(t2);
  }

  function Days(records: seq<Record>): (r: seq<int>)
    ensures |r| == |records|
  {
    seq(|records|, i requires 0 <= i < |records| => TradingDay(records[i].date))
  }

  function OnDay(day: int): Record -> bool {
    (r: Record) => TradingDay(r.date) == day
  }

  ghost predicate BucketsOf(result: Dict<int, seq<Record>>, aggregations: seq<Record>) {
    && IsDict(result)
    && Keys(result) == Dedup(Days(aggregations))
    && forall d :: d in Keys(result) ==> Get(result, d) == Some(Filter(aggregations, OnDay(d)))
  }

  /** get_trading_day_buckets: one entry per trading day in order of first appearance, holding
      the records of that day in order. */
  method GetTradingDayBuckets(aggregations: seq<Record>) returns (result: Dict<int, seq<Record>>)
    ensures IsDict(result)
    ensures Keys(result) == Dedup(Days(aggregations))
    ensures forall d :: d in Keys(result) ==> Get(result, d) == Some(Filter(aggregations, OnDay(d)))
  {
    result := [];
    for i := 0 to |aggregations|
      invariant BucketsOf(result, aggregations[..i])
    {
      var a := aggregations[i];
      var day := TradingDay(a.date);
      var items := Get(result, day).GetOr([]);
      BucketsStep(result, aggregations, i);
      result := Set(result, day, items + [a]);
    }
    assert aggregations[..|aggregations|] == aggregations;
  }

  lemma DaysSnoc(prefix: seq<Record>, a: Record)
    ensures Days(prefix + [a]) == Days(prefix) + [TradingDay(a.date)]
    ensures Dedup(Days(prefix + [a])) ==
      var d := Dedup(Days(prefix)); if TradingDay(a.date) in d then d else d + [TradingDay(a.date)]
  {
    assert Days(prefix + [a]) == Days(prefix) + [TradingDay(a.date)];
    assert Days(prefix + [a])[..|prefix|] == Days(prefix);
  }

  /** A day none of the records falls on has an empty bucket. */
  lemma FilterNewDay(prefix: seq<Record>, day: int)
    requires day !in Days(prefix)
    ensures Filter(prefix, OnDay(day)) == []
  {
    forall i | 0 <= i < |prefix| ensures !OnDay(day)(prefix[i]) {
      assert Days(prefix)[i] == TradingDay(prefix[i].date);
    }
    FilterNoneKept(prefix, OnDay(day));
  }

  lemma BucketsStep(result: Dict<int, seq<Record>>, aggregations: seq<Record>, i: nat)
    requires i < |aggregations| && BucketsOf(result, aggregations[..i])
    ensures var a := aggregations[i];
      var day := TradingDay(a.date);
      BucketsOf(Set(result, day, Get(result, day).GetOr([]) + [a]), aggregations[..i + 1])
  {
    var a := aggregations[i];
    var prefix := aggregations[..i];
    assert aggregations[..i + 1] == prefix + [a];
    BucketsAppend(result, prefix, a);
  }

  lemma BucketsAppend(result: Dict<int, seq<Record>>, prefix: seq<Record>, a: Record)
    requires BucketsOf(result, prefix)
    ensures var day := TradingDay(a.date);
      BucketsOf(Set(result, day, Get(result, day).GetOr([]) + [a]), prefix + [a])
  {
    var day := TradingDay(a.date);
    DaysSnoc(prefix, a);
    DedupFacts(Days(prefix));
    var items := Get(result, day).GetOr([]);
    var r' := Set(result, day, items + [a]);
    SetFacts(result, day, items + [a]);
    assert Keys(r') == Dedup(Days(prefix + [a]));
    BucketsAppendGet(result, prefix, a);
  }

  lemma BucketsAppendGet(result: Dict<int, seq<Record>>, prefix: seq<Record>, a: Record)
    requires BucketsOf(result, prefix)
    ensures var day := TradingDay(a.date);
      var r' := Set(result, day, Get(result, day).GetOr([]) + [a]);
      forall d :: d in Keys(r') ==> Get(r', d) == Some(Filter(prefix + [a], OnDay(d)))
  {
    var day := TradingDay(a.date);
    var items := Get(result, day).GetOr([]);
    var r' := Set(result, day, items + [a]);
    SetFacts(result, day, items + [a]);
    if day !in Keys(result) {
      DedupFacts(Days(prefix));
      FilterNewDay(prefix, day);
    }
    forall d | d in Keys(r') ensures Get(r', d) == Some(Filter(prefix + [a], OnDay(d))) {
      FilterAppend(prefix, a, OnDay(d));
      if d == day {
        assert items == Filter(prefix, OnDay(day));
        assert Get(r', d) == Some(items + [a]);
        assert OnDay(day)(a);
        assert Filter(prefix + [a], OnDay(d)) == Filter(prefix, OnDay(day)) + [a];
      } else {
        assert d in Keys(result);
        assert Get(r', d) == Get(result, d);
        assert !OnDay(d)(a);
        assert Get(result, d) == Some(Filter(prefix, OnDay(d)));
        assert Filter(prefix + [a], OnDay(d)) == Filter(prefix, OnDay(d));
      }
    }
  }

  /** Every trading-day bucket holds at least one record. */
  lemma DayBucketNonEmpty(aggregations: seq<Record>, day: int)
    requires day in Days(aggregations)
    ensures Filter(aggregations, OnDay(day)) != []
  {
    var j :| 0 <= j < |aggregations| && Days(aggregations)[j] == day;
    assert aggregations[j] in Filter(aggregations, OnDay(day));
  }

  /** De-duplicating a non-decreasing sequence leaves it strictly increasing. */
  lemma {:induction false} DedupIncreasing(s: seq<int>)
    requires forall i, j :: 0 <= i < j < |s| ==> s[i] <= s[j]
    ensures forall i, j :: 0 <= i < j < |Dedup(s)| ==> Dedup(s)[i] < Dedup(s)[j]
  {
    if s != [] {
      var init := s[..|s| - 1];
      DedupIncreasing(init);
      DedupFacts(init);
      var d := Dedup(init);
      var last := s[|s| - 1];
      assert Dedup(s) == if last in d then d else d + [last];
      forall x | x in d ensures x <= last {
        var k :| 0 <= k < |init| && init[k] == x;
        assert s[k] == x;
      }
      if last !in d {
        forall i, j | 0 <= i < j < |Dedup(s)| ensures Dedup(s)[i] < Dedup(s)[j] {
          if j == |d| {
            assert Dedup(s)[i] == d[i] && d[i] in d;
          } else {
            assert Dedup(s)[i] == d[i] && Dedup(s)[j] == d[j];
          }
        }
      }
    }
  }

  /** For records in time order the trading days come out in strictly increasing order. */
  lemma BucketDaysIncreasing(aggregations: seq<Record>)
    requires forall i, j :: 0 <= i < j < |aggregations| ==> aggregations[i].date < aggregations[j].date
    ensures forall i, j :: 0 <= i < j < |Dedup(Days(aggregations))| ==> Dedup(Days(aggregations))[i] < Dedup(Days(aggregations))[j]
  {
    var days := Days(aggregations);
    forall i, j | 0 <= i < j < |days| ensures days[i] <= days[j] {
      TradingDayMonotone(aggregations[i].date, aggregations[j].date);
    }
    DedupIncreasing(days);
  }

  // ---------------------------------------------------------------------------------------
  // Predictions
  // ---------------------------------------------------------------------------------------

  datatype Prediction = Prediction(day: int, change: real, price: real, predictedPrice: real)

  /** One percent up above a sentiment change of 0.05, one percent down below -0.05. */
  function PredictedPrice(price: real, diff: real): real {
    if diff > 0.05 then price * 1.01
    else if diff < -0.05 then price * 0.99
    else price
  }

  /** The prediction differs from the price exactly when the price is non-zero and the change
      exceeds the threshold; for a positive price it moves in the direction of the change. */
  lemma PredictedPriceFacts(price: real, diff: real)
    ensures PredictedPrice(price, diff) != price <==> price != 0.0 && (diff > 0.05 || diff < -0.05)
    ensures price > 0.0 ==> (PredictedPrice(price, diff) > price <==> diff > 0.05)
    ensures price > 0.0 ==> (PredictedPrice(price, diff) < price <==> diff < -0.05)
  {
    assert price * 1.01 - price == price * 0.01;
    assert price * 0.99 - price == -(price * 0.01);
  }

  function Prices(items: seq<Record>): (r: seq<real>)
    ensures |r| == |items|
  {
    seq(|items|, i requires 0 <= i < |items| => items[i].price)
  }

  function Sentiments(items: seq<Record>): (r: seq<real>)
    ensures |r| == |items|
  {
    seq(|items|, i requires 0 <= i < |items| => items[i].sentiment)
  }

  predicate NonEmptyBuckets(tradingDays: Dict<int, seq<Record>>) {
    forall k :: 0 <= k < |tradingDays| ==> tradingDays[k].1 != []
  }

  /** The mean sentiment of each trading day. */
  function DayMeans(tradingDays: Dict<int, seq<Record>>): (r: seq<real>)
    requires NonEmptyBuckets(tradingDays)
    ensures |r| == |tradingDays|
  {
    seq(|tradingDays|, k requires 0 <= k < |tradingDays| => CustomMath.Mean(Sentiments(tradingDays[k].1)).value)
  }

  /** The window of earlier day means before day k: most recent first, at most three. */
  function Window(means: seq<real>, k: nat): seq<real>
    requires k <= |means|
  {
    Take(Reverse(means[..k]), ANALYSIS_DAYS)
  }

  /** The window holds the means of the min(3, k) days before day k, the latest first. */
  lemma WindowFacts(means: seq<real>, k: nat)
    requires k <= |means|
    ensures |Window(means, k)| == if k < ANALYSIS_DAYS then k else ANALYSIS_DAYS
    ensures forall i :: 0 <= i < |Window(means, k)| ==> Window(means, k)[i] == means[k - 1 - i]
  {
    ReverseIndex(means[..k]);
  }

  lemma WindowStep(means: seq<real>, k: nat)
    requires k < |means|
    ensures Window(means, k + 1) == Take([means[k]] + Window(means, k), ANALYSIS_DAYS)
  {
    assert means[..k + 1][..k] == means[..k];
    var r := Reverse(means[..k]);
    assert Reverse(means[..k + 1]) == [means[k]] + r;
    if |r| >= ANALYSIS_DAYS {
      assert ([means[k]] + r[..ANALYSIS_DAYS])[..ANALYSIS_DAYS] == ([means[k]] + r)[..ANALYSIS_DAYS];
    }
  }

  /** The prediction for trading day k >= 1. */
  function PredictionFor(tradingDays: Dict<int, seq<Record>>, k: nat): Prediction
    requires NonEmptyBuckets(tradingDays) && 1 <= k < |tradingDays|
  {
    var means := DayMeans(tradingDays);
    var window := Window(means, k);
    var change := means[k] - CustomMath.Mean(window).value;
    var price := CustomMath.Mean(Prices(tradingDays[k].1)).value;
    Prediction(tradingDays[k].0, change, price, PredictedPrice(price, change))
  }

  /** One prediction per trading day after the first. */
  function Predictions(tradingDays: Dict<int, seq<Record>>): (r: seq<Prediction>)
    requires NonEmptyBuckets(tradingDays)
    ensures |r| == if tradingDays == [] then 0 else |tradingDays| - 1
  {
    if tradingDays == [] then []
    else seq(|tradingDays| - 1, i requires 0 <= i < |tradingDays| - 1 => PredictionFor(tradingDays, i + 1))
  }

  /** get_predictions; trading-day buckets are never empty, as get_trading_day_buckets creates a
      bucket only with its first record. */
  method GetPredictions(tradingDays: Dict<int, seq<Record>>) returns (predictions: seq<Prediction>)
    requires NonEmptyBuckets(tradingDays)
    ensures predictions == Predictions(tradingDays)
  {
    ghost var means := DayMeans(tradingDays);
    var prevDayMeans: seq<real> := [];
    predictions := [];
    for i := 0 to |tradingDays|
      invariant prevDayMeans == Window(means, i)
      invariant predictions == PredictionsUpTo(tradingDays, if i == 0 then 0 else i - 1)
    {
      var day := tradingDays[i].0;
      var tradingDay := tradingDays[i].1;
      var prices := Prices(tradingDay);
      var sentiments := Sentiments(tradingDay);
      var meanDay := CustomMath.Mean(sentiments).value;
      DayStep(tradingDays, i, prevDayMeans);
      if prevDayMeans == [] {
        prevDayMeans := [meanDay];
        continue;
      }
      var meanPrevDays := CustomMath.Mean(prevDayMeans).value;
      prevDayMeans := [meanDay] + prevDayMeans;
      prevDayMeans := Take(prevDayMeans, ANALYSIS_DAYS);
      var sentimentDiff := meanDay - meanPrevDays;
      var pricesMean := CustomMath.Mean(prices).value;
      var predictedPrice := PredictedPrice(pricesMean, sentimentDiff);
      predictions := predictions + [Prediction(day, sentimentDiff, pricesMean, predictedPrice)];
    }
    if tradingDays != [] {
      PredictionsUpToAll(tradingDays);
    }
  }

  /** What one day of get_predictions does to the window and to the predictions so far. */
  lemma DayStep(tradingDays: Dict<int, seq<Record>>, i: nat, window: seq<real>)
    requires NonEmptyBuckets(tradingDays) && i < |tradingDays|
    requires window == Window(DayMeans(tradingDays), i)
    ensures var meanDay := CustomMath.Mean(Sentiments(tradingDays[i].1)).value;
      && (window == [] <==> i == 0)
      && Window(DayMeans(tradingDays), i + 1) == Take([meanDay] + window, ANALYSIS_DAYS)
      && (i > 0 ==>
        var change := meanDay - CustomMath.Mean(window).value;
        var price := CustomMath.Mean(Prices(tradingDays[i].1)).value;
        PredictionsUpTo(tradingDays, i) == PredictionsUpTo(tradingDays, i - 1) + [Prediction(tradingDays[i].0, change, price, PredictedPrice(price, change))])
  {
    var means := DayMeans(tradingDays);
    WindowStep(means, i);
    WindowFacts(means, i);
    if i > 0 {
      PredictionOf(tradingDays, i, window);
      PredictionsUpToSnoc(tradingDays, i - 1);
    }
  }

  /** The predictions for days 1 to n. */
  function PredictionsUpTo(tradingDays: Dict<int, seq<Record>>, n: nat): (r: seq<Prediction>)
    requires NonEmptyBuckets(tradingDays) && (n == 0 || n < |tradingDays|)
    ensures |r| == n
  {
    seq(n, j requires 0 <= j < n => PredictionFor(tradingDays, j + 1))
  }

  lemma PredictionsUpToAll(tradingDays: Dict<int, seq<Record>>)
    requires NonEmptyBuckets(tradingDays) && tradingDays != []
    ensures Predictions(tradingDays) == PredictionsUpTo(tradingDays, |tradingDays| - 1)
  {
  }

  lemma PredictionsUpToSnoc(tradingDays: Dict<int, seq<Record>>, n: nat)
    requires NonEmptyBuckets(tradingDays) && n + 1 < |tradingDays|
    ensures PredictionsUpTo(tradingDays, n + 1) == PredictionsUpTo(tradingDays, n) + [PredictionFor(tradingDays, n + 1)]
  {
  }

  /** The prediction for day k from the window of the days before it. */
  lemma PredictionOf(tradingDays: Dict<int, seq<Record>>, k: nat, window: seq<real>)
    requires NonEmptyBuckets(tradingDays) && 1 <= k < |tradingDays|
    requires window == Window(DayMeans(tradingDays), k)
    ensures var change := CustomMath.Mean(Sentiments(tradingDays[k].1)).value - CustomMath.Mean(window).value;
      var price := CustomMath.Mean(Prices(tradingDays[k].1)).value;
      PredictionFor(tradingDays, k) == Prediction(tradingDays[k].0, change, price, PredictedPrice(price, change))
  {
  }

  /** Each prediction compares the day's mean sentiment with the mean of the up to three
      preceding day means, and applies PredictedPrice to the day's mean price. */
  lemma PredictionFacts(tradingDays: Dict<int, seq<Record>>, k: nat)
    requires NonEmptyBuckets(tradingDays) && 1 <= k < |tradingDays|
    ensures var p := PredictionFor(tradingDays, k);
      var means := DayMeans(tradingDays);
      var w := if k < ANALYSIS_DAYS then k else ANALYSIS_DAYS;
      && p.day == tradingDays[k].0
      && p.change == means[k] - CustomMath.Mean(means[k - w..k]).value
      && p.price == CustomMath.Mean(Prices(tradingDays[k].1)).value
      && p.predictedPrice == PredictedPrice(p.price, p.change)
  {
    var means := DayMeans(tradingDays);
    var w := if k < ANALYSIS_DAYS then k else ANALYSIS_DAYS;
    WindowFacts(means, k);
    MeanOfReversed(means[k - w..k], Window(means, k));
  }

  /** A day whose records all have positive prices has a positive mean price. */
  lemma PositiveMeanPrice(items: seq<Record>)
    requires items != [] && forall r :: r in items ==> r.price > 0.0
    ensures CustomMath.Mean(Prices(items)).value > 0.0
  {
    var prices := Prices(items);
    forall i | 0 <= i < |prices| ensures prices[i] > 0.0 {
      assert items[i] in items;
    }
    PositiveSum(prices);
  }

  lemma {:induction false} PositiveSum(s: seq<real>)
    requires |s| > 0 && forall i :: 0 <= i < |s| ==> s[i] > 0.0
    ensures CustomMath.Sum(s) > 0.0
  {
    if |s| > 1 {
      PositiveSum(s[..|s| - 1]);
    }
  }

  /** A sequence and its reverse have the same mean. */
  lemma MeanOfReversed(s: seq<real>, r: seq<real>)
    requires |r| == |s| && forall i :: 0 <= i < |r| ==> r[i] == s[|s| - 1 - i]
    ensures CustomMath.Mean(r) == CustomMath.Mean(s)
  {
    SumReversed(s, r);
  }

  lemma {:induction false} SumReversed(s: seq<real>, r: seq<real>)
    requires |r| == |s| && forall i :: 0 <= i < |r| ==> r[i] == s[|s| - 1 - i]
    ensures CustomMath.Sum(r) == CustomMath.Sum(s)
    decreases |s|
  {
    if |s| > 0 {
      // r = [last of s] + reverse of s's init; peel the first of s instead.
      SumFront(r);
      SumReversed(s[1..], r[..|r| - 1]);
      SumFront(s);
    }
  }

  /** The sum taken from the front. */
  lemma {:induction false} SumFront(s: seq<real>)
    requires |s| > 0
    ensures CustomMath.Sum(s) == s[0] + CustomMath.Sum(s[1..])
    decreases |s|
  {
    if |s| > 1 {
      SumFront(s[..|s| - 1]);
      assert s[..|s| - 1][1..] == s[1..][..|s| - 2];
    }
  }

  /** Three trading days with mean sentiments 0.2, 0.5, 0.1 and mean prices 100, 102, 101. */
  function ExampleDays(): Dict<int, seq<Record>> {
    [(1, [Record(100000, 100.0, 0.2)]), (2, [Record(200000, 102.0, 0.5)]), (3, [Record(300000, 101.0, 0.1)])]
  }

  lemma SingletonMean(x: real)
    ensures CustomMath.Mean([x]) == Success(x)
  {
    assert [x][..|[x]| - 1] == [];
    assert CustomMath.Sum([x]) == x;
  }

  lemma ExampleDayMeans()
    ensures NonEmptyBuckets(ExampleDays())
    ensures DayMeans(ExampleDays()) == [0.2, 0.5, 0.1]
  {
    var days := ExampleDays();
    assert Sentiments(days[0].1) == [0.2];
    assert Sentiments(days[1].1) == [0.5];
    assert Sentiments(days[2].1) == [0.1];
    SingletonMean(0.2);
    SingletonMean(0.5);
    SingletonMean(0.1);
  }

  /** The worked example: no prediction for the first day; on day 2 the change 0.5 - 0.2 = 0.3
      lifts 102 to 103.02; on day 3 the change 0.1 - 0.35 = -0.25 lowers 101 to 99.99. */
  lemma ThreeDayExample()
    ensures NonEmptyBuckets(ExampleDays())
    ensures Predictions(ExampleDays()) == [Prediction(2, 0.3, 102.0, 103.02), Prediction(3, -0.25, 101.0, 99.99)]
  {
    var days := ExampleDays();
    ExampleDayMeans();
    var means := DayMeans(days);
    assert Prices(days[1].1) == [102.0];
    assert Prices(days[2].1) == [101.0];
    SingletonMean(102.0);
    SingletonMean(101.0);
    SingletonMean(0.2);
    assert Window(means, 1) == [0.2] by { WindowFacts(means, 1); }
    assert Window(means, 2) == [0.5, 0.2] by { WindowFacts(means, 2); }
    assert CustomMath.Sum([0.5, 0.2]) == 0.7 by {
      assert [0.5, 0.2][..1] == [0.5];
      assert CustomMath.Sum([0.5]) == 0.5 by { SingletonMean(0.5); }
    }
    assert PredictionFor(days, 1) == Prediction(2, 0.3, 102.0, 103.02);
    assert PredictionFor(days, 2) == Prediction(3, -0.25, 101.0, 99.99);
  }

  /** The predictions main keeps: those whose predicted price differs from the price. */
  function ChangedPredictions(predictions: seq<Prediction>): seq<Prediction> {
    Filter(predictions, (p: Prediction) => p.price != p.predictedPrice)
  }

  /** A prediction is kept exactly when its price is non-zero and its sentiment change exceeds
      the threshold. */
  lemma ChangedPredictionsFacts(tradingDays: Dict<int, seq<Record>>)
    requires NonEmptyBuckets(tradingDays)
    ensures forall p :: p in ChangedPredictions(Predictions(tradingDays)) <==>
      p in Predictions(tradingDays) && p.price != 0.0 && (p.change > 0.05 || p.change < -0.05)
  {
    var ps := Predictions(tradingDays);
    forall p | p in ps ensures p.predictedPrice == PredictedPrice(p.price, p.change) {
      var i :| 0 <= i < |ps| && ps[i] == p;
    }
    forall p | p in ps ensures p.price != p.predictedPrice <==> p.price != 0.0 && (p.change > 0.05 || p.change < -0.05) {
      PredictedPriceFacts(p.price, p.change);
    }
  }

  // ---------------------------------------------------------------------------------------
  // Saving predictions
  // ---------------------------------------------------------------------------------------

  /** The document for hour:minute of a prediction's day, tagged with the direction of the
      predicted change. */
  function PredictionDocument(p: Prediction, hour: int, minute: int): Dict<string, Value> {
    var date := VTime(p.day * SECONDS_PER_DAY + hour * 3600 + minute * 60);
    var document := [("date", date)];
    var diff := p.predictedPrice - p.price;
    if diff > 0.0 then Set(document, "predicted_price_pos", VReal(p.predictedPrice))
    else if diff < 0.0 then Set(document, "predicted_price_neg", VReal(p.predictedPrice))
    else document
  }

  /** Slot j of a day is the two-minute mark j / 30 hours and 2 * (j % 30) minutes past midnight. */
  function SlotDocument(p: Prediction, j: nat): Dict<string, Value> {
    PredictionDocument(p, j / 30, 2 * (j % 30))
  }

  /** The documents of slot j sit 120 * j seconds into the prediction's day, carry the predicted
      price under the key naming its direction, and have no other field. */
  lemma SlotDocumentFacts(p: Prediction, j: nat)
    requires j < SLOTS_PER_DAY
    ensures var doc := SlotDocument(p, j);
      && IsDict(doc)
      && Get(doc, "date") == Some(VTime(p.day * SECONDS_PER_DAY + 120 * j))
      && 0 <= 120 * j < SECONDS_PER_DAY
      && (Get(doc, "predicted_price_pos") == if p.predictedPrice > p.price then Some(VReal(p.predictedPrice)) else None)
      && (Get(doc, "predicted_price_neg") == if p.predictedPrice < p.price then Some(VReal(p.predictedPrice)) else None)
      && (forall k :: k in Keys(doc) ==> k in ["date", "predicted_price_pos", "predicted_price_neg"])
  {
    assert (j / 30) * 3600 + 2 * (j % 30) * 60 == 120 * j;
    var document := [("date", VTime(p.day * SECONDS_PER_DAY + 120 * j))];
    assert Keys(document) == ["date"];
    SetFacts(document, "predicted_price_pos", VReal(p.predictedPrice));
    SetFacts(document, "predicted_price_neg", VReal(p.predictedPrice));
  }

  /** get_save_action. */
  function GetSaveAction(document: Dict<string, Value>): Dict<string, Value> {
    IndexAction(INDEX_NAME, DOCUMENT_TYPE, document)
  }

  lemma SlotIndex(k: nat, hour: nat, minute: nat)
    requires hour < 24 && minute < 60 && minute % 2 == 0
    ensures (SLOTS_PER_DAY * k + 30 * hour + minute / 2) / SLOTS_PER_DAY == k
    ensures (SLOTS_PER_DAY * k + 30 * hour + minute / 2) % SLOTS_PER_DAY == 30 * hour + minute / 2
    ensures (30 * hour + minute / 2) / 30 == hour && 2 * ((30 * hour + minute / 2) % 30) == minute
  {
  }

  /** save_predictions without the bulk request: the index actions of 720 documents per
      prediction, every two minutes of its day from midnight. */
  method SavePredictions(predictions: seq<Prediction>) returns (actions: seq<Dict<string, Value>>)
    ensures |actions| == SLOTS_PER_DAY * |predictions|
    ensures forall n :: 0 <= n < |actions| ==>
      actions[n] == GetSaveAction(SlotDocument(predictions[n / SLOTS_PER_DAY], n % SLOTS_PER_DAY))
  {
    var documents: seq<Dict<string, Value>> := [];
    for k := 0 to |predictions|
      invariant |documents| == SLOTS_PER_DAY * k
      invariant forall n :: 0 <= n < |documents| ==>
        documents[n] == SlotDocument(predictions[n / SLOTS_PER_DAY], n % SLOTS_PER_DAY)
    {
      var prediction := predictions[k];
      for hour := 0 to 24
        invariant |documents| == SLOTS_PER_DAY * k + 30 * hour
        invariant forall n :: 0 <= n < |documents| ==>
          documents[n] == SlotDocument(predictions[n / SLOTS_PER_DAY], n % SLOTS_PER_DAY)
      {
        var minute := 0;
        while minute < 60
          invariant 0 <= minute <= 60 && minute % 2 == 0
          invariant |documents| == SLOTS_PER_DAY * k + 30 * hour + minute / 2
          invariant forall n :: 0 <= n < |documents| ==>
            documents[n] == SlotDocument(predictions[n / SLOTS_PER_DAY], n % SLOTS_PER_DAY)
        {
          var date := VTime(prediction.day * SECONDS_PER_DAY + hour * 3600 + minute * 60);
          var document := [("date", date)];
          var diff := prediction.predictedPrice - prediction.price;
          if diff > 0.0 {
            document := Set(document, "predicted_price_pos", VReal(prediction.predictedPrice));
          } else if diff < 0.0 {
            document := Set(document, "predicted_price_neg", VReal(prediction.predictedPrice));
          }
          SlotIndex(k, hour, minute);
          documents := documents + [document];
          minute := minute + 2;
        }
      }
    }
    actions := seq(|documents|, n requires 0 <= n < |documents| => GetSaveAction(documents[n]));
  }

  // ---------------------------------------------------------------------------------------
  // The whole run
  // ---------------------------------------------------------------------------------------

  lemma {:induction false} FilterKeepsIncreasingDays(s: seq<Prediction>, p: Prediction -> bool)
    requires forall i, j :: 0 <= i < j < |s| ==> s[i].day < s[j].day
    ensures forall i, j :: 0 <= i < j < |Filter(s, p)| ==> Filter(s, p)[i].day < Filter(s, p)[j].day
  {
    if s != [] {
      FilterKeepsIncreasingDays(s[1..], p);
      var rest := Filter(s[1..], p);
      forall j | 0 <= j < |rest| ensures s[0].day < rest[j].day {
        assert rest[j] in rest;
        var k :| 0 <= k < |s[1..]| && s[1..][k] == rest[j];
        assert s[k + 1] == rest[j];
      }
    }
  }

  /** main without the database: from the two histograms to the predictions kept and their save
      actions. merged and tradingDays are the intermediate results: the records of the times
      that have both a price and a sentiment, in time order, and their trading-day buckets.
      The kept predictions are exactly the changed ones of those days, so every one changes the
      price and there is at most one per trading day, in day order; each gets its 720 slot
      documents. */
  method PredictAndSave(priceBuckets: seq<Bucket>, sentimentBuckets: seq<Bucket>)
    returns (predictions: seq<Prediction>, actions: seq<Dict<string, Value>>,
             ghost merged: seq<Record>, ghost tradingDays: Dict<int, seq<Record>>)
    ensures forall i, j :: 0 <= i < j < |merged| ==> merged[i].date < merged[j].date
    ensures forall r :: r in merged <==>
      LastValue(Aggregations(priceBuckets), r.date) == Some(r.price)
      && LastValue(Aggregations(sentimentBuckets), r.date) == Some(r.sentiment)
    ensures BucketsOf(tradingDays, merged)
    ensures NonEmptyBuckets(tradingDays)
    ensures predictions == ChangedPredictions(Predictions(tradingDays))
    ensures forall p :: p in predictions ==> p.predictedPrice == PredictedPrice(p.price, p.change) && p.predictedPrice != p.price
    ensures forall i, j :: 0 <= i < j < |predictions| ==> predictions[i].day < predictions[j].day
    ensures |actions| == SLOTS_PER_DAY * |predictions|
    ensures forall n :: 0 <= n < |actions| ==>
      actions[n] == GetSaveAction(SlotDocument(predictions[n / SLOTS_PER_DAY], n % SLOTS_PER_DAY))
  {
    var prices := GetAggregatedValues(priceBuckets);
    var sentiments := GetAggregatedValues(sentimentBuckets);
    var records := GetMergedAggregations(prices, sentiments);
    var days := GetTradingDayBuckets(records);
    BucketsNonEmpty(days, records);
    var all := GetPredictions(days);
    BucketDaysIncreasing(records);
    PredictionsInDayOrder(days);
    predictions := ChangedPredictions(all);
    FilterKeepsIncreasingDays(all, (p: Prediction) => p.price != p.predictedPrice);
    actions := SavePredictions(predictions);
    merged := records;
    tradingDays := days;
  }

  /** Buckets built from records are never empty. */
  lemma BucketsNonEmpty(tradingDays: Dict<int, seq<Record>>, records: seq<Record>)
    requires IsDict(tradingDays) && Keys(tradingDays) == Dedup(Days(records))
    requires forall d :: d in Keys(tradingDays) ==> Get(tradingDays, d) == Some(Filter(records, OnDay(d)))
    ensures NonEmptyBuckets(tradingDays)
  {
    DedupFacts(Days(records));
    forall k | 0 <= k < |tradingDays| ensures tradingDays[k].1 != [] {
      var d := tradingDays[k].0;
      assert Keys(tradingDays)[k] == d;
      DayBucketNonEmpty(records, d);
      GetAt(tradingDays, k);
    }
  }

  /** With trading days in increasing order, predictions come in increasing day order, and each
      one's predicted price is PredictedPrice of its price and change. */
  lemma PredictionsInDayOrder(tradingDays: Dict<int, seq<Record>>)
    requires NonEmptyBuckets(tradingDays)
    requires forall i, j :: 0 <= i < j < |Keys(tradingDays)| ==> Keys(tradingDays)[i] < Keys(tradingDays)[j]
    ensures forall i, j :: 0 <= i < j < |Predictions(tradingDays)| ==> Predictions(tradingDays)[i].day < Predictions(tradingDays)[j].day
    ensures forall p :: p in Predictions(tradingDays) ==> p.predictedPrice == PredictedPrice(p.price, p.change)
  {
    var all := Predictions(tradingDays);
    forall i, j | 0 <= i < j < |all| ensures all[i].day < all[j].day {
      assert all[i].day == Keys(tradingDays)[i + 1] && all[j].day == Keys(tradingDays)[j + 1];
    }
    forall p | p in all ensures p.predictedPrice == PredictedPrice(p.price, p.change) {
      var i :| 0 <= i < |all| && all[i] == p;
    }
  }
}

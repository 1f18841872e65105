# PSAIS core in Dafny

PSAIS predicts stock prices from the sentiment of tweets. Its pipeline has these stages:

- The corpus converters turn labelled CSV tweet collections into one-tweet-per-line training corpora.
- `data_cleaner.go` normalises such a corpus line by line.
- A naive Bayes classifier is trained on the corpora.
- The sentiment analyzer drops spam tweets, strips URLs and stores the classifier's polarity on each tweet.
- The aggregator turns date-histogram buckets of classified tweets into a positive share per interval.
- The price predictor merges that share with average stock prices, groups the records into New York trading days and predicts the next price from the change in mean sentiment.
- The Elasticsearch dumper exports documents to CSV.

This project models the data-processing logic of those stages and proves what each stage promises. One Dafny module corresponds to each source file:

| module | source file |
|---|---|
| `NaiveBayes` | `sentiment-analyzer/classifiers/naive_bayes/naive_bayes.py` |
| `PricePredictor` | `price-predictor/price_predictor.py` |
| `CustomMath` | `price-predictor/custom_math.py` |
| `Aggregator` | `sentiment-analyzer/aggregator.py` |
| `SentimentAnalyzer` | `sentiment-analyzer/sentiment_analyzer.py` |
| `EsToCsv` | `es-dumper/es_to_csv.py` |
| `PsaisConverter` | `converters/PSAIS-HHN-Trainingsdata/converter.py` |
| `Sentiment140Converter` | `converters/Sentiment140-Trainingsdata/converter.py` |
| `TweetFilter` | `filter_tweets`, `decode_sentence` and the `create*Corpus` writers, which are identical in both converters |
| `DataCleaner` | `converters/data_cleaner.go` |

Shared modules model the library behaviour the sources rely on:

- `Wrappers`: Option, Result and the exceptions the sources raise, as values.
- `Seqs`: counting, first-seen de-duplication, subsequences.
- `Text`: Python `str` and Go `strings` operations, ASCII case only.
- `Documents`: Python dicts as insertion-ordered association lists and the recursive JSON-like `Value`.
- `Sorting`: Python's stable `sorted` by a key order.
- `Utf8`: the UTF-8 codec.

Loops that update state stay loops:

- Methods with invariants, each proved equal to a specification function.
- Module-level lists and caches become classes whose methods say what they modify.
- Lemmas state the properties of those specification functions.

Elasticsearch responses are inputs:

- histogram buckets;
- scroll pages;
- hits.

Actions are returned as values instead of being sent. Generators consumed in full become a result list plus the exception that ended them, if any.

## Model

| member | source | states |
|---|---|---|
| CustomMath.Mean | Repository/code/price-predictor/custom_math.py:1-2 | the mean exists exactly for a non-empty list; an empty list is a ZeroDivisionError |
| CustomMath.MeanBetween | Repository/code/price-predictor/custom_math.py:1-2 | the mean of a non-empty list lies between any lower and upper bound of its elements |
| CustomMath.MeanOfCopies | Repository/code/price-predictor/custom_math.py:1-2 | the mean of n >= 1 copies of c is c |
| CustomMath.AtPythonIndex | Repository/code/price-predictor/custom_math.py:16 | Python indexing succeeds exactly for -len <= idx < len (negative counts from the end), and then returns an element of the list |
| CustomMath.PercentileIndexFloor | Repository/code/price-predictor/custom_math.py:13-14 | for a non-negative percentage int(count * percentage / 100) is the floor and is non-negative |
| CustomMath.PercentileAt | Repository/code/price-predictor/custom_math.py:9-16 | percentile is the element at index floor(count * percentage / 100) of the sorted copy, and an IndexError when that index is not below count |
| CustomMath.PercentileFails | Repository/code/price-predictor/custom_math.py:13-16 | percentage 100, or any non-negative percentage on an empty list, raises IndexError |
| CustomMath.PercentileMember | Repository/code/price-predictor/custom_math.py:9-16 | whatever percentile returns is an element of the input |
| CustomMath.PercentileIndexMonotone | Repository/code/price-predictor/custom_math.py:13-14 | the index does not decrease as the percentage grows |
| CustomMath.PercentileMonotone | Repository/code/price-predictor/custom_math.py:9-16 | for a fixed list the percentile is non-decreasing in the percentage, and defined wherever a larger percentage is |
| CustomMath.HalfIndex | Repository/code/price-predictor/custom_math.py:5-14 | the index for percentage 50 is count // 2 |
| CustomMath.MedianAt | Repository/code/price-predictor/custom_math.py:5-16 | the median of a non-empty list is the element at count // 2 of its sorted copy |
| CustomMath.NumberLeIsTotalPreorder | Repository/code/price-predictor/custom_math.py:10 | the order `sorted` uses on numbers is a total preorder |
| Sorting.SortFacts | Repository/code/price-predictor/custom_math.py:10 | `sorted` returns a sorted permutation of its input |
| Sorting.SortMembers | Repository/code/price-predictor/price_predictor.py:163 | sorting keeps exactly the same elements |
| Sorting.SortStable | Repository/code/es-dumper/es_to_csv.py:131 | `sorted` is stable: elements with equal keys keep their relative order |
| Sorting.SortDistinct | Repository/code/price-predictor/price_predictor.py:163 | sorting a list without repetitions introduces none |
| Sorting.TakeSorted | Repository/code/sentiment-analyzer/classifiers/naive_bayes/naive_bayes.py:107 | the first n elements of a sorted list without repetitions are sorted, without repetitions, and a prefix of it |
| PricePredictor.GetAggregatedValues | Repository/code/price-predictor/price_predictor.py:60-70 | the loop of get_aggregated_prices, and identically of get_aggregated_sentiments (lines 82-92), yields the buckets with a value, in order |
| PricePredictor.AggregationsFacts | Repository/code/price-predictor/price_predictor.py:60-70 | an aggregation is produced exactly for each bucket whose average is neither None nor 0, and no more aggregations than buckets |
| PricePredictor.LastValue | Repository/code/price-predictor/price_predictor.py:134-148 | the value kept for a date exists iff some aggregation has that date, and it is the value of one of them |
| PricePredictor.LastValueStep | Repository/code/price-predictor/price_predictor.py:134-148 | a later aggregation for the same date overwrites the earlier value |
| PricePredictor.PriceStep | Repository/code/price-predictor/price_predictor.py:134-140 | one step of the price loop keeps the merged dictionary equal to the prices read so far |
| PricePredictor.SentimentStep | Repository/code/price-predictor/price_predictor.py:142-148 | one step of the sentiment loop keeps the merged dictionary equal to all prices and the sentiments read so far |
| PricePredictor.CompleteFacts | Repository/code/price-predictor/price_predictor.py:160-162 | a record survives the filter exactly when its date holds both a price and a sentiment; dates are distinct |
| PricePredictor.SortedCompleteFacts | Repository/code/price-predictor/price_predictor.py:160-163 | sorted by date, the complete records have strictly increasing dates and are exactly the complete entries |
| PricePredictor.GetMergedAggregations | Repository/code/price-predictor/price_predictor.py:131-165 | a record exists for a date iff it occurs among both prices and sentiments, carrying the last price and last sentiment for it, in strictly increasing date order |
| PricePredictor.TradingDayBounds | Repository/code/price-predictor/price_predictor.py:226-231 | trading day d runs from 02:00 UTC of day d to just before 02:00 UTC of day d + 1, i.e. date(t - 6h) plus one day from 20:00 local time |
| PricePredictor.TradingDayMonotone | Repository/code/price-predictor/price_predictor.py:226-231 | a later time never falls on an earlier trading day |
| PricePredictor.GetTradingDayBuckets | Repository/code/price-predictor/price_predictor.py:222-236 | one bucket per trading day in order of first appearance, holding exactly the records of that day in input order |
| PricePredictor.DaysSnoc | Repository/code/price-predictor/price_predictor.py:225-234 | one more record adds its trading day, and a new key only when the day is new |
| PricePredictor.BucketsStep | Repository/code/price-predictor/price_predictor.py:233-234 | one setdefault-and-append keeps the buckets equal to those of the records read so far |
| PricePredictor.DayBucketNonEmpty | Repository/code/price-predictor/price_predictor.py:233-234 | every trading-day bucket holds at least one record |
| PricePredictor.DedupIncreasing | Repository/code/price-predictor/price_predictor.py:223-236 | the first-seen keys of a non-decreasing sequence are strictly increasing |
| PricePredictor.BucketDaysIncreasing | Repository/code/price-predictor/price_predictor.py:222-236 | for records in time order the trading days come out strictly increasing |
| PricePredictor.PredictedPriceFacts | Repository/code/price-predictor/price_predictor.py:172-178 | the prediction differs from the price iff the price is non-zero and the change is beyond ±0.05 (exactly ±0.05 keeps the price); for a positive price it rises iff diff > 0.05 and falls iff diff < -0.05 |
| PricePredictor.Prices | Repository/code/price-predictor/price_predictor.py:185 | one price per record of the day |
| PricePredictor.Sentiments | Repository/code/price-predictor/price_predictor.py:186 | one sentiment per record of the day |
| PricePredictor.DayMeans | Repository/code/price-predictor/price_predictor.py:187 | one mean sentiment per trading day |
| PricePredictor.WindowFacts | Repository/code/price-predictor/price_predictor.py:189-196 | prev_day_means before day k holds min(3, k) entries, the means of the preceding days, latest first |
| PricePredictor.WindowStep | Repository/code/price-predictor/price_predictor.py:195-196 | the window after day k is the day's mean prepended and truncated to three |
| PricePredictor.Predictions | Repository/code/price-predictor/price_predictor.py:181-208 | no prediction for the first trading day and one per later day |
| PricePredictor.GetPredictions | Repository/code/price-predictor/price_predictor.py:181-208 | the loop yields exactly Predictions: one per day after the first, in day order, each change measured against the window before its update |
| PricePredictor.DayStep | Repository/code/price-predictor/price_predictor.py:184-208 | one day of the loop: the window is empty only on the first day, is then updated by prepend-and-truncate, and on later days one prediction is appended |
| PricePredictor.PredictionsUpTo | Repository/code/price-predictor/price_predictor.py:203-208 | n predictions, for days 1 to n |
| PricePredictor.PredictionsUpToAll | Repository/code/price-predictor/price_predictor.py:181-208 | the predictions for all later days are all the predictions |
| PricePredictor.PredictionsUpToSnoc | Repository/code/price-predictor/price_predictor.py:203-208 | one more day appends its prediction |
| PricePredictor.PredictionOf | Repository/code/price-predictor/price_predictor.py:193-208 | the prediction for day k compares its mean sentiment with the mean of the window and prices the day's mean price |
| PricePredictor.PredictionFacts | Repository/code/price-predictor/price_predictor.py:193-201 | change = day mean - mean of the up to three preceding day means; price = mean price; predicted = get_predicted_price(price, change) |
| PricePredictor.PositiveMeanPrice | Repository/code/price-predictor/price_predictor.py:200 | a day whose prices are all positive has a positive mean price |
| PricePredictor.PositiveSum | Repository/code/price-predictor/custom_math.py:2 | positive numbers have a positive sum |
| PricePredictor.MeanOfReversed | Repository/code/price-predictor/price_predictor.py:193-195 | the window's latest-first order does not change its mean |
| PricePredictor.SumReversed | Repository/code/price-predictor/custom_math.py:2 | a list and its reverse have the same sum |
| PricePredictor.SumFront | Repository/code/price-predictor/custom_math.py:2 | the sum taken from the front equals the sum |
| PricePredictor.SingletonMean | Repository/code/price-predictor/custom_math.py:1-2 | the mean of one number is that number |
| PricePredictor.ExampleDayMeans | Repository/code/price-predictor/price_predictor.py:184-187 | three one-record days have their sentiments as day means |
| PricePredictor.ThreeDayExample | Repository/code/price-predictor/price_predictor.py:181-208 | worked example: day means 0.2, 0.5, 0.1 and prices 100, 102, 101 give 103.02 on day 2 (change 0.3) and 99.99 on day 3 (change -0.25) |
| PricePredictor.ChangedPredictionsFacts | Repository/code/price-predictor/price_predictor.py:277 | a prediction is passed on to saving iff its price is non-zero and its change is beyond ±0.05 |
| PricePredictor.SlotDocumentFacts | Repository/code/price-predictor/price_predictor.py:243-259 | slot j's document is dated 120 * j seconds into the prediction's day and has predicted_price_pos iff predicted > price, predicted_price_neg iff predicted < price, and no other field |
| PricePredictor.SlotIndex | Repository/code/price-predictor/price_predictor.py:243-244 | hour h and minute m of prediction k are document number 720k + 30h + m/2 |
| PricePredictor.SavePredictions | Repository/code/price-predictor/price_predictor.py:239-262 | 720 documents per prediction, at 00:00, 00:02, ..., 23:58 of its day, each wrapped in get_save_action |
| PricePredictor.FilterKeepsIncreasingDays | Repository/code/price-predictor/price_predictor.py:277 | filtering keeps predictions in strictly increasing day order |
| PricePredictor.PredictAndSave | Repository/code/price-predictor/price_predictor.py:265-282 | the merged records are exactly the times with both a last price and a last sentiment from the histograms, in time order; the trading days are their buckets; the kept predictions are exactly the changed predictions of those days (line 277), each changing the price, at most one per trading day, in day order; action n is the save action of slot n mod 720 of prediction n div 720 |
| PricePredictor.BucketsNonEmpty | Repository/code/price-predictor/price_predictor.py:222-236 | buckets built from records are never empty, so every mean in get_predictions is defined |
| PricePredictor.PredictionsInDayOrder | Repository/code/price-predictor/price_predictor.py:181-208 | with increasing trading days the predictions come in increasing day order, each priced by get_predicted_price |
| Documents.Get | Repository/code/sentiment-analyzer/aggregator.py:68 | a lookup finds a value exactly for a key of the dictionary |
| Documents.GetAt | Repository/code/price-predictor/price_predictor.py:184 | iterating items(): the k-th key looks up the k-th value |
| Documents.SetGet | Repository/code/sentiment-analyzer/aggregator.py:66 | after d[k] = v, k holds v and every other key what it held |
| Documents.SetKeys | Repository/code/sentiment-analyzer/aggregator.py:66 | d[k] = v keeps the key order and appends k only when it is new |
| Documents.DistinctSnoc | Repository/code/sentiment-analyzer/aggregator.py:66 | appending a new key keeps the keys distinct |
| Documents.SetFacts | Repository/code/sentiment-analyzer/aggregator.py:66 | assignment's lookup, key order and well-formedness together |
| Documents.UpdateGet | Repository/code/sentiment-analyzer/aggregator.py:117 | after d.update(e), e's keys hold e's values and the other keys d's |
| Documents.IntervalRoundTrip | Repository/code/sentiment-analyzer/aggregator.py:29 | the interval string "{}m" ends in "m" and reads back as the configured minutes |
| Documents.ActionFieldsGet | Repository/code/sentiment-analyzer/aggregator.py:111-115 | the action starts with exactly _op_type "index", _index and _type |
| Documents.IndexActionGet | Repository/code/sentiment-analyzer/aggregator.py:110-118 | each action field is the document's when it has that key, else the action's |
| Documents.IndexActionFacts | Repository/code/sentiment-analyzer/aggregator.py:110-118 | a save action holds every document field, plus _op_type=index, _index and _type unless the document overrides them, and nothing else |
| Aggregator.LastCount | Repository/code/sentiment-analyzer/aggregator.py:65-66 | a class key has a count iff some term bucket has that key, and the count is that of one of them |
| Aggregator.CountsIsDict | Repository/code/sentiment-analyzer/aggregator.py:61-66 | the aggregation holds each key once |
| Aggregator.CountsGet | Repository/code/sentiment-analyzer/aggregator.py:61-66 | each key holds its last doc_count, and "date" the bucket's key_as_string unless a class named "date" overwrote it |
| Aggregator.CountsFacts | Repository/code/sentiment-analyzer/aggregator.py:61-66 | well-formedness and lookup of every key of the counts together |
| Aggregator.CountsSnoc | Repository/code/sentiment-analyzer/aggregator.py:65-66 | one more term bucket is one more assignment |
| Aggregator.AggregateFailure | Repository/code/sentiment-analyzer/aggregator.py:68-69 | a bucket fails exactly when pos and neg are both counted and sum to zero, with ZeroDivisionError |
| Aggregator.WithRelationRatio | Repository/code/sentiment-analyzer/aggregator.py:68-69 | with integer pos and neg summing to non-zero, sentiment_relation = pos / (pos + neg) is added |
| Aggregator.AggregateWithRatio | Repository/code/sentiment-analyzer/aggregator.py:68-69 | with both classes counted and a non-zero sum, the aggregation is the counts plus the ratio |
| Aggregator.AggregateWithoutRatio | Repository/code/sentiment-analyzer/aggregator.py:68 | without both classes the aggregation is just the counts |
| Aggregator.AggregateSuccess | Repository/code/sentiment-analyzer/aggregator.py:61-69 | a successful aggregation holds every class's last count and "date", plus the ratio exactly when both classes are counted |
| Aggregator.RelationPresent | Repository/code/sentiment-analyzer/aggregator.py:68-69 | sentiment_relation is present iff both "pos" and "neg" were counted |
| Aggregator.RatioBounds | Repository/code/sentiment-analyzer/aggregator.py:69 | with non-negative counts and a positive sum the ratio lies in [0, 1] |
| Aggregator.RelationIgnoresOtherClasses | Repository/code/sentiment-analyzer/aggregator.py:65-69 | buckets with the same pos and neg counts agree on success and on the ratio, whatever other classes such as neutral they hold |
| Aggregator.AggregateAllFacts | Repository/code/sentiment-analyzer/aggregator.py:60-71 | exactly one aggregation per bucket, in bucket order, none skipped, when no bucket fails |
| Aggregator.AggregateAllStep | Repository/code/sentiment-analyzer/aggregator.py:60-71 | one more bucket appends its aggregation or ends the run with its failure |
| Aggregator.AggregateAllFailedPrefix | Repository/code/sentiment-analyzer/aggregator.py:60-71 | once a bucket fails, the whole run fails with that error |
| Aggregator.GetAggregatedDocuments | Repository/code/sentiment-analyzer/aggregator.py:49-71 | the loop computes exactly AggregateAll of the buckets |
| Aggregator.BucketStep | Repository/code/sentiment-analyzer/aggregator.py:60-71 | one iteration of the loop: a failure ends the run, a success appends |
| Aggregator.WithRelationCases | Repository/code/sentiment-analyzer/aggregator.py:68-69 | the ratio step by the tests the loop makes: no ratio, a non-numeric count, a zero sum, or the ratio |
| Aggregator.SaveActionFacts | Repository/code/sentiment-analyzer/aggregator.py:110-118 | the action indexes into "sentiments" as type "sentiment" unless the document overrides those keys, and carries every document field |
| Aggregator.SaveActions | Repository/code/sentiment-analyzer/aggregator.py:121-123 | one save action per aggregation, in order |
| EsToCsv.ProjectSome | Repository/code/es-dumper/es_to_csv.py:63-68 | a document is built iff every field name is in the source |
| EsToCsv.ProjectKeys | Repository/code/es-dumper/es_to_csv.py:64-65 | the document's keys are the field names, in order, each once |
| EsToCsv.ProjectGet | Repository/code/es-dumper/es_to_csv.py:64-65 | each field holds the source's value |
| EsToCsv.ProjectFacts | Repository/code/es-dumper/es_to_csv.py:60-68 | each emitted document has exactly the field names as keys, in order, with the values from _source |
| EsToCsv.ProjectMissing | Repository/code/es-dumper/es_to_csv.py:63-68 | a hit missing any requested field yields no document |
| EsToCsv.HitDocumentId | Repository/code/es-dumper/es_to_csv.py:61 | a requested id field is the hit's _id, overriding any _source id |
| EsToCsv.BuildDocument | Repository/code/es-dumper/es_to_csv.py:60-68 | the per-hit loop builds exactly HitDocument, or reports the KeyError |
| EsToCsv.DumpPage | Repository/code/es-dumper/es_to_csv.py:59-76 | the hit loop of one page yields exactly what DumpHits defines and whether max_documents stopped it |
| EsToCsv.DumpPagesHead | Repository/code/es-dumper/es_to_csv.py:38-57 | a page with total 0 raises ZeroDivisionError; an unlogged date raises KeyError; otherwise its hits' documents come first, and the loop ends after an empty or stopping page |
| EsToCsv.GetDocuments | Repository/code/es-dumper/es_to_csv.py:13-76 | get_documents, drained, is exactly Dumped of the initial total and the pages |
| EsToCsv.Scroll | Repository/code/es-dumper/es_to_csv.py:38-76 | the scroll loop yields exactly DumpPages of the pages, and the exception that ended it |
| EsToCsv.ScrollStep | Repository/code/es-dumper/es_to_csv.py:38-76 | one page that neither fails nor ends the loop keeps it on track |
| EsToCsv.DumpHitsFacts | Repository/code/es-dumper/es_to_csv.py:59-76 | a page yields its hits' documents in order, skipping incomplete hits, which do not count towards the limit; it stops right after the document that reaches max_documents |
| EsToCsv.DumpPagesPrefix | Repository/code/es-dumper/es_to_csv.py:38-76 | the documents are a prefix of all pages' candidate documents in order, and at most max(1, max_documents) |
| EsToCsv.DumpPagesPrefixEnd | Repository/code/es-dumper/es_to_csv.py:54-76 | the case of a page that ends the loop |
| EsToCsv.DumpPagesPrefixStep | Repository/code/es-dumper/es_to_csv.py:38-76 | the case of a page after which the loop goes on |
| EsToCsv.DumpedFacts | Repository/code/es-dumper/es_to_csv.py:31-76 | page and hit order are kept, at most max(1, max_documents) documents are yielded, and a total of 0 requests no page |
| EsToCsv.EmptyPageEnds | Repository/code/es-dumper/es_to_csv.py:38-40 | a page without hits ends the loop: later pages are never requested |
| EsToCsv.ByDateIsTotalPreorder | Repository/code/es-dumper/es_to_csv.py:131 | comparing string dates is a total preorder |
| EsToCsv.SortByDateFacts | Repository/code/es-dumper/es_to_csv.py:131 | the sorted documents are a permutation, ordered by date, with documents of equal dates in their original order |
| Text.StrLeTotal | Repository/code/es-dumper/es_to_csv.py:131 | any two strings compare |
| Text.StrLeTrans | Repository/code/es-dumper/es_to_csv.py:131 | string comparison is transitive |
| Text.LowerOfUpper | Repository/code/sentiment-analyzer/classifiers/naive_bayes/naive_bayes.py:281 | lower-casing an upper-cased string equals lower-casing it |
| Text.LStripBy | Repository/code/sentiment-analyzer/sentiment_analyzer.py:147 | the left strip is a suffix, drops only stripped characters, and starts with a kept one |
| Text.RStripBy | Repository/code/sentiment-analyzer/sentiment_analyzer.py:147 | the right strip is a prefix, drops only stripped characters, and ends with a kept one |
| Text.StripByInfix | Repository/code/sentiment-analyzer/sentiment_analyzer.py:147 | a stripped string is a contiguous slice of the original |
| Text.StripByIndices | Repository/code/sentiment-analyzer/sentiment_analyzer.py:147 | the characters a strip keeps are the original's at the matching positions |
| Text.StripByKeeps | Repository/code/sentiment-analyzer/sentiment_analyzer.py:147 | a property of every slice holds of the stripped string |
| Text.StripByFixed | Repository/code/sentiment-analyzer/sentiment_analyzer.py:147 | a string with no stripped character at either end is its own strip |
| Text.StripByEnds | Repository/code/sentiment-analyzer/sentiment_analyzer.py:147 | a stripped string neither starts nor ends with a stripped character |
| Text.DeleteIsSubsequence | Repository/code/converters/PSAIS-HHN-Trainingsdata/converter.py:73 | replace(p, "") only deletes characters |
| Text.DeleteCharMembers | Repository/code/converters/PSAIS-HHN-Trainingsdata/converter.py:73 | deleting a one-character pattern removes exactly that character |
| Text.Split | Repository/code/converters/PSAIS-HHN-Trainingsdata/converter.py:75 | split always yields at least one piece |
| Text.SplitPiecesLackSeparator | Repository/code/converters/PSAIS-HHN-Trainingsdata/converter.py:75 | no piece holds the separator, and a string without it splits into itself |
| Text.JoinSplit | Repository/code/converters/PSAIS-HHN-Trainingsdata/converter.py:75 | joining the pieces of a split gives the string back |
| Text.SplitJoin | Repository/code/sentiment-analyzer/classifiers/naive_bayes/naive_bayes.py:287 | splitting a join gives the pieces back when none holds the separator |
| Text.JoinSubsequence | Repository/code/converters/PSAIS-HHN-Trainingsdata/converter.py:75 | joining a subsequence of the pieces is a subsequence of the join |
| Text.JoinFirstChar | Repository/code/converters/PSAIS-HHN-Trainingsdata/converter.py:75 | a join whose first piece is non-empty starts with that piece's first character |
| Text.DropFirstCharNoSeparator | Repository/code/converters/PSAIS-HHN-Trainingsdata/converter.py:75 | dropping that first character keeps the pieces free of the separator |
| Text.JoinHeadSubsequence | Repository/code/converters/PSAIS-HHN-Trainingsdata/converter.py:75 | the first piece is a subsequence of the join |
| Text.JoinKeepHead | Repository/code/converters/PSAIS-HHN-Trainingsdata/converter.py:75 | keeping the first piece and a subsequence of the rest gives a subsequence of the join |
| Text.JoinDropHead | Repository/code/converters/PSAIS-HHN-Trainingsdata/converter.py:75 | a subsequence of the join of the rest is a subsequence of the whole join |
| Text.Filter | Repository/code/converters/PSAIS-HHN-Trainingsdata/converter.py:75 | the generator's condition keeps exactly the elements that satisfy it, never more than the input |
| Text.FilterSubsequence | Repository/code/converters/PSAIS-HHN-Trainingsdata/converter.py:75 | the kept elements keep their order |
| Text.FilterAppend | Repository/code/price-predictor/price_predictor.py:234 | filtering a list with one more element appends that element iff it is kept |
| Text.FilterNoneKept | Repository/code/price-predictor/price_predictor.py:233 | a condition no element satisfies keeps nothing |
| Text.FilterAllKept | Repository/code/price-predictor/price_predictor.py:162 | a condition every element satisfies keeps everything |
| Text.FilterFilter | Repository/code/converters/PSAIS-HHN-Trainingsdata/converter.py:74-75 | filtering twice is filtering once by both conditions |
| Text.SplitConcat | Repository/code/converters/PSAIS-HHN-Trainingsdata/converter.py:75 | splitting at a separator splits both sides independently |
| Text.ReplaceCharMembers | Repository/code/converters/data_cleaner.go:33 | replacing a character removes it and brings in only the replacement's characters |
| Text.JoinMembers | Repository/code/converters/PSAIS-HHN-Trainingsdata/converter.py:75 | no character of a piece is lost by joining |
| Text.SplitMembers | Repository/code/converters/PSAIS-HHN-Trainingsdata/converter.py:75 | every character of a piece comes from the split string |
| Text.SplitPiecesNonEmpty | Repository/code/sentiment-analyzer/classifiers/naive_bayes/naive_bayes.py:287 | a string that does not end in the separator and never holds two in a row splits into non-empty pieces after the first, which is empty iff it starts with one |
| Text.ParseNatToString | Repository/code/sentiment-analyzer/aggregator.py:29 | the decimal digits of a natural number read back as it |
| Text.IntToStringRoundTrip | Repository/code/sentiment-analyzer/aggregator.py:29 | "{}".format(i) reads back as i |
| Utf8.EncodeChar | Repository/code/converters/PSAIS-HHN-Trainingsdata/converter.py:35 | a character encodes to one to four bytes |
| Utf8.DecodeFirst | Repository/code/converters/PSAIS-HHN-Trainingsdata/converter.py:36 | a decoded character takes one to four of the available bytes |
| Utf8.DecodeFirstEncodeChar | Repository/code/converters/PSAIS-HHN-Trainingsdata/converter.py:34-38 | the decoder reads an encoded character back, whatever follows it |
| Utf8.DecodeFirstEncode2 | Repository/code/converters/PSAIS-HHN-Trainingsdata/converter.py:34-38 | the same for two-byte characters |
| Utf8.DecodeFirstEncode3 | Repository/code/converters/PSAIS-HHN-Trainingsdata/converter.py:34-38 | the same for three-byte characters |
| Utf8.DecodeFirstEncode4 | Repository/code/converters/PSAIS-HHN-Trainingsdata/converter.py:34-38 | the same for four-byte characters |
| Utf8.DecodeFirstIsEncoding | Repository/code/converters/PSAIS-HHN-Trainingsdata/converter.py:36 | the decoder only accepts the encoding of what it returns |
| Utf8.DecodeFirstIs2 | Repository/code/converters/PSAIS-HHN-Trainingsdata/converter.py:36 | the same for two-byte sequences |
| Utf8.DecodeFirstIs3 | Repository/code/converters/PSAIS-HHN-Trainingsdata/converter.py:36 | the same for three-byte sequences |
| Utf8.DecodeFirstIs4 | Repository/code/converters/PSAIS-HHN-Trainingsdata/converter.py:36 | the same for four-byte sequences |
| Utf8.DecodeEncode | Repository/code/converters/PSAIS-HHN-Trainingsdata/converter.py:34-38 | decoding the UTF-8 encoding of a string gives it back |
| Utf8.EncodeCons | Repository/code/converters/PSAIS-HHN-Trainingsdata/converter.py:35 | the encoding of a string is its first character's encoding followed by the rest's |
| Utf8.EncodeDecode | Repository/code/converters/PSAIS-HHN-Trainingsdata/converter.py:34-38 | whatever strict decoding accepts is the encoding of its result |
| TweetFilter.KeptWords | Repository/code/converters/PSAIS-HHN-Trainingsdata/converter.py:74-75 | the kept words are exactly the words after the deletions that no excluded prefix starts, in order |
| TweetFilter.FilterTweets | Repository/code/converters/PSAIS-HHN-Trainingsdata/converter.py:71-77 | filter_tweets deletes every "Read more:", then "RT", then "b", then drops the words starting with https, http, # or @ |
| TweetFilter.DeleteAllSnoc | Repository/code/converters/PSAIS-HHN-Trainingsdata/converter.py:72-73 | one more pattern is one more replace |
| TweetFilter.DropAllSnoc | Repository/code/converters/PSAIS-HHN-Trainingsdata/converter.py:74-75 | one more prefix is one more word-dropping pass |
| TweetFilter.ExcludedSnoc | Repository/code/converters/PSAIS-HHN-Trainingsdata/converter.py:74-75 | one more prefix excludes the words it starts as well |
| TweetFilter.DropWordsJoin | Repository/code/converters/PSAIS-HHN-Trainingsdata/converter.py:75 | dropping words from a join of space-free words filters those words |
| TweetFilter.DropAllWords | Repository/code/converters/PSAIS-HHN-Trainingsdata/converter.py:74-75 | the passes prefix by prefix drop, in one pass, every word with one of the prefixes |
| TweetFilter.DeleteAllSubsequence | Repository/code/converters/PSAIS-HHN-Trainingsdata/converter.py:72-73 | the deletions only remove characters |
| TweetFilter.FilteredWords | Repository/code/converters/PSAIS-HHN-Trainingsdata/converter.py:71-77 | the output is the surviving words joined by single spaces (empty words kept); no output word starts with https, http, # or @ |
| TweetFilter.DroppedSubsequence | Repository/code/converters/PSAIS-HHN-Trainingsdata/converter.py:74-75 | past the deletions filter_tweets only drops words |
| TweetFilter.DeletedLacksB | Repository/code/converters/PSAIS-HHN-Trainingsdata/converter.py:72-73 | no "b" survives the deletions, letters inside words included |
| TweetFilter.FilteredChars | Repository/code/converters/Sentiment140-Trainingsdata/converter.py:66-72 | the output has no "b" and its characters are a subsequence of the input |
| TweetFilter.DecodeSentenceIdentity | Repository/code/converters/PSAIS-HHN-Trainingsdata/converter.py:34-38 | decode_sentence never fails and returns its input |
| TweetFilter.CorpusFile.constructor | Repository/code/converters/PSAIS-HHN-Trainingsdata/converter.py:43 | a corpus file opened for appending starts with its existing content |
| TweetFilter.LinesTextAppend | Repository/code/converters/PSAIS-HHN-Trainingsdata/converter.py:47 | one more write appends the line and a line break |
| TweetFilter.LinesTextSnoc | Repository/code/converters/PSAIS-HHN-Trainingsdata/converter.py:47 | the same, for a list with a last line |
| TweetFilter.LinesTextSplit | Repository/code/converters/PSAIS-HHN-Trainingsdata/converter.py:44-47 | lines without line breaks read back, split at line breaks, as themselves |
| TweetFilter.FilteredAll | Repository/code/converters/PSAIS-HHN-Trainingsdata/converter.py:44-46 | one filtered line per tweet, in list order |
| TweetFilter.CorpusLines | Repository/code/converters/PSAIS-HHN-Trainingsdata/converter.py:41-48 | a corpus of tweets without line breaks reads back line by line as the filtered tweets |
| TweetFilter.CorpusStep | Repository/code/converters/PSAIS-HHN-Trainingsdata/converter.py:44-47 | one more tweet appends its filtered line |
| TweetFilter.WriteCorpus | Repository/code/converters/PSAIS-HHN-Trainingsdata/converter.py:41-68 | each corpus writer appends one filtered line per list entry, in list order, to what the file held |
| PsaisConverter.Converter.constructor | Repository/code/converters/PSAIS-HHN-Trainingsdata/converter.py:5-7 | the three module-level lists start empty |
| PsaisConverter.Converter.ReadRows | Repository/code/converters/PSAIS-HHN-Trainingsdata/converter.py:17-27 | the row loop of one file updates the lists exactly as RouteRows does and reports the IndexError that ends it |
| PsaisConverter.Converter.ConvertAll | Repository/code/converters/PSAIS-HHN-Trainingsdata/converter.py:13-31 | main over the directory listing leaves the lists, the three corpora and the ending error exactly as Convert defines |
| PsaisConverter.RouteRowsSnoc | Repository/code/converters/PSAIS-HHN-Trainingsdata/converter.py:17-25 | one more row is routed unless an IndexError already ended the file |
| PsaisConverter.RowsAbortSticks | Repository/code/converters/PSAIS-HHN-Trainingsdata/converter.py:18 | after an IndexError no further row is read |
| PsaisConverter.ConvertAbortSticks | Repository/code/converters/PSAIS-HHN-Trainingsdata/converter.py:14-18 | after an IndexError no later file is read and no corpus is written |
| PsaisConverter.MessagesAppend | Repository/code/converters/PSAIS-HHN-Trainingsdata/converter.py:17-25 | the messages of more rows follow those of the earlier rows |
| PsaisConverter.FirstShort | Repository/code/converters/PSAIS-HHN-Trainingsdata/converter.py:18 | the first row without a column 3, or the number of rows |
| PsaisConverter.MessagesOne | Repository/code/converters/PSAIS-HHN-Trainingsdata/converter.py:18-25 | one row contributes its stripped column 3 to a list iff column 1 is that list's label |
| PsaisConverter.TagSnoc | Repository/code/converters/PSAIS-HHN-Trainingsdata/converter.py:20-25 | appending a row's message extends the list's messages |
| PsaisConverter.AppendedSnoc | Repository/code/converters/PSAIS-HHN-Trainingsdata/converter.py:18-25 | a row with a column 3 appends its message to the list of its label |
| PsaisConverter.RouteRowsMessages | Repository/code/converters/PSAIS-HHN-Trainingsdata/converter.py:17-25 | reading a file appends to each list the stripped column-3 messages of the rows labelled positiv, negativ or neutral, in row order, ignoring other labels; a row without column 3 raises IndexError after the earlier rows were added |
| PsaisConverter.AppendedNothing | Repository/code/converters/PSAIS-HHN-Trainingsdata/converter.py:17 | no rows append nothing |
| PsaisConverter.RouteRowsShortBefore | Repository/code/converters/PSAIS-HHN-Trainingsdata/converter.py:18 | a short row before the last one has already ended the file |
| PsaisConverter.RouteRowsLast | Repository/code/converters/PSAIS-HHN-Trainingsdata/converter.py:17-25 | with every earlier row long enough, the last row decides |
| PsaisConverter.RouteRowsLastShort | Repository/code/converters/PSAIS-HHN-Trainingsdata/converter.py:18 | a short last row raises IndexError after the earlier rows |
| PsaisConverter.RouteRowsLastLong | Repository/code/converters/PSAIS-HHN-Trainingsdata/converter.py:17-25 | a long last row completes the file |
| PsaisConverter.FirstShortPrefix | Repository/code/converters/PSAIS-HHN-Trainingsdata/converter.py:18 | the first short row is found where it is |
| PsaisConverter.FirstShortLongLast | Repository/code/converters/PSAIS-HHN-Trainingsdata/converter.py:18 | a long last row after long rows leaves none short |
| PsaisConverter.FirstShortAll | Repository/code/converters/PSAIS-HHN-Trainingsdata/converter.py:18 | when every row has a column 3, none is short |
| PsaisConverter.ConvertFileComplete | Repository/code/converters/PSAIS-HHN-Trainingsdata/converter.py:15-31 | a CSV file whose rows all have a column 3 appends the routed messages and then writes all three lists |
| PsaisConverter.RewritesEarlierFiles | Repository/code/converters/PSAIS-HHN-Trainingsdata/converter.py:5-31 | the lists are never cleared and the writers run after every CSV file, so the first file's tweets are appended to each corpus again after the second file |
| Sentiment140Converter.Converter.constructor | Repository/code/converters/Sentiment140-Trainingsdata/converter.py:4-6 | the three module-level lists start empty |
| Sentiment140Converter.Converter.ConvertAll | Repository/code/converters/Sentiment140-Trainingsdata/converter.py:11-26 | main routes every row as RouteRows does, then appends the negative, positive and neutral corpora, one filtered line per entry |
| Sentiment140Converter.RouteRowFails | Repository/code/converters/Sentiment140-Trainingsdata/converter.py:13-22 | a row is reported and skipped exactly when it has no column 0, or has label 4, 2 or 0 and no column 5 |
| Sentiment140Converter.MessagesAppend | Repository/code/converters/Sentiment140-Trainingsdata/converter.py:13-20 | the messages of more rows follow those of the earlier rows |
| Sentiment140Converter.TagSnoc | Repository/code/converters/Sentiment140-Trainingsdata/converter.py:15-20 | appending a row's message extends the list's messages |
| Sentiment140Converter.RouteRowsMessages | Repository/code/converters/Sentiment140-Trainingsdata/converter.py:13-22 | labels 4, 2 and 0 route the stripped column 5 to positive, neutral and negative in input order; other labels and failing rows are skipped |
| DataCleaner.Writes | Repository/code/converters/data_cleaner.go:40-53 | a line leads to at most one write |
| DataCleaner.Clean | Repository/code/converters/data_cleaner.go:27-58 | the scanner loop writes exactly Cleaned of the lines |
| DataCleaner.LeadingQuotesAtLeast | Repository/code/converters/data_cleaner.go:34 | a string starting with n quotes has at least n leading quotes |
| DataCleaner.LeadingQuotesBelow | Repository/code/converters/data_cleaner.go:34 | a non-quote at j bounds the leading quotes by j |
| DataCleaner.ConsNoQuoteRun | Repository/code/converters/data_cleaner.go:34 | a character in front creates no run of four quotes unless three follow |
| DataCleaner.DeleteQuadNoRun | Repository/code/converters/data_cleaner.go:34 | deleting every run of four quotes leaves none, even where a deletion joins quotes |
| DataCleaner.NoQuoteRunSlice | Repository/code/converters/data_cleaner.go:36 | a slice of a string without quote runs has none |
| DataCleaner.LowerFacts | Repository/code/converters/data_cleaner.go:35 | lowering ASCII case keeps quotes, line breaks and backquotes where they are |
| DataCleaner.UnrunFacts | Repository/code/converters/data_cleaner.go:30-34 | after the replacements a line has no line break, no backquote and no run of four quotes |
| DataCleaner.RewrittenFacts | Repository/code/converters/data_cleaner.go:30-36 | before quoting, a line has no line break, no backquote, no run of four quotes, and neither starts nor ends with ', " or ; |
| DataCleaner.TrimFacts | Repository/code/converters/data_cleaner.go:36 | trimming keeps those absences and leaves no cutset character at either end |
| DataCleaner.TrimInfix | Repository/code/converters/data_cleaner.go:36 | trimming creates no quote run |
| DataCleaner.TrimLacks | Repository/code/converters/data_cleaner.go:36 | trimming brings in no character |
| DataCleaner.EscapedQuotes | Repository/code/converters/data_cleaner.go:38 | after escaping, every double quote has a backslash right before it |
| DataCleaner.EscapeRoundTrip | Repository/code/converters/data_cleaner.go:38 | undoing the escapes gives the line back |
| DataCleaner.QuotedFacts | Repository/code/converters/data_cleaner.go:38-39 | the string passed to Unquote starts and ends with a double quote, and every double quote from the line has a backslash before it |
| DataCleaner.WritesFacts | Repository/code/converters/data_cleaner.go:47-53 | every write is non-empty text without leading or trailing white space, followed by a line break |
| DataCleaner.CleanedLines | Repository/code/converters/data_cleaner.go:27-57 | no more writes than lines, each a well-formed written line |
| DataCleaner.CleanedAppend | Repository/code/converters/data_cleaner.go:27-58 | lines are cleaned independently and their writes keep the input order |
| DataCleaner.SkipsUnquoteFailure | Repository/code/converters/data_cleaner.go:40-45 | a line whose Unquote fails writes nothing, and the lines after it are still read |
| SentimentAnalyzer.NonSpaceRun | Repository/code/sentiment-analyzer/sentiment_analyzer.py:23 | `\S+` takes the longest run of non-space characters |
| SentimentAnalyzer.UrlMatch | Repository/code/sentiment-analyzer/sentiment_analyzer.py:23 | a match is the scheme followed by at least one non-space, up to a space or the end |
| SentimentAnalyzer.UrlMatchPrefix | Repository/code/sentiment-analyzer/sentiment_analyzer.py:23 | whether a match starts somewhere depends only on the scheme and the next character |
| SentimentAnalyzer.UrlMatchNoSpace | Repository/code/sentiment-analyzer/sentiment_analyzer.py:23 | the first characters of a match are not spaces |
| SentimentAnalyzer.SpaceStartsNoUrl | Repository/code/sentiment-analyzer/sentiment_analyzer.py:23 | no match starts at a space |
| SentimentAnalyzer.RemoveUrlsAfterMatch | Repository/code/sentiment-analyzer/sentiment_analyzer.py:146 | what follows a deleted URL starts with a space, if anything |
| SentimentAnalyzer.NonSpacePrefixKept | Repository/code/sentiment-analyzer/sentiment_analyzer.py:146 | a run without spaces at the start of the cleaned string is the same run of the original |
| SentimentAnalyzer.RemoveUrlsKeepsHead | Repository/code/sentiment-analyzer/sentiment_analyzer.py:146 | a cleaned string starting with a non-space kept the original's first character |
| SentimentAnalyzer.TailNonSpace | Repository/code/sentiment-analyzer/sentiment_analyzer.py:146 | the tail of a run without spaces has none |
| SentimentAnalyzer.ConsPrefixKept | Repository/code/sentiment-analyzer/sentiment_analyzer.py:146 | a kept first character extends a kept run |
| SentimentAnalyzer.RemoveUrlsNoUrl | Repository/code/sentiment-analyzer/sentiment_analyzer.py:146 | URL_PATTERN.sub leaves no match of the pattern |
| SentimentAnalyzer.KeptHeadNoMatch | Repository/code/sentiment-analyzer/sentiment_analyzer.py:146 | a character that starts no match starts none after the rest is cleaned |
| SentimentAnalyzer.RemoveUrlsFixed | Repository/code/sentiment-analyzer/sentiment_analyzer.py:146 | a string without a match is left as it is |
| SentimentAnalyzer.NoUrlInfix | Repository/code/sentiment-analyzer/sentiment_analyzer.py:147 | a slice of a string without a match has none |
| SentimentAnalyzer.RemoveUrlsSubsequence | Repository/code/sentiment-analyzer/sentiment_analyzer.py:146 | deleting URLs only removes characters |
| SentimentAnalyzer.FilterUrlsNoUrl | Repository/code/sentiment-analyzer/sentiment_analyzer.py:144-150 | the cleaned message contains no match of https?://\S+ in any case |
| SentimentAnalyzer.StripNoUrl | Repository/code/sentiment-analyzer/sentiment_analyzer.py:147 | stripping a string without a match leaves none |
| SentimentAnalyzer.FilterUrlsSubsequence | Repository/code/sentiment-analyzer/sentiment_analyzer.py:144-150 | the cleaned message keeps only characters of the original, in order |
| SentimentAnalyzer.FilterUrlsIdempotent | Repository/code/sentiment-analyzer/sentiment_analyzer.py:144-150 | the cleaned message has no white space at either end, and cleaning it again changes nothing |
| SentimentAnalyzer.InfixSubsequence | Repository/code/sentiment-analyzer/sentiment_analyzer.py:147 | a slice is a subsequence |
| SentimentAnalyzer.TweetData.constructor | Repository/code/sentiment-analyzer/sentiment_analyzer.py:141 | a tweet's data is its hit's _source |
| SentimentAnalyzer.StrippedLines | Repository/code/sentiment-analyzer/sentiment_analyzer.py:163-164 | each line stripped, one per line |
| SentimentAnalyzer.NonBlankSnoc | Repository/code/sentiment-analyzer/sentiment_analyzer.py:166-170 | one more line is kept iff it is not blank |
| SentimentAnalyzer.NonBlankFacts | Repository/code/sentiment-analyzer/sentiment_analyzer.py:166-167 | exactly the non-empty strings are kept, in order |
| SentimentAnalyzer.StripStripped | Repository/code/sentiment-analyzer/sentiment_analyzer.py:164 | a stripped line strips to itself |
| SentimentAnalyzer.SpamPatternsFacts | Repository/code/sentiment-analyzer/sentiment_analyzer.py:161-170 | every loaded pattern is a non-blank stripped line, every non-blank line is loaded, in file order |
| SentimentAnalyzer.SpamFilters.constructor | Repository/code/sentiment-analyzer/sentiment_analyzer.py:21 | SPAM_FILTERS starts empty |
| SentimentAnalyzer.SpamFilters.LoadSpamFilters | Repository/code/sentiment-analyzer/sentiment_analyzer.py:161-170 | load_spam_filters appends one pattern per non-blank stripped line, in file order, after those already loaded; the first non-blank line re.compile rejects raises re.error, with the lines before it already appended and no later line read |
| SentimentAnalyzer.CompiledPrefixStops | Repository/code/sentiment-analyzer/sentiment_analyzer.py:163-169 | every line before the stop is blank or compiles, and the line at the stop is non-blank and does not compile |
| SentimentAnalyzer.LoadedPatternsCompile | Repository/code/sentiment-analyzer/sentiment_analyzer.py:166-170 | every pattern appended is one re.compile accepts |
| SentimentAnalyzer.AllCompile | Repository/code/sentiment-analyzer/sentiment_analyzer.py:161-170 | when every line is blank or compiles, the whole file is loaded |
| SentimentAnalyzer.StrippedLinesPrefix | Repository/code/sentiment-analyzer/sentiment_analyzer.py:163-164 | stripping the first i lines gives the first i stripped lines |
| SentimentAnalyzer.SpamPatternsSnoc | Repository/code/sentiment-analyzer/sentiment_analyzer.py:163-170 | one more line adds its stripped form unless it is blank |
| SentimentAnalyzer.LoadStep | Repository/code/sentiment-analyzer/sentiment_analyzer.py:163-170 | one iteration of the loop extends the patterns of the first i lines to those of the first i + 1 |
| Seqs.FirstFailingAt | Repository/code/sentiment-analyzer/sentiment_analyzer.py:163-169 | the first rejected line is at k exactly when everything before k is accepted and line k, if any, is not |
| Seqs.FirstFailingFacts | Repository/code/sentiment-analyzer/sentiment_analyzer.py:163-169 | everything before the first rejected element is accepted, and the element there is rejected |
| Seqs.FirstFailingStep | Repository/code/sentiment-analyzer/sentiment_analyzer.py:163-169 | passing an accepted element stays within the first failure |
| Seqs.FirstFailingStop | Repository/code/sentiment-analyzer/sentiment_analyzer.py:169 | a rejected element reached without passing a failure is the first failure |
| SentimentAnalyzer.SpamFilters.IsSpamTweet | Repository/code/sentiment-analyzer/sentiment_analyzer.py:153-158 | is_spam_tweet is true iff some loaded pattern matches the message; with no patterns it is false without reading the message, otherwise a missing message raises KeyError |
| SentimentAnalyzer.UrlFilteredFacts | Repository/code/sentiment-analyzer/sentiment_analyzer.py:144-150 | URL filtering succeeds iff the message is a string, and then only the message changes, to its cleaned form |
| SentimentAnalyzer.GetUrlFilteredTweet | Repository/code/sentiment-analyzer/sentiment_analyzer.py:144-150 | the tweet's own data is updated in place and the same tweet is returned |
| SentimentAnalyzer.ClassifiedTweetFacts | Repository/code/sentiment-analyzer/sentiment_analyzer.py:28-35 | classification fails iff the message is missing or the classifier raises; otherwise the id is kept and the data has exactly one key, sentiment_<classifier name>, holding the polarity |
| SentimentAnalyzer.SaveActionFacts | Repository/code/sentiment-analyzer/sentiment_analyzer.py:94-101 | the action is an update with _id = the tweet id, _index twitter, _type tweet and doc = the data, and nothing else |
| SentimentAnalyzer.Outcomes | Repository/code/sentiment-analyzer/sentiment_analyzer.py:42-49 | one outcome per tweet |
| SentimentAnalyzer.OutcomeAt | Repository/code/sentiment-analyzer/sentiment_analyzer.py:42-49 | the i-th outcome is the i-th tweet's |
| SentimentAnalyzer.OutcomesAppend | Repository/code/sentiment-analyzer/sentiment_analyzer.py:42-49 | outcomes of concatenated tweet lists concatenate |
| SentimentAnalyzer.OutcomesAt | Repository/code/sentiment-analyzer/sentiment_analyzer.py:42-49 | every outcome is its tweet's |
| SentimentAnalyzer.FoldAbortSticks | Repository/code/sentiment-analyzer/sentiment_analyzer.py:42-45 | once the generator has raised, later tweets are not looked at |
| SentimentAnalyzer.FoldStep | Repository/code/sentiment-analyzer/sentiment_analyzer.py:45-51 | one more tweet is one more step of the loop |
| SentimentAnalyzer.FoldAbortAt | Repository/code/sentiment-analyzer/sentiment_analyzer.py:42-45 | the first uncaught exception ends the run with the actions yielded before it |
| SentimentAnalyzer.FoldCompletes | Repository/code/sentiment-analyzer/sentiment_analyzer.py:42-51 | the generator runs to the end iff no outcome is an uncaught exception |
| SentimentAnalyzer.FoldDrops | Repository/code/sentiment-analyzer/sentiment_analyzer.py:42-51 | a spam tweet, or one whose classification raised, leaves the yielded actions and the ending as if it were absent |
| SentimentAnalyzer.FoldActionsInOrder | Repository/code/sentiment-analyzer/sentiment_analyzer.py:45-49 | the yielded actions keep the order of the tweets |
| SentimentAnalyzer.FoldActionsFrom | Repository/code/sentiment-analyzer/sentiment_analyzer.py:45-49 | every yielded action is the action of a cleaned tweet |
| SentimentAnalyzer.FoldAllEmitted | Repository/code/sentiment-analyzer/sentiment_analyzer.py:45-49 | when every tweet is cleaned and classified, each yields its action, in order |
| SentimentAnalyzer.StepFacts | Repository/code/sentiment-analyzer/sentiment_analyzer.py:42-49 | a tweet is cleaned iff it is not spam and its message is a string; then it yields the save action of its classification, or is dropped if that raises |
| SentimentAnalyzer.ProcessCompletes | Repository/code/sentiment-analyzer/sentiment_analyzer.py:42-51 | the generator runs to the end iff no tweet's spam check or URL filter raises |
| SentimentAnalyzer.ProcessDropsTweet | Repository/code/sentiment-analyzer/sentiment_analyzer.py:42-51 | a spam tweet, or one whose classification raises, is dropped without affecting the others |
| SentimentAnalyzer.ProcessActionsFrom | Repository/code/sentiment-analyzer/sentiment_analyzer.py:38-51 | every yielded action updates, by its id, a non-spam tweet with the sentiment of its cleaned message, in input order |
| SentimentAnalyzer.ProcessAllClassified | Repository/code/sentiment-analyzer/sentiment_analyzer.py:38-51 | with no spam patterns, string messages and a classifier that never raises, every tweet yields its action, in order |
| SentimentAnalyzer.ProcessTweet | Repository/code/sentiment-analyzer/sentiment_analyzer.py:42-51 | one tweet through the filter, the map and the loop body: its outcome is Step, and its data changes only when cleaned |
| SentimentAnalyzer.GetClassifiedTweetActions | Repository/code/sentiment-analyzer/sentiment_analyzer.py:38-51 | the drained generator yields exactly Process's actions and ends with its error |
| NaiveBayes.DeleteNonWordChars | Repository/code/sentiment-analyzer/classifiers/naive_bayes/naive_bayes.py:282 | WORD_PATTERN.sub leaves only a-z and spaces |
| NaiveBayes.SkipSpaces | Repository/code/sentiment-analyzer/classifiers/naive_bayes/naive_bayes.py:283 | a leading white-space run ends where the left strip begins |
| NaiveBayes.CollapseFront | Repository/code/sentiment-analyzer/classifiers/naive_bayes/naive_bayes.py:283 | collapsing keeps a string empty or not, and keeps whether it starts with white space |
| NaiveBayes.CollapseNoAdjacent | Repository/code/sentiment-analyzer/classifiers/naive_bayes/naive_bayes.py:283 | after WHITESPACE_PATTERN.sub no two white-space characters are adjacent |
| NaiveBayes.ConsWordString | Repository/code/sentiment-analyzer/classifiers/naive_bayes/naive_bayes.py:282 | a word character in front of a word string is a word string |
| NaiveBayes.SuffixWordString | Repository/code/sentiment-analyzer/classifiers/naive_bayes/naive_bayes.py:282 | a suffix of a word string is one |
| NaiveBayes.CollapseWordString | Repository/code/sentiment-analyzer/classifiers/naive_bayes/naive_bayes.py:283 | collapsing keeps a string of a-z and spaces one |
| NaiveBayes.CollapseFixed | Repository/code/sentiment-analyzer/classifiers/naive_bayes/naive_bayes.py:283 | a string without two adjacent white-space characters is unchanged |
| NaiveBayes.InfixKeepsWordString | Repository/code/sentiment-analyzer/classifiers/naive_bayes/naive_bayes.py:284 | a slice keeps only a-z and spaces, none adjacent |
| NaiveBayes.StripKeepsWordString | Repository/code/sentiment-analyzer/classifiers/naive_bayes/naive_bayes.py:284 | stripping keeps both properties |
| NaiveBayes.CleanSentenceFacts | Repository/code/sentiment-analyzer/classifiers/naive_bayes/naive_bayes.py:280-284 | the cleaned sentence holds only a-z and spaces, no two spaces in a row, and neither starts nor ends with a space |
| NaiveBayes.TokensAreLowerLetters | Repository/code/sentiment-analyzer/classifiers/naive_bayes/naive_bayes.py:280-287 | every token consists of the letters a-z only |
| NaiveBayes.NoAdjacentSpaceChars | Repository/code/sentiment-analyzer/classifiers/naive_bayes/naive_bayes.py:283 | no two spaces are adjacent |
| NaiveBayes.TokensNonEmpty | Repository/code/sentiment-analyzer/classifiers/naive_bayes/naive_bayes.py:280-287 | no token is empty unless the cleaned sentence is empty, and then the result is exactly [""] |
| NaiveBayes.CleanSentenceFixed | Repository/code/sentiment-analyzer/classifiers/naive_bayes/naive_bayes.py:280-284 | a cleaned sentence cleans to itself |
| NaiveBayes.WordStringLowerFixed | Repository/code/sentiment-analyzer/classifiers/naive_bayes/naive_bayes.py:281 | lower-casing a string of a-z and spaces changes nothing |
| NaiveBayes.GetWordListJoin | Repository/code/sentiment-analyzer/classifiers/naive_bayes/naive_bayes.py:280-287 | tokenising the space-joined tokens gives the same tokens |
| NaiveBayes.GetWordListIgnoresCase | Repository/code/sentiment-analyzer/classifiers/naive_bayes/naive_bayes.py:281 | ASCII case does not matter to get_word_list |
| NaiveBayes.CleanedLines | Repository/code/sentiment-analyzer/classifiers/naive_bayes/naive_bayes.py:266-272 | one cleaned line per line |
| NaiveBayes.StopWordsOf | Repository/code/sentiment-analyzer/classifiers/naive_bayes/naive_bayes.py:266-277 | the stop words are exactly the non-empty cleaned lines |
| NaiveBayes.StopWordsStep | Repository/code/sentiment-analyzer/classifiers/naive_bayes/naive_bayes.py:267-275 | one more line appends its cleaned form unless that is empty |
| NaiveBayes.GetStopWords | Repository/code/sentiment-analyzer/classifiers/naive_bayes/naive_bayes.py:258-277 | get_stop_words keeps the cleaned non-empty lines in file order; every entry is non-empty and made of a-z and spaces |
| NaiveBayes.TokenLists | Repository/code/sentiment-analyzer/classifiers/naive_bayes/naive_bayes.py:100-101 | one token list per sentence |
| NaiveBayes.CountedTokensStep | Repository/code/sentiment-analyzer/classifiers/naive_bayes/naive_bayes.py:100-103 | one more sentence adds its tokens minus stop words |
| NaiveBayes.TallyKeys | Repository/code/sentiment-analyzer/classifiers/naive_bayes/naive_bayes.py:103 | the Counter's keys are the tokens, each once, in first-seen order |
| NaiveBayes.TallyGet | Repository/code/sentiment-analyzer/classifiers/naive_bayes/naive_bayes.py:103 | the Counter holds each token's number of occurrences |
| NaiveBayes.TallyGetStep | Repository/code/sentiment-analyzer/classifiers/naive_bayes/naive_bayes.py:103 | counting one more token keeps every count right |
| NaiveBayes.TallyFacts | Repository/code/sentiment-analyzer/classifiers/naive_bayes/naive_bayes.py:103 | the Counter holds each token once, in first-seen order, with its number of occurrences |
| NaiveBayes.TallyStep | Repository/code/sentiment-analyzer/classifiers/naive_bayes/naive_bayes.py:103 | one more token raises its count by one |
| NaiveBayes.ByCountIsTotalPreorder | Repository/code/sentiment-analyzer/classifiers/naive_bayes/naive_bayes.py:107 | descending count is a total preorder |
| NaiveBayes.MostCommonFacts | Repository/code/sentiment-analyzer/classifiers/naive_bayes/naive_bayes.py:107-108 | most_common(n) gives at most n distinct keys of the Counter, by non-increasing count |
| NaiveBayes.MostCommonTies | Repository/code/sentiment-analyzer/classifiers/naive_bayes/naive_bayes.py:107 | the chosen words of any one count are the first of that count in insertion order |
| NaiveBayes.CounterUpdate | Repository/code/sentiment-analyzer/classifiers/naive_bayes/naive_bayes.py:103 | Counter.update adds one occurrence per word, in order |
| NaiveBayes.CountWords | Repository/code/sentiment-analyzer/classifiers/naive_bayes/naive_bayes.py:100-103 | the counting loop tallies every sentence's tokens minus stop words |
| NaiveBayes.GetAllWords | Repository/code/sentiment-analyzer/classifiers/naive_bayes/naive_bayes.py:90-110 | get_all_words is the vocabulary of the positive, then negative, then neutral sentences |
| NaiveBayes.CountedTokensMembers | Repository/code/sentiment-analyzer/classifiers/naive_bayes/naive_bayes.py:100-102 | a word is counted iff it is a token of some sentence and not a stop word |
| NaiveBayes.VocabularyFacts | Repository/code/sentiment-analyzer/classifiers/naive_bayes/naive_bayes.py:90-110 | at most 10000 distinct counted tokens, none a stop word, by non-increasing count |
| NaiveBayes.VocabularyTies | Repository/code/sentiment-analyzer/classifiers/naive_bayes/naive_bayes.py:94-107 | ties go to the words seen first over positive, negative, neutral sentences |
| NaiveBayes.EmptyTokenCounted | Repository/code/sentiment-analyzer/classifiers/naive_bayes/naive_bayes.py:100-103 | a sentence that cleans to nothing contributes the empty token, which no stop word removes |
| NaiveBayes.GetWordMap | Repository/code/sentiment-analyzer/classifiers/naive_bayes/naive_bayes.py:290-300 | get_word_map is the feature map of the vocabulary over the sentence's tokens |
| NaiveBayes.MarkPresent | Repository/code/sentiment-analyzer/classifiers/naive_bayes/naive_bayes.py:294-298 | the marking loop sets True for each vocabulary word among the tokens |
| NaiveBayes.FeatureMapSnoc | Repository/code/sentiment-analyzer/classifiers/naive_bayes/naive_bayes.py:294-298 | one more vocabulary word adds at most its own entry |
| NaiveBayes.FeatureMapFacts | Repository/code/sentiment-analyzer/classifiers/naive_bayes/naive_bayes.py:290-300 | the map holds True for exactly the vocabulary words among the tokens, in vocabulary order, and never False |
| NaiveBayes.FeatureMapGet | Repository/code/sentiment-analyzer/classifiers/naive_bayes/naive_bayes.py:294-298 | a word maps to True iff it is in the vocabulary and among the tokens |
| NaiveBayes.FeatureMapValues | Repository/code/sentiment-analyzer/classifiers/naive_bayes/naive_bayes.py:297 | every stored value is True |
| NaiveBayes.FeatureMapKeys | Repository/code/sentiment-analyzer/classifiers/naive_bayes/naive_bayes.py:294-298 | the keys come in vocabulary order |
| NaiveBayes.SetValues | Repository/code/sentiment-analyzer/classifiers/naive_bayes/naive_bayes.py:297 | an assignment stores only the old values and the new one |
| NaiveBayes.FeatureMapHasTrue | Repository/code/sentiment-analyzer/classifiers/naive_bayes/naive_bayes.py:219 | a feature map has a True value iff some vocabulary word is a token |
| NaiveBayes.LabeledExamplesStep | Repository/code/sentiment-analyzer/classifiers/naive_bayes/naive_bayes.py:215-222 | one more sentence adds its example iff its map has a True value |
| NaiveBayes.SentenceExampleStep | Repository/code/sentiment-analyzer/classifiers/naive_bayes/naive_bayes.py:215-222 | the same, from the sentence's tokens |
| NaiveBayes.CorpusExamples | Repository/code/sentiment-analyzer/classifiers/naive_bayes/naive_bayes.py:215-222 | one corpus yields the labelled maps of its sentences that have a True value, in order |
| NaiveBayes.ExamplesOfThree | Repository/code/sentiment-analyzer/classifiers/naive_bayes/naive_bayes.py:209-215 | three sources yield their examples one after the other |
| NaiveBayes.GetLabeledTrainingSet | Repository/code/sentiment-analyzer/classifiers/naive_bayes/naive_bayes.py:208-222 | the training set is the positive, then negative, then neutral examples |
| NaiveBayes.TrainingSetsExamples | Repository/code/sentiment-analyzer/classifiers/naive_bayes/naive_bayes.py:209-215 | the three labelled sources contribute in the order pos, neg, neutral |
| NaiveBayes.ExamplesOfStep | Repository/code/sentiment-analyzer/classifiers/naive_bayes/naive_bayes.py:209-215 | one more source appends its examples |
| NaiveBayes.LabeledExamplesFacts | Repository/code/sentiment-analyzer/classifiers/naive_bayes/naive_bayes.py:215-222 | every example carries its source's label and a map with a True value, and every sentence with a vocabulary word yields one |
| NaiveBayes.MapNumberRange | Repository/code/sentiment-analyzer/classifiers/naive_bayes/naive_bayes.py:308-313 | map_number_range fails with ZeroDivisionError exactly when the input range is empty |
| NaiveBayes.DivideProduct | Repository/code/sentiment-analyzer/classifiers/naive_bayes/naive_bayes.py:310-313 | multiplying and dividing by the same non-zero number cancels |
| NaiveBayes.CancelLeft | Repository/code/sentiment-analyzer/classifiers/naive_bayes/naive_bayes.py:310-313 | the same with the factor on the left |
| NaiveBayes.MapNumberRangeEndpoints | Repository/code/sentiment-analyzer/classifiers/naive_bayes/naive_bayes.py:308-313 | the input start maps to the output start and the input end to the output end |
| NaiveBayes.MapNumberRangeValue | Repository/code/sentiment-analyzer/classifiers/naive_bayes/naive_bayes.py:310-313 | the result is the linear interpolation |
| NaiveBayes.MapNumberRangeInverse | Repository/code/sentiment-analyzer/classifiers/naive_bayes/naive_bayes.py:308-313 | mapping back with the ranges swapped gives the number again |
| NaiveBayes.MultiplyQuotient | Repository/code/sentiment-analyzer/classifiers/naive_bayes/naive_bayes.py:310-313 | dividing and multiplying by the same non-zero number cancels |
| NaiveBayes.ClassificationOf | Repository/code/sentiment-analyzer/classifiers/naive_bayes/naive_bayes.py:83-87 | probability is the winning probability unchanged and subjectivity is None |
| NaiveBayes.PolarityRange | Repository/code/sentiment-analyzer/classifiers/naive_bayes/naive_bayes.py:75-81 | for p in [0.5, 1] the magnitude 2p - 1 lies in [0, 1], and it is negated only for label neg |
| NaiveBayes.BuildTokenMap | Repository/code/sentiment-analyzer/classifiers/naive_bayes/naive_bayes.py:67-70 | classify's loop builds exactly TokenMap of the tokens |
| NaiveBayes.TokenMapFacts | Repository/code/sentiment-analyzer/classifiers/naive_bayes/naive_bayes.py:67-70 | every token maps to True, each once, in first-seen order, vocabulary or not |
| NaiveBayes.ClassifierStore.constructor | Repository/code/sentiment-analyzer/classifiers/naive_bayes/naive_bayes.py:54 | cached_classifier starts unset |
| NaiveBayes.ClassifierStore.GetClassifier | Repository/code/sentiment-analyzer/classifiers/naive_bayes/naive_bayes.py:113-135 | a cached classifier is returned without loading or training; else a saved one is loaded and cached; else one is trained and saved but not cached |
| NaiveBayes.ClassifierStore.Classify | Repository/code/sentiment-analyzer/classifiers/naive_bayes/naive_bayes.py:64-87 | classify uses the classifier get_classifier gives, on the token map of the text, and leaves the cache as get_classifier does |
| NaiveBayes.TwoColdCalls | Repository/code/sentiment-analyzer/classifiers/naive_bayes/naive_bayes.py:113-135 | with neither cache nor file, the first call trains and saves, the second loads the saved classifier and caches it |
| Seqs.CountPositive | Repository/code/sentiment-analyzer/classifiers/naive_bayes/naive_bayes.py:103 | an element occurs iff its count is positive |
| Seqs.DedupFacts | Repository/code/price-predictor/price_predictor.py:233 | first-seen de-duplication keeps every element once and nothing else |
| Seqs.Take | Repository/code/price-predictor/price_predictor.py:196 | s[:n] is the prefix of length min(n, len(s)) |
| Seqs.SubsequenceRefl | Repository/code/converters/PSAIS-HHN-Trainingsdata/converter.py:75 | every sequence is a subsequence of itself |
| Seqs.SubsequenceCons | Repository/code/converters/PSAIS-HHN-Trainingsdata/converter.py:75 | an element in front of the larger sequence keeps a subsequence |
| Seqs.SubsequenceDropFirst | Repository/code/converters/PSAIS-HHN-Trainingsdata/converter.py:75 | dropping the first element of a subsequence keeps it one |
| Seqs.SubsequenceOfSuffix | Repository/code/converters/PSAIS-HHN-Trainingsdata/converter.py:75 | a subsequence of a suffix is one of the whole |
| Seqs.SubsequenceConcat | Repository/code/converters/PSAIS-HHN-Trainingsdata/converter.py:75 | subsequences concatenate |
| Seqs.SubsequenceTrans | Repository/code/converters/PSAIS-HHN-Trainingsdata/converter.py:71-77 | being a subsequence is transitive |
| Seqs.SubsequenceMembers | Repository/code/converters/PSAIS-HHN-Trainingsdata/converter.py:75 | every element of a subsequence occurs in the original |
| Seqs.Reverse | Repository/code/price-predictor/price_predictor.py:195 | the reverse has the same length |
| Seqs.ReverseIndex | Repository/code/price-predictor/price_predictor.py:195 | the i-th element of the reverse is the i-th from the end |
| Seqs.FlatMapAppend | Repository/code/sentiment-analyzer/classifiers/naive_bayes/naive_bayes.py:100-102 | flattening concatenated lists concatenates the flattenings |
| Seqs.FlatMapOne | Repository/code/sentiment-analyzer/classifiers/naive_bayes/naive_bayes.py:100-102 | flattening one element is its image |
| Seqs.PrefixAppend | Repository/code/es-dumper/es_to_csv.py:59-70 | a common head keeps prefixes prefixes |
| Seqs.PrefixOfConcat | Repository/code/es-dumper/es_to_csv.py:59-70 | a prefix is a prefix of every extension |
| Seqs.ConcatAssoc | Repository/code/es-dumper/es_to_csv.py:70 | concatenation is associative |
| Seqs.TakeSnoc | Repository/code/es-dumper/es_to_csv.py:59 | the prefix of length j + 1 is the prefix of length j and element j |
| Seqs.Map | Repository/code/sentiment-analyzer/aggregator.py:122 | map applies the function to each element, in order |
| Seqs.MapAppend | Repository/code/sentiment-analyzer/aggregator.py:122 | mapping concatenated lists concatenates the results |
| Seqs.MapSnoc | Repository/code/sentiment-analyzer/aggregator.py:122 | mapping one more element appends its image |
| Seqs.MapThree | Repository/code/sentiment-analyzer/classifiers/naive_bayes/naive_bayes.py:209-215 | mapping three elements gives their three images |
| Wrappers.CollectFacts | Repository/code/sentiment-analyzer/aggregator.py:60-71 | consuming a generator succeeds iff every element succeeds, and then yields their values in order |
| Wrappers.CollectStep | Repository/code/sentiment-analyzer/aggregator.py:60-71 | one more element appends its value, or ends with its failure |

## Left out

- Elasticsearch I/O: connecting, `ping`, `search`, `scroll`, `bulk` and `clear_index`. Responses are inputs (buckets, pages, hits), and actions are returned instead of being sent.
- The server-side side of the queries is not modelled: the date histogram, the averages, the terms aggregation and the `polarity_to_class` script.
- Aggregator.AggregationBody and PricePredictor.AggregationBody: the request bodies are literals with no contract; only their interval string is stated (Documents.IntervalRoundTrip).
- NLTK: `NaiveBayesClassifier.train` and `prob_classify` are an abstract function. It gives the winning label and its probability for a classifier and a feature map. The classifier type is a parameter.
- `show_most_informative_features` and the accuracy mode of `get_new_classifier` (the `random.shuffle` split and the reports) are randomness and reporting only.
- Persistence is a field of `NaiveBayes.ClassifierStore`: the pickle/lzma save and load, whose content is not modelled.
- `get_sentences` reads files with `errors="ignore"`. File reading is I/O, so sentences are inputs.
- Reading CSV files, the directory listing and opening files are I/O. Rows, listings and file contents are inputs. Output files are `CorpusFile` objects holding their text.
- The Spark job, the TextBlob polarity classifier, the Twitter and Yahoo Finance scrapers, the CSV stream parser and the auto-refresher are runtime plumbing and are not part of this model.
- Floating point: prices, sentiments, ratios and probabilities are `real`. IEEE rounding is not modelled, so `price * 1.01` is exact.
- Dates: `strptime` is not modelled. Elasticsearch `key_as_string` times are integer seconds since the epoch (UTC), and a trading day is a day number. The date format is injective, so merging by parsed time and merging by string agree.
- Text: Unicode case mapping is ASCII only. Python's `\s`, `str.isspace` and Go's `unicode.IsSpace` are fixed character sets.
- Spam patterns are kept as source text. Whether re.compile accepts a pattern and whether a compiled pattern matches a message are abstract functions (parameters `compiles` and `matches`).
- data_cleaner.go: `html.UnescapeString` and `strconv.Unquote` are parameters, because their grammars are not modelled. `bufio.Scanner` line-length limits and the panics on I/O errors are left out.
- DataCleaner: lines are sequences of Unicode scalar values, not Go byte strings. A line holding invalid UTF-8, whose bytes `strings.ToLower` would rewrite to U+FFFD, cannot be represented and is not modelled.
- Logging and progress messages are left out, as are the `print` in the converters' `except` clauses.
- Python object identity: tweets are rebuilt as values, except that `SentimentAnalyzer.TweetData` keeps the in-place update of a tweet's data. Aliasing between the elements of a list of tweets is not modelled.
- EsToCsv.Scroll: the scroll responses are a finite sequence of pages. If the pages run out before an empty page, the model ends the loop there.
- EsToCsv.Scroll: the loop is stated for any document builder and used with `HitDocument`; it is the same loop.
- NaiveBayes.MarkPresent: the `get_word_map` loop is stated for any element type and used with strings. `get_word_maps` is that function mapped over sentences and has no loop of its own.
- CustomMath.MedianAt: the caller's list is never reordered, because sequences are values. No separate statement is needed.
- EsToCsv.SortByDate: a non-string date is treated as a TypeError whenever two or more documents are sorted. Python would compare numbers among themselves.
- PricePredictor.PredictAndSave: `main`'s configuration, the clearing of the index and the bulk save are I/O and are not modelled. The histogram queries are not modelled either: the buckets are inputs.

/** The sentiment aggregator: each date-histogram bucket of classified tweets becomes one
    document holding the bucket's date, the number of tweets of each sentiment class and, when
    both "pos" and "neg" were counted, the share pos / (pos + neg). */
module Aggregator {
  import opened Wrappers
  import opened Documents

  const DOCUMENT_TYPE := "sentiment"
  const INDEX_NAME := "sentiments"

  /** The search body: a date histogram over "date" with the configured interval, each bucket
      split by the sentiment class of the naive Bayes classifier. */
  function AggregationBody(intervalMinutes: int): Value {
    VDict([
      ("size", VInt(0)),
      ("aggs", VDict([
        ("by_time", VDict([
          ("date_histogram", VDict([
            ("field", VStr("date")),
            ("interval", VStr(Interval(intervalMinutes)))])),
          ("aggs", VDict([
            ("by_sentiment", VDict([
              ("terms", VDict([
                ("script", VDict([
                  ("lang", VStr("groovy")),
                  ("file", VStr("polarity_to_class")),
                  ("params", VDict([("classifier", VStr("naive_bayes"))]))]))]))]))]))]))]))])
  }

  /** One class bucket inside a time bucket. */
  datatype TermBucket = TermBucket(key: string, docCount: int)

  /** One time bucket of the response: its key_as_string and its class buckets. */
  datatype DocGroup = DocGroup(keyAsString: string, bySentiment: seq<TermBucket>)

  /** The last doc_count recorded for a class key, if any. */
  function LastCount(terms: seq<TermBucket>, key: string): (r: Option<int>)
    ensures r.Some? <==> exists t :: t in terms && t.key == key
    ensures r.Some? ==> TermBucket(key, r.value) in terms
  {
    if terms == [] then None
    else
      var last := terms[|terms| - 1];
      assert terms == terms[..|terms| - 1] + [last];
      if last.key == key then Some(last.docCount) else LastCount(terms[..|terms| - 1], key)
  }

  /** The aggregation before the ratio: the date, then each class count assigned in turn. */
  function Counts(date: string, terms: seq<TermBucket>): Dict<string, Value> {
    if terms == [] then [("date", VStr(date))]
    else
      var last := terms[|terms| - 1];
      Set(Counts(date, terms[..|terms| - 1]), last.key, VInt(last.docCount))
  }

  function CountEntry(date: string, terms: seq<TermBucket>, k: string): Option<Value> {
    match LastCount(terms, k)
    case Some(c) => Some(VInt(c))
    case None => if k == "date" then Some(VStr(date)) else None
  }

  lemma {:induction false} CountsIsDict(date: string, terms: seq<TermBucket>)
    ensures IsDict(Counts(date, terms))
  {
    if terms != [] {
      var last := terms[|terms| - 1];
      CountsIsDict(date, terms[..|terms| - 1]);
      SetFacts(Counts(date, terms[..|terms| - 1]), last.key, VInt(last.docCount));
    } else {
      assert Keys(Counts(date, terms)) == ["date"];
    }
  }

  lemma {:induction false} CountsGet(date: string, terms: seq<TermBucket>, k: string)
    ensures Get(Counts(date, terms), k) == CountEntry(date, terms, k)
  {
    if terms != [] {
      var last := terms[|terms| - 1];
      CountsGet(date, terms[..|terms| - 1], k);
      SetGet(Counts(date, terms[..|terms| - 1]), last.key, VInt(last.docCount), k);
    }
  }

  /** Every class key holds its last count; "date" holds the bucket's date unless a class of
      that name overwrote it; nothing else is present. */
  lemma CountsFacts(date: string, terms: seq<TermBucket>)
    ensures IsDict(Counts(date, terms))
    ensures forall k :: Get(Counts(date, terms), k) == CountEntry(date, terms, k)
  {
    CountsIsDict(date, terms);
    forall k ensures Get(Counts(date, terms), k) == CountEntry(date, terms, k) {
      CountsGet(date, terms, k);
    }
  }

  lemma CountsSnoc(date: string, terms: seq<TermBucket>, j: nat)
    requires j < |terms|
    ensures Counts(date, terms[..j + 1]) == Set(Counts(date, terms[..j]), terms[j].key, VInt(terms[j].docCount))
  {
    assert terms[..j + 1][..j] == terms[..j];
  }

  /** Adds sentiment_relation when both "pos" and "neg" are present. */
  function WithRelation(aggregation: Dict<string, Value>): Result<Dict<string, Value>> {
    var pos := Get(aggregation, "pos");
    var neg := Get(aggregation, "neg");
    if pos.None? || neg.None? then Success(aggregation)
    else if !pos.value.VInt? || !neg.value.VInt? then Failure(WrongType)
    else if pos.value.i + neg.value.i == 0 then Failure(ZeroDivision)
    else Success(Set(aggregation, "sentiment_relation", VReal(pos.value.i as real / (pos.value.i + neg.value.i) as real)))
  }

  /** The aggregation of one time bucket. */
  function Aggregate(group: DocGroup): Result<Dict<string, Value>> {
    WithRelation(Counts(group.keyAsString, group.bySentiment))
  }

  /** The share of positive among positive and negative tweets. */
  function Ratio(pos: int, neg: int): real
    requires pos + neg != 0
  {
    pos as real / (pos + neg) as real
  }

  /** Aggregating a bucket fails only on a zero pos + neg sum, with ZeroDivision. */
  lemma AggregateFailure(group: DocGroup)
    ensures var pos := LastCount(group.bySentiment, "pos");
      var neg := LastCount(group.bySentiment, "neg");
      && (Aggregate(group).Failure? <==> pos.Some? && neg.Some? && pos.value + neg.value == 0)
      && (Aggregate(group).Failure? ==> Aggregate(group).error == ZeroDivision)
  {
    CountsGet(group.keyAsString, group.bySentiment, "pos");
    CountsGet(group.keyAsString, group.bySentiment, "neg");
  }

  /** With integer "pos" and "neg" summing to non-zero, the ratio is added. */
  lemma WithRelationRatio(aggregation: Dict<string, Value>, pos: int, neg: int)
    requires Get(aggregation, "pos") == Some(VInt(pos)) && Get(aggregation, "neg") == Some(VInt(neg))
    requires pos + neg != 0
    ensures WithRelation(aggregation) == Success(Set(aggregation, "sentiment_relation", VReal(Ratio(pos, neg))))
  {
  }

  /** With both classes counted and a non-zero sum, the aggregation is the counts plus the ratio. */
  lemma AggregateWithRatio(group: DocGroup)
    requires LastCount(group.bySentiment, "pos").Some? && LastCount(group.bySentiment, "neg").Some?
    requires LastCount(group.bySentiment, "pos").value + LastCount(group.bySentiment, "neg").value != 0
    ensures Aggregate(group) == Success(Set(Counts(group.keyAsString, group.bySentiment), "sentiment_relation",
      VReal(Ratio(LastCount(group.bySentiment, "pos").value, LastCount(group.bySentiment, "neg").value))))
  {
    CountsGet(group.keyAsString, group.bySentiment, "pos");
    CountsGet(group.keyAsString, group.bySentiment, "neg");
    WithRelationRatio(Counts(group.keyAsString, group.bySentiment),
      LastCount(group.bySentiment, "pos").value, LastCount(group.bySentiment, "neg").value);
  }

  /** Without both classes the aggregation is just the counts. */
  lemma AggregateWithoutRatio(group: DocGroup)
    requires LastCount(group.bySentiment, "pos").None? || LastCount(group.bySentiment, "neg").None?
    ensures Aggregate(group) == Success(Counts(group.keyAsString, group.bySentiment))
  {
    CountsGet(group.keyAsString, group.bySentiment, "pos");
    CountsGet(group.keyAsString, group.bySentiment, "neg");
  }

  /** sentiment_relation is pos / (pos + neg) when both classes were counted; every count and
      the date stay as counted. */
  lemma AggregateSuccess(group: DocGroup)
    requires Aggregate(group).Success?
    ensures var pos := LastCount(group.bySentiment, "pos");
      var neg := LastCount(group.bySentiment, "neg");
      var counts := Counts(group.keyAsString, group.bySentiment);
      var r := Aggregate(group).value;
      && IsDict(r)
      && (forall k :: k != "sentiment_relation" ==> Get(r, k) == Get(counts, k))
      && (pos.Some? && neg.Some? ==>
            pos.value + neg.value != 0 && Get(r, "sentiment_relation") == Some(VReal(Ratio(pos.value, neg.value))))
      && (pos.None? || neg.None? ==> Get(r, "sentiment_relation") == Get(counts, "sentiment_relation"))
  {
    var counts := Counts(group.keyAsString, group.bySentiment);
    CountsFacts(group.keyAsString, group.bySentiment);
    var pos := LastCount(group.bySentiment, "pos");
    var neg := LastCount(group.bySentiment, "neg");
    AggregateFailure(group);
    if pos.Some? && neg.Some? {
      AggregateWithRatio(group);
      SetFacts(counts, "sentiment_relation", VReal(Ratio(pos.value, neg.value)));
    } else {
      AggregateWithoutRatio(group);
    }
  }

  /** sentiment_relation is present in a bucket's aggregation exactly when both "pos" and "neg"
      were counted, given that no class is itself named sentiment_relation. */
  lemma RelationPresent(group: DocGroup)
    requires Aggregate(group).Success?
    requires forall t :: t in group.bySentiment ==> t.key != "sentiment_relation"
    ensures "sentiment_relation" in Keys(Aggregate(group).value) <==>
      (exists t :: t in group.bySentiment && t.key == "pos") && (exists t :: t in group.bySentiment && t.key == "neg")
  {
    AggregateSuccess(group);
    CountsFacts(group.keyAsString, group.bySentiment);
    assert Get(Counts(group.keyAsString, group.bySentiment), "sentiment_relation")
      == CountEntry(group.keyAsString, group.bySentiment, "sentiment_relation");
  }

  /** With non-negative counts and a positive sum the share lies in [0, 1]. */
  lemma RatioBounds(pos: int, neg: int)
    requires pos >= 0 && neg >= 0 && pos + neg > 0
    ensures 0.0 <= Ratio(pos, neg) <= 1.0
  {
    var s := (pos + neg) as real;
    assert Ratio(pos, neg) * s == pos as real;
  }

  /** Only the "pos" and "neg" counts decide the ratio: neutral or any other class does not. */
  lemma RelationIgnoresOtherClasses(g1: DocGroup, g2: DocGroup)
    requires LastCount(g1.bySentiment, "pos") == LastCount(g2.bySentiment, "pos")
    requires LastCount(g1.bySentiment, "neg") == LastCount(g2.bySentiment, "neg")
    requires LastCount(g1.bySentiment, "pos").Some? && LastCount(g1.bySentiment, "neg").Some?
    ensures Aggregate(g1).Success? <==> Aggregate(g2).Success?
    ensures Aggregate(g1).Success? ==>
      Get(Aggregate(g1).value, "sentiment_relation") == Get(Aggregate(g2).value, "sentiment_relation")
  {
    AggregateFailure(g1);
    AggregateFailure(g2);
    if Aggregate(g1).Success? {
      AggregateSuccess(g1);
      AggregateSuccess(g2);
    }
  }

  /** The aggregations of all buckets, in order; the first failing bucket ends the run. */
  function AggregateAll(groups: seq<DocGroup>): Result<seq<Dict<string, Value>>> {
    Collect(groups, Aggregate)
  }

  /** Exactly one aggregation per bucket, in bucket order, none skipped. */
  lemma AggregateAllFacts(groups: seq<DocGroup>)
    ensures AggregateAll(groups).Success? <==> forall i :: 0 <= i < |groups| ==> Aggregate(groups[i]).Success?
    ensures AggregateAll(groups).Success? ==>
      && |AggregateAll(groups).value| == |groups|
      && forall i :: 0 <= i < |groups| ==> AggregateAll(groups).value[i] == Aggregate(groups[i]).value
  {
    CollectFacts(groups, Aggregate);
  }

  lemma AggregateAllStep(groups: seq<DocGroup>, i: nat)
    requires i < |groups|
    ensures AggregateAll(groups[..i + 1]) ==
      match AggregateAll(groups[..i])
      case Failure(e) => Failure(e)
      case Success(init) =>
        match Aggregate(groups[i])
        case Failure(e) => Failure(e)
        case Success(a) => Success(init + [a])
  {
    CollectStep(groups, i, Aggregate);
  }

  /** Once a prefix fails, the whole run fails the same way. */
  lemma {:induction false} AggregateAllFailedPrefix(groups: seq<DocGroup>, i: nat, e: Error)
    requires i <= |groups| && AggregateAll(groups[..i]) == Failure(e)
    ensures AggregateAll(groups) == Failure(e)
    decreases |groups| - i
  {
    if i < |groups| {
      AggregateAllStep(groups, i);
      AggregateAllFailedPrefix(groups, i + 1, e);
    } else {
      assert groups[..i] == groups;
    }
  }

  /** get_aggregated_documents, consumed in full by main's tuple(). */
  method GetAggregatedDocuments(groups: seq<DocGroup>) returns (r: Result<seq<Dict<string, Value>>>)
    ensures r == AggregateAll(groups)
  {
    var aggregations: seq<Dict<string, Value>> := [];
    for i := 0 to |groups|
      invariant AggregateAll(groups[..i]) == Success(aggregations)
    {
      BucketStep(groups, i, aggregations);
      var group := groups[i];
      var aggregation: Dict<string, Value> := [("date", VStr(group.keyAsString))];
      for j := 0 to |group.bySentiment|
        invariant aggregation == Counts(group.keyAsString, group.bySentiment[..j])
      {
        CountsSnoc(group.keyAsString, group.bySentiment, j);
        var sentiment := group.bySentiment[j];
        aggregation := Set(aggregation, sentiment.key, VInt(sentiment.docCount));
      }
      assert group.bySentiment[..|group.bySentiment|] == group.bySentiment;
      WithRelationCases(aggregation);
      if "pos" in Keys(aggregation) && "neg" in Keys(aggregation) {
        var pos := Get(aggregation, "pos").value;
        var neg := Get(aggregation, "neg").value;
        if !pos.VInt? || !neg.VInt? {
          return Failure(WrongType);
        }
        if pos.i + neg.i == 0 {
          return Failure(ZeroDivision);
        }
        aggregation := Set(aggregation, "sentiment_relation", VReal(pos.i as real / (pos.i + neg.i) as real));
      }
      aggregations := aggregations + [aggregation];
    }
    assert groups[..|groups|] == groups;
    return Success(aggregations);
  }

  /** One more bucket: its failure ends the run, its success appends its aggregation. */
  lemma BucketStep(groups: seq<DocGroup>, i: nat, aggregations: seq<Dict<string, Value>>)
    requires i < |groups| && AggregateAll(groups[..i]) == Success(aggregations)
    ensures Aggregate(groups[i]).Failure? ==> AggregateAll(groups) == Failure(Aggregate(groups[i]).error)
    ensures Aggregate(groups[i]).Success? ==> AggregateAll(groups[..i + 1]) == Success(aggregations + [Aggregate(groups[i]).value])
  {
    AggregateAllStep(groups, i);
    if Aggregate(groups[i]).Failure? {
      AggregateAllFailedPrefix(groups, i + 1, Aggregate(groups[i]).error);
    }
  }

  /** WithRelation by the tests get_aggregated_documents makes, in its order. */
  lemma WithRelationCases(aggregation: Dict<string, Value>)
    ensures !("pos" in Keys(aggregation) && "neg" in Keys(aggregation)) ==> WithRelation(aggregation) == Success(aggregation)
    ensures "pos" in Keys(aggregation) && "neg" in Keys(aggregation) ==>
      var pos := Get(aggregation, "pos").value;
      var neg := Get(aggregation, "neg").value;
      && (!pos.VInt? || !neg.VInt? ==> WithRelation(aggregation) == Failure(WrongType))
      && (pos.VInt? && neg.VInt? && pos.i + neg.i == 0 ==> WithRelation(aggregation) == Failure(ZeroDivision))
      && (pos.VInt? && neg.VInt? && pos.i + neg.i != 0 ==>
            WithRelation(aggregation) == Success(Set(aggregation, "sentiment_relation", VReal(pos.i as real / (pos.i + neg.i) as real))))
  {
  }

  /** get_save_action. */
  function GetSaveAction(document: Dict<string, Value>): Dict<string, Value> {
    IndexAction(INDEX_NAME, DOCUMENT_TYPE, document)
  }

  /** A save action indexes into "sentiments" as type "sentiment" unless the document itself
      names those fields, and carries every field of the document. */
  lemma SaveActionFacts(document: Dict<string, Value>)
    requires IsDict(document)
    ensures var action := GetSaveAction(document);
      && (forall k :: k in Keys(document) ==> Get(action, k) == Get(document, k))
      && ("_op_type" !in Keys(document) ==> Get(action, "_op_type") == Some(VStr("index")))
      && ("_index" !in Keys(document) ==> Get(action, "_index") == Some(VStr("sentiments")))
      && ("_type" !in Keys(document) ==> Get(action, "_type") == Some(VStr("sentiment")))
  {
    IndexActionFacts(INDEX_NAME, DOCUMENT_TYPE, document);
  }

  /** save_aggregations without the bulk request: one save action per aggregation. */
  function SaveActions(aggregations: seq<Dict<string, Value>>): (r: seq<Dict<string, Value>>)
    ensures |r| == |aggregations|
  {
    seq(|aggregations|, i requires 0 <= i < |aggregations| => GetSaveAction(aggregations[i]))
  }
}

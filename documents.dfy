/** Python dictionaries as the sources use them: insertion-ordered association lists in
    which assigning an existing key overwrites its value in place, and the JSON-like values
    that Elasticsearch documents and bulk actions hold. */
module Documents {
  import opened Wrappers
  import opened Seqs
  import opened Text

  datatype Value =
    | VNone
    | VBool(b: bool)
    | VInt(i: int)
    | VReal(r: real)
    | VStr(s: string)
    | VTime(t: int)                      // a datetime, as seconds since the epoch
    | VDict(fields: seq<(string, Value)>)

  type Dict<K, V> = seq<(K, V)>

  function Keys<K, V>(d: Dict<K, V>): seq<K> {
    seq(|d|, i requires 0 <= i < |d| => d[i].0)
  }

  /** A well-formed dictionary holds each key once. */
  predicate IsDict<K(==), V>(d: Dict<K, V>) {
    Distinct(Keys(d))
  }

  /** d.get(k). */
  function Get<K(==), V>(d: Dict<K, V>, k: K): (r: Option<V>)
    ensures r.Some? <==> k in Keys(d)
  {
    if d == [] then None
    else if d[0].0 == k then
      assert Keys(d)[0] == k;
      Some(d[0].1)
    else
      assert Keys(d) == [d[0].0] + Keys(d[1..]);
      Get(d[1..], k)
  }

  /** Looking up the k-th key of a dictionary gives the k-th value. */
  lemma {:induction false} GetAt<K, V>(d: Dict<K, V>, k: nat)
    requires IsDict(d) && k < |d|
    ensures Get(d, d[k].0) == Some(d[k].1)
  {
    if k > 0 {
      assert Keys(d)[0] != Keys(d)[k];
      assert Keys(d[1..]) == Keys(d)[1..];
      GetAt(d[1..], k - 1);
    }
  }

  /** d[k] = v. */
  function Set<K(==), V>(d: Dict<K, V>, k: K, v: V): Dict<K, V> {
    if d == [] then [(k, v)]
    else if d[0].0 == k then [(k, v)] + d[1..]
    else [d[0]] + Set(d[1..], k, v)
  }

  /** After d[k] = v, k holds v and every other key what it held. */
  lemma {:induction false} SetGet<K, V>(d: Dict<K, V>, k: K, v: V, k': K)
    ensures Get(Set(d, k, v), k') == if k' == k then Some(v) else Get(d, k')
  {
    if d != [] && d[0].0 != k {
      SetGet(d[1..], k, v, k');
    }
  }

  /** d[k] = v keeps the keys in place and appends k when it is new. */
  lemma {:induction false} SetKeys<K, V>(d: Dict<K, V>, k: K, v: V)
    ensures Keys(Set(d, k, v)) == if k in Keys(d) then Keys(d) else Keys(d) + [k]
  {
    if d != [] {
      assert Keys(d) == [d[0].0] + Keys(d[1..]);
      if d[0].0 == k {
        assert Keys(Set(d, k, v)) == [k] + Keys(d[1..]);
      } else {
        SetKeys(d[1..], k, v);
        assert Keys(Set(d, k, v)) == [d[0].0] + Keys(Set(d[1..], k, v));
      }
    }
  }

  /** Appending a new element keeps a sequence free of repetitions. */
  lemma DistinctSnoc<T>(s: seq<T>, x: T)
    requires Distinct(s) && x !in s
    ensures Distinct(s + [x])
  {
    assert forall i :: 0 <= i < |s| ==> (s + [x])[i] == s[i];
  }

  lemma SetFacts<K, V>(d: Dict<K, V>, k: K, v: V)
    ensures forall k' :: Get(Set(d, k, v), k') == if k' == k then Some(v) else Get(d, k')
    ensures Keys(Set(d, k, v)) == if k in Keys(d) then Keys(d) else Keys(d) + [k]
    ensures IsDict(d) ==> IsDict(Set(d, k, v))
  {
    forall k' ensures Get(Set(d, k, v), k') == if k' == k then Some(v) else Get(d, k') {
      SetGet(d, k, v, k');
    }
    SetKeys(d, k, v);
    if IsDict(d) && k !in Keys(d) {
      DistinctSnoc(Keys(d), k);
    }
  }

  /** d.update(e): the entries of e assigned into d one after the other. */
  function Update<K(==), V>(d: Dict<K, V>, e: Dict<K, V>): Dict<K, V>
    decreases |e|
  {
    if e == [] then d else Update(Set(d, e[0].0, e[0].1), e[1..])
  }

  /** After d.update(e), e's entries win and d's other entries stay. */
  lemma {:induction false} UpdateGet<K, V>(d: Dict<K, V>, e: Dict<K, V>, k: K)
    requires IsDict(e)
    ensures Get(Update(d, e), k) == if k in Keys(e) then Get(e, k) else Get(d, k)
    ensures IsDict(d) ==> IsDict(Update(d, e))
    decreases |e|
  {
    if e != [] {
      assert Keys(e) == [e[0].0] + Keys(e[1..]);
      assert Keys(e[1..]) == Keys(e)[1..];
      assert e[0].0 !in Keys(e[1..]) by {
        forall j | 0 <= j < |Keys(e[1..])| ensures Keys(e[1..])[j] != e[0].0 {
          assert Keys(e)[j + 1] != Keys(e)[0];
        }
      }
      UpdateGet(Set(d, e[0].0, e[0].1), e[1..], k);
      SetFacts(d, e[0].0, e[0].1);
    }
  }

  /** The date-histogram interval string for a number of minutes: "{}m".format(minutes). */
  function Interval(minutes: int): string {
    IntToString(minutes) + "m"
  }

  /** The interval string ends in "m" and reads back as the number of minutes. */
  lemma IntervalRoundTrip(minutes: int)
    ensures var s := Interval(minutes);
      |s| > 0 && s[|s| - 1] == 'm' && ParseInt(s[..|s| - 1]) == Some(minutes)
  {
    var s := Interval(minutes);
    assert s[..|s| - 1] == IntToString(minutes);
    IntToStringRoundTrip(minutes);
  }

  /** The three fields every bulk action starts with. */
  function ActionFields(index: string, docType: string): Dict<string, Value> {
    [("_op_type", VStr("index")), ("_index", VStr(index)), ("_type", VStr(docType))]
  }

  lemma ActionFieldsGet(index: string, docType: string, k: string)
    ensures IsDict(ActionFields(index, docType))
    ensures Get(ActionFields(index, docType), k) ==
      if k == "_op_type" then Some(VStr("index"))
      else if k == "_index" then Some(VStr(index))
      else if k == "_type" then Some(VStr(docType))
      else None
  {
    var base := ActionFields(index, docType);
    assert Keys(base) == ["_op_type", "_index", "_type"];
    assert "_op_type"[1] != "_index"[1] && "_op_type"[1] != "_type"[1] && "_index"[1] != "_type"[1];
    var tail := [("_index", VStr(index)), ("_type", VStr(docType))];
    assert base[1..] == tail;
    var last := [("_type", VStr(docType))];
    assert tail[1..] == last && last[1..] == [];
    if k != "_op_type" {
      assert Get(base, k) == Get(tail, k);
      if k != "_index" {
        assert Get(tail, k) == Get(last, k);
        if k != "_type" {
          assert Get(last, k) == Get(last[1..], k);
        }
      }
    }
  }

  /** The bulk action that indexes `document` into `index` under `docType`: the three action
      fields, then `action.update(document)`. */
  function IndexAction(index: string, docType: string, document: Dict<string, Value>): Dict<string, Value> {
    Update(ActionFields(index, docType), document)
  }

  /** One field of an index action: the document's, else the action field's. */
  lemma IndexActionGet(index: string, docType: string, document: Dict<string, Value>, k: string)
    requires IsDict(document)
    ensures IsDict(IndexAction(index, docType, document))
    ensures Get(IndexAction(index, docType, document), k) ==
      if k in Keys(document) then Get(document, k)
      else if k == "_op_type" then Some(VStr("index"))
      else if k == "_index" then Some(VStr(index))
      else if k == "_type" then Some(VStr(docType))
      else None
  {
    ActionFieldsGet(index, docType, k);
    UpdateGet(ActionFields(index, docType), document, k);
  }

  /** An index action carries every field of the document, and the action fields where the
      document has none of its own. */
  lemma IndexActionFacts(index: string, docType: string, document: Dict<string, Value>)
    requires IsDict(document)
    ensures IsDict(IndexAction(index, docType, document))
    ensures forall k :: k in Keys(document) ==> Get(IndexAction(index, docType, document), k) == Get(document, k)
    ensures "_op_type" !in Keys(document) ==> Get(IndexAction(index, docType, document), "_op_type") == Some(VStr("index"))
    ensures "_index" !in Keys(document) ==> Get(IndexAction(index, docType, document), "_index") == Some(VStr(index))
    ensures "_type" !in Keys(document) ==> Get(IndexAction(index, docType, document), "_type") == Some(VStr(docType))
    ensures forall k :: k !in Keys(document) && k != "_op_type" && k != "_index" && k != "_type" ==>
      Get(IndexAction(index, docType, document), k) == None
  {
    forall k {
      IndexActionGet(index, docType, document, k);
    }
    IndexActionGet(index, docType, document, "_index");
  }
}

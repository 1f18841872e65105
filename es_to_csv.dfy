/** The Elasticsearch dumper: the hits of a scroll search are projected onto the task's field
    names, hits missing a field are skipped, the dump stops at max_documents, and main sorts
    the documents of a task by their date before writing them out. */
module EsToCsv {
  import opened Wrappers
  import opened Seqs
  import opened Text
  import opened Sorting
  import opened Documents

  /** One hit of a search response: its _id and its _source. */
  datatype Hit = Hit(id: string, source: Dict<string, Value>)

  /** One scroll response: hits.total and hits.hits. */
  datatype Page = Page(total: int, hits: seq<Hit>)

  /** The parts of a dump task that get_documents reads beyond the search itself. */
  datatype Task = Task(fieldnames: seq<string>, maxDocuments: int)

  // ---------------------------------------------------------------------------------------
  // One hit
  // ---------------------------------------------------------------------------------------

  /** The hit's source after hit["_source"]["id"] = hit["_id"]. */
  function WithId(hit: Hit): Dict<string, Value> {
    Set(hit.source, "id", VStr(hit.id))
  }

  /** The document built from source for the field names: each name assigned its value in
      turn; None when a name is missing (the KeyError that skips the hit). */
  function Project(source: Dict<string, Value>, names: seq<string>): Option<Dict<string, Value>> {
    if names == [] then Some([])
    else
      var n := |names| - 1;
      match Project(source, names[..n])
        case None => None
        case Some(d) =>
          match Get(source, names[n])
            case None => None
            case Some(v) => Some(Set(d, names[n], v))
  }

  lemma {:induction false} ProjectSome(source: Dict<string, Value>, names: seq<string>)
    ensures Project(source, names).Some? <==> forall i :: 0 <= i < |names| ==> names[i] in Keys(source)
  {
    if names != [] {
      var n := |names| - 1;
      ProjectSome(source, names[..n]);
      if Project(source, names[..n]).None? {
        var i :| 0 <= i < n && names[..n][i] !in Keys(source);
        assert names[i] !in Keys(source);
      } else {
        assert forall i :: 0 <= i < n ==> names[..n][i] == names[i];
      }
    }
  }

  lemma {:induction false} ProjectKeys(source: Dict<string, Value>, names: seq<string>)
    ensures Project(source, names).Some? ==>
      IsDict(Project(source, names).value) && Keys(Project(source, names).value) == Dedup(names)
  {
    if names != [] {
      var n := |names| - 1;
      ProjectKeys(source, names[..n]);
      if Project(source, names[..n]).Some? && Get(source, names[n]).Some? {
        var d := Project(source, names[..n]).value;
        SetKeys(d, names[n], Get(source, names[n]).value);
        DedupFacts(names[..n]);
        if names[n] !in Keys(d) {
          DistinctSnoc(Keys(d), names[n]);
        }
      }
    }
  }

  lemma {:induction false} ProjectGet(source: Dict<string, Value>, names: seq<string>, k: string)
    ensures Project(source, names).Some? ==>
      Get(Project(source, names).value, k) == if k in names then Get(source, k) else None
  {
    if names != [] {
      var n := |names| - 1;
      ProjectGet(source, names[..n], k);
      if Project(source, names[..n]).Some? && Get(source, names[n]).Some? {
        var d := Project(source, names[..n]).value;
        SetGet(d, names[n], Get(source, names[n]).value, k);
        assert names == names[..n] + [names[n]];
        assert k in names <==> k in names[..n] || k == names[n];
      }
    }
  }

  /** A document exists iff every field name is in the source; it then has exactly the field
      names as keys, each once, in the order of their first mention, and the source's values. */
  lemma ProjectFacts(source: Dict<string, Value>, names: seq<string>)
    ensures Project(source, names).Some? <==> forall i :: 0 <= i < |names| ==> names[i] in Keys(source)
    ensures Project(source, names).Some? ==>
      var d := Project(source, names).value;
      IsDict(d) && Keys(d) == Dedup(names) &&
      (forall k :: k in names ==> Get(d, k) == Get(source, k)) &&
      (forall k :: k !in names ==> Get(d, k) == None)
  {
    ProjectSome(source, names);
    ProjectKeys(source, names);
    forall k ensures Project(source, names).Some? ==>
      Get(Project(source, names).value, k) == if k in names then Get(source, k) else None
    {
      ProjectGet(source, names, k);
    }
  }

  /** A missing field name makes the whole projection fail. */
  lemma {:induction false} ProjectMissing(source: Dict<string, Value>, names: seq<string>, i: nat)
    requires i < |names| && Get(source, names[i]).None?
    ensures Project(source, names).None?
  {
    ProjectFacts(source, names);
  }

  /** The document a hit yields, if it has every requested field. */
  function HitDocument(hit: Hit, fieldnames: seq<string>): Option<Dict<string, Value>> {
    Project(WithId(hit), fieldnames)
  }

  /** HitDocument for a fixed list of field names. */
  function DocumentOf(fieldnames: seq<string>): Hit -> Option<Dict<string, Value>> {
    hit => HitDocument(hit, fieldnames)
  }

  /** A requested id field is the hit's _id, whatever the source says. */
  lemma HitDocumentId(hit: Hit, fieldnames: seq<string>)
    requires "id" in fieldnames && HitDocument(hit, fieldnames).Some?
    ensures Get(HitDocument(hit, fieldnames).value, "id") == Some(VStr(hit.id))
  {
    ProjectFacts(WithId(hit), fieldnames);
    SetFacts(hit.source, "id", VStr(hit.id));
  }

  /** The `for fieldname in ...` loop of get_documents for one hit. */
  method BuildDocument(hit: Hit, fieldnames: seq<string>) returns (document: Option<Dict<string, Value>>)
    ensures document == HitDocument(hit, fieldnames)
  {
    var source := Set(hit.source, "id", VStr(hit.id));
    var doc: Dict<string, Value> := [];
    var i := 0;
    while i < |fieldnames|
      invariant 0 <= i <= |fieldnames|
      invariant Project(source, fieldnames[..i]) == Some(doc)
    {
      assert fieldnames[..i + 1][..i] == fieldnames[..i];
      var v := Get(source, fieldnames[i]);
      if v.None? {
        ProjectMissing(source, fieldnames, i);
        return None;
      }
      doc := Set(doc, fieldnames[i], v.value);
      i := i + 1;
    }
    assert fieldnames[..i] == fieldnames;
    return Some(doc);
  }

  // ---------------------------------------------------------------------------------------
  // The scroll loop of get_documents
  // ---------------------------------------------------------------------------------------

  /** The debug log of a non-empty page reads the date of its first and last hit. */
  predicate DatesLogged(hits: seq<Hit>) {
    hits == [] || ("date" in Keys(hits[0].source) && "date" in Keys(hits[|hits| - 1].source))
  }

  /** The documents yielded from a page's hits, with processed documents before them, and
      whether max_documents was reached. The loop is stated for any way `doc` of building
      a hit's document (None: the hit lacks a field); get_documents uses HitDocument. */
  datatype HitsRun<D> = HitsRun(docs: seq<D>, stopped: bool)

  function DumpHits<D>(hits: seq<Hit>, doc: Hit -> Option<D>, maxDocuments: int, processed: nat): HitsRun<D> {
    if hits == [] then HitsRun([], false)
    else match doc(hits[0])
      case None => DumpHits(hits[1..], doc, maxDocuments, processed)
      case Some(d) =>
        if processed + 1 >= maxDocuments then HitsRun([d], true)
        else
          var r := DumpHits(hits[1..], doc, maxDocuments, processed + 1);
          HitsRun([d] + r.docs, r.stopped)
  }

  /** The documents the generator yielded, and the exception that ended it, if any. */
  datatype Dump<D> = Dump(documents: seq<D>, error: Option<Error>)

  /** The scroll loop from a page on, with processed documents yielded before it. The
      progress computation divides by the page's hits.total. */
  function DumpPages<D>(pages: seq<Page>, doc: Hit -> Option<D>, maxDocuments: int, processed: nat): Dump<D> {
    if pages == [] then Dump([], None)
    else
      var page := pages[0];
      if page.total == 0 then Dump([], Some(ZeroDivision))
      else if !DatesLogged(page.hits) then Dump([], Some(MissingKey))
      else
        var r := DumpHits(page.hits, doc, maxDocuments, processed);
        if r.stopped || page.hits == [] then Dump(r.docs, None)
        else
          var rest := DumpPages(pages[1..], doc, maxDocuments, processed + |r.docs|);
          Dump(r.docs + rest.documents, rest.error)
  }

  /** get_documents over the initial search's hits.total and the scroll responses, in order. */
  function Dumped(total: int, pages: seq<Page>, task: Task): Dump<Dict<string, Value>> {
    if total > 0 then DumpPages(pages, DocumentOf(task.fieldnames), task.maxDocuments, 0) else Dump([], None)
  }

  /** The `for hit in ...` loop of get_documents over one page, with processed documents
      yielded before it. */
  method DumpPage<D>(hits: seq<Hit>, doc: Hit -> Option<D>, maxDocuments: int, processed: nat)
    returns (docs: seq<D>, stopped: bool)
    ensures HitsRun(docs, stopped) == DumpHits(hits, doc, maxDocuments, processed)
  {
    docs := [];
    var j := 0;
    while j < |hits|
      invariant 0 <= j <= |hits|
      invariant var r := DumpHits(hits[j..], doc, maxDocuments, processed + |docs|);
        DumpHits(hits, doc, maxDocuments, processed) == HitsRun(docs + r.docs, r.stopped)
    {
      assert hits[j..][1..] == hits[j + 1..];
      var document := doc(hits[j]);
      if document.Some? {
        docs := docs + [document.value];
        if processed + |docs| >= maxDocuments {
          return docs, true;
        }
      }
      j := j + 1;
    }
    return docs, false;
  }

  /** The cases of one page of the scroll loop. */
  lemma DumpPagesHead<D>(q: seq<Page>, doc: Hit -> Option<D>, maxDocuments: int, processed: nat)
    requires q != []
    ensures q[0].total == 0 ==> DumpPages(q, doc, maxDocuments, processed) == Dump([], Some(ZeroDivision))
    ensures q[0].total != 0 && !DatesLogged(q[0].hits) ==>
      DumpPages(q, doc, maxDocuments, processed) == Dump([], Some(MissingKey))
    ensures var r := DumpHits(q[0].hits, doc, maxDocuments, processed);
      q[0].total != 0 && DatesLogged(q[0].hits) && (r.stopped || q[0].hits == []) ==>
        DumpPages(q, doc, maxDocuments, processed) == Dump(r.docs, None)
    ensures var r := DumpHits(q[0].hits, doc, maxDocuments, processed);
      var rest := DumpPages(q[1..], doc, maxDocuments, processed + |r.docs|);
      q[0].total != 0 && DatesLogged(q[0].hits) && !r.stopped && q[0].hits != [] ==>
        DumpPages(q, doc, maxDocuments, processed) == Dump(r.docs + rest.documents, rest.error)
  {
  }

  /** get_documents, drained. */
  method GetDocuments(total: int, pages: seq<Page>, task: Task) returns (documents: seq<Dict<string, Value>>, error: Option<Error>)
    ensures Dump(documents, error) == Dumped(total, pages, task)
  {
    if total <= 0 {
      return [], None;
    }
    documents, error := Scroll(pages, DocumentOf(task.fieldnames), task.maxDocuments);
  }

  /** The scroll loop of get_documents, page after page. */
  method Scroll<D>(pages: seq<Page>, doc: Hit -> Option<D>, maxDocuments: int) returns (documents: seq<D>, error: Option<Error>)
    ensures Dump(documents, error) == DumpPages(pages, doc, maxDocuments, 0)
  {
    documents := [];
    error := None;
    var k := 0;
    ghost var unread := pages;
    while k < |pages|
      invariant 0 <= k <= |pages| && unread == pages[k..]
      invariant var rest := DumpPages(unread, doc, maxDocuments, |documents|);
        DumpPages(pages, doc, maxDocuments, 0) == Dump(documents + rest.documents, rest.error)
    {
      var page := pages[k];
      assert unread[0] == page;
      DumpPagesHead(unread, doc, maxDocuments, |documents|);
      if page.total == 0 {
        return documents, Some(ZeroDivision);
      }
      if !DatesLogged(page.hits) {
        return documents, Some(MissingKey);
      }
      var docs, stopped := DumpPage(page.hits, doc, maxDocuments, |documents|);
      ScrollStep(pages, doc, maxDocuments, documents, unread, docs, stopped);
      documents := documents + docs;
      if stopped || page.hits == [] {
        return;
      }
      unread := unread[1..];
      k := k + 1;
    }
  }

  /** One page of the scroll loop that neither fails nor ends it carries the loop's
      invariant over to the next page; one that ends it completes the dump. */
  lemma ScrollStep<D>(pages: seq<Page>, doc: Hit -> Option<D>, maxDocuments: int, documents: seq<D>,
                      unread: seq<Page>, docs: seq<D>, stopped: bool)
    requires unread != [] && unread[0].total != 0 && DatesLogged(unread[0].hits)
    requires var rest := DumpPages(unread, doc, maxDocuments, |documents|);
      DumpPages(pages, doc, maxDocuments, 0) == Dump(documents + rest.documents, rest.error)
    requires HitsRun(docs, stopped) == DumpHits(unread[0].hits, doc, maxDocuments, |documents|)
    ensures stopped || unread[0].hits == [] ==> DumpPages(pages, doc, maxDocuments, 0) == Dump(documents + docs, None)
    ensures var rest := DumpPages(unread[1..], doc, maxDocuments, |documents + docs|);
      !stopped && unread[0].hits != [] ==>
        DumpPages(pages, doc, maxDocuments, 0) == Dump(documents + docs + rest.documents, rest.error)
  {
    DumpPagesHead(unread, doc, maxDocuments, |documents|);
    if !stopped && unread[0].hits != [] {
      ConcatAssoc(documents, docs, DumpPages(unread[1..], doc, maxDocuments, |documents| + |docs|).documents);
    }
  }

  // ---------------------------------------------------------------------------------------
  // Properties of the dump
  // ---------------------------------------------------------------------------------------

  /** Every document a hit would yield, page after page, if nothing stopped the loop. */
  function HitCandidates<D>(hits: seq<Hit>, doc: Hit -> Option<D>): seq<D> {
    if hits == [] then []
    else
      (match doc(hits[0]) case Some(d) => [d] case None => []) + HitCandidates(hits[1..], doc)
  }

  function Candidates<D>(pages: seq<Page>, doc: Hit -> Option<D>): seq<D> {
    if pages == [] then [] else HitCandidates(pages[0].hits, doc) + Candidates(pages[1..], doc)
  }

  /** A page yields the documents of its hits in order, skipping the incomplete ones, and
      stops right after the document that brings the count to max_documents. */
  lemma {:induction false} DumpHitsFacts<D>(hits: seq<Hit>, doc: Hit -> Option<D>, maxDocuments: int, processed: nat)
    requires processed == 0 || processed < maxDocuments
    ensures var r := DumpHits(hits, doc, maxDocuments, processed);
      r.docs <= HitCandidates(hits, doc) &&
      (r.stopped ==> processed + |r.docs| == (if processed < maxDocuments then maxDocuments else 1)) &&
      (!r.stopped ==> (r.docs == HitCandidates(hits, doc) &&
        (r.docs == [] || processed + |r.docs| < maxDocuments)))
  {
    if hits != [] {
      match doc(hits[0])
      case None =>
        DumpHitsFacts(hits[1..], doc, maxDocuments, processed);
      case Some(d) =>
        if processed + 1 < maxDocuments {
          DumpHitsFacts(hits[1..], doc, maxDocuments, processed + 1);
        }
    }
  }

  /** The documents are a prefix of what all the hits would yield: nothing is reordered, and
      only incomplete hits are skipped before the dump ends. */
  lemma {:induction false} DumpPagesPrefix<D>(pages: seq<Page>, doc: Hit -> Option<D>, maxDocuments: int, processed: nat)
    requires processed == 0 || processed < maxDocuments
    ensures DumpPages(pages, doc, maxDocuments, processed).documents <= Candidates(pages, doc)
    ensures processed + |DumpPages(pages, doc, maxDocuments, processed).documents| <= (if maxDocuments < 1 then 1 else maxDocuments)
  {
    if pages != [] {
      var page := pages[0];
      var r := DumpHits(page.hits, doc, maxDocuments, processed);
      if page.total != 0 && DatesLogged(page.hits) && !r.stopped && page.hits != [] {
        DumpHitsFacts(page.hits, doc, maxDocuments, processed);
        DumpPagesPrefix(pages[1..], doc, maxDocuments, processed + |r.docs|);
        var rest := DumpPages(pages[1..], doc, maxDocuments, processed + |r.docs|);
        DumpPagesPrefixStep(pages, doc, maxDocuments, processed, r, rest);
      } else {
        DumpPagesPrefixEnd(pages, doc, maxDocuments, processed);
      }
    }
  }

  /** The case of DumpPagesPrefix for a page that ends the loop. */
  lemma DumpPagesPrefixEnd<D>(pages: seq<Page>, doc: Hit -> Option<D>, maxDocuments: int, processed: nat)
    requires processed == 0 || processed < maxDocuments
    requires pages != []
    requires var r := DumpHits(pages[0].hits, doc, maxDocuments, processed);
      !(pages[0].total != 0 && DatesLogged(pages[0].hits) && !r.stopped && pages[0].hits != [])
    ensures DumpPages(pages, doc, maxDocuments, processed).documents <= Candidates(pages, doc)
    ensures processed + |DumpPages(pages, doc, maxDocuments, processed).documents| <= (if maxDocuments < 1 then 1 else maxDocuments)
  {
    var r := DumpHits(pages[0].hits, doc, maxDocuments, processed);
    DumpHitsFacts(pages[0].hits, doc, maxDocuments, processed);
    DumpPagesHead(pages, doc, maxDocuments, processed);
    if pages[0].total != 0 && DatesLogged(pages[0].hits) {
      assert DumpPages(pages, doc, maxDocuments, processed).documents == r.docs;
      PrefixOfConcat(r.docs, HitCandidates(pages[0].hits, doc), Candidates(pages[1..], doc));
    }
  }

  /** The step of DumpPagesPrefix for a page after which the loop goes on. */
  lemma DumpPagesPrefixStep<D>(pages: seq<Page>, doc: Hit -> Option<D>, maxDocuments: int, processed: nat,
                                r: HitsRun<D>, rest: Dump<D>)
    requires pages != [] && pages[0].total != 0 && DatesLogged(pages[0].hits) && pages[0].hits != []
    requires r == DumpHits(pages[0].hits, doc, maxDocuments, processed)
    requires !r.stopped && r.docs == HitCandidates(pages[0].hits, doc)
    requires rest == DumpPages(pages[1..], doc, maxDocuments, processed + |r.docs|)
    requires rest.documents <= Candidates(pages[1..], doc)
    requires processed + |r.docs| + |rest.documents| <= (if maxDocuments < 1 then 1 else maxDocuments)
    ensures DumpPages(pages, doc, maxDocuments, processed).documents <= Candidates(pages, doc)
    ensures processed + |DumpPages(pages, doc, maxDocuments, processed).documents| <= (if maxDocuments < 1 then 1 else maxDocuments)
  {
    DumpPagesHead(pages, doc, maxDocuments, processed);
    assert DumpPages(pages, doc, maxDocuments, processed).documents == r.docs + rest.documents;
    assert Candidates(pages, doc) == r.docs + Candidates(pages[1..], doc);
    PrefixAppend(r.docs, rest.documents, Candidates(pages[1..], doc));
  }

  /** get_documents yields at most max(1, max_documents) documents, in hit order; with a
      non-positive initial total no page is requested and nothing is yielded. */
  lemma DumpedFacts(total: int, pages: seq<Page>, task: Task)
    ensures Dumped(total, pages, task).documents <= Candidates(pages, DocumentOf(task.fieldnames))
    ensures |Dumped(total, pages, task).documents| <= (if task.maxDocuments < 1 then 1 else task.maxDocuments)
    ensures total <= 0 ==> Dumped(total, pages, task) == Dump([], None)
  {
    DumpPagesPrefix(pages, DocumentOf(task.fieldnames), task.maxDocuments, 0);
  }

  /** A page without hits ends the loop: later pages are never requested. */
  lemma {:induction false} EmptyPageEnds<D>(pages: seq<Page>, doc: Hit -> Option<D>, maxDocuments: int, processed: nat, k: nat)
    requires k < |pages| && pages[k].hits == []
    ensures DumpPages(pages, doc, maxDocuments, processed) == DumpPages(pages[..k + 1], doc, maxDocuments, processed)
  {
    var front := pages[..k + 1];
    assert front[0] == pages[0];
    DumpPagesHead(pages, doc, maxDocuments, processed);
    DumpPagesHead(front, doc, maxDocuments, processed);
    if k > 0 {
      assert front[1..] == pages[1..][..k];
      var r := DumpHits(pages[0].hits, doc, maxDocuments, processed);
      EmptyPageEnds(pages[1..], doc, maxDocuments, processed + |r.docs|, k - 1);
    }
  }

  // ---------------------------------------------------------------------------------------
  // Sorting in main
  // ---------------------------------------------------------------------------------------

  /** The date of a document whose date is a string. */
  function DateOf(document: Dict<string, Value>): string {
    match Get(document, "date")
      case Some(v) => if v.VStr? then v.s else []
      case None => []
  }

  function ByDate(): (Dict<string, Value>, Dict<string, Value>) -> bool {
    (a: Dict<string, Value>, b: Dict<string, Value>) => StrLe(DateOf(a), DateOf(b))
  }

  lemma ByDateIsTotalPreorder()
    ensures TotalPreorder(ByDate())
  {
    forall a: Dict<string, Value>, b: Dict<string, Value> ensures ByDate()(a, b) || ByDate()(b, a) {
      StrLeTotal(DateOf(a), DateOf(b));
    }
    forall a: Dict<string, Value>, b: Dict<string, Value>, c: Dict<string, Value> | ByDate()(a, b) && ByDate()(b, c)
      ensures ByDate()(a, c)
    {
      StrLeTrans(DateOf(a), DateOf(b), DateOf(c));
    }
  }

  /** sorted(documents, key=lambda x: x["date"]): the key of every document is read, so a
      missing date raises KeyError; string dates sort stably; other dates are compared only
      when there are two documents or more, which raises TypeError. */
  function SortByDate(documents: seq<Dict<string, Value>>): Result<seq<Dict<string, Value>>> {
    if exists i :: 0 <= i < |documents| && Get(documents[i], "date").None? then Failure(MissingKey)
    else if forall i :: 0 <= i < |documents| ==> Get(documents[i], "date").value.VStr? then
      Success(Sort(documents, ByDate()))
    else if |documents| <= 1 then Success(documents)
    else Failure(WrongType)
  }

  /** Sorting keeps the documents, orders them by date and keeps the order of documents with
      the same date. */
  lemma SortByDateFacts(documents: seq<Dict<string, Value>>)
    requires SortByDate(documents).Success?
    ensures var r := SortByDate(documents).value;
      multiset(r) == multiset(documents) &&
      (forall i, j :: 0 <= i < j < |r| ==> StrLe(DateOf(r[i]), DateOf(r[j]))) &&
      (forall y :: ClassOf(r, y, ByDate()) == ClassOf(documents, y, ByDate()))
  {
    if forall i :: 0 <= i < |documents| ==> Get(documents[i], "date").value.VStr? {
      ByDateIsTotalPreorder();
      SortFacts(documents, ByDate());
      forall y ensures ClassOf(Sort(documents, ByDate()), y, ByDate()) == ClassOf(documents, y, ByDate()) {
        SortStable(documents, y, ByDate());
      }
    }
  }
}

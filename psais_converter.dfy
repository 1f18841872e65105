/** The PSAIS-HHN converter: every CSV file of the working directory (delimiter ';') is read
    row by row, the stripped message in column 3 is added to the list named by the tag in
    column 1, and after each file the three corpus writers append the whole lists so far. */
module PsaisConverter {
  import opened Wrappers
  import opened Seqs
  import opened Text
  import opened TweetFilter

  /** A directory entry: its name and, when it is read, its rows. */
  datatype CsvFile = CsvFile(name: string, rows: seq<seq<string>>)

  /** file.endswith(".csv"). */
  predicate IsCsv(name: string) {
    |name| >= 4 && name[|name| - 4..] == ".csv"
  }

  /** The contents of results/negative.txt, results/positive.txt and results/neutral.txt. */
  datatype Corpora = Corpora(negative: string, positive: string, neutral: string)

  /** One row: column 3 is read before the try, so a row with fewer than four columns raises
      IndexError out of main; the tag comparisons cannot raise once column 3 exists. */
  function RouteRow(lists: Lists, row: seq<string>): Result<Lists> {
    if |row| < 4 then Failure(IndexOutOfRange)
    else
      var tweet := Strip(row[3]);
      Success(Lists(
        lists.positive + (if row[1] == "positiv" then [tweet] else []),
        lists.negative + (if row[1] == "negativ" then [tweet] else []),
        lists.neutral + (if row[1] == "neutral" then [tweet] else [])))
  }

  /** The lists after the rows of one file, and the error that ended the file, if any. */
  datatype Routed = Routed(lists: Lists, error: Option<Error>)

  function RouteRows(lists: Lists, rows: seq<seq<string>>): Routed {
    if rows == [] then Routed(lists, None)
    else
      var r := RouteRows(lists, rows[..|rows| - 1]);
      if r.error.Some? then r
      else match RouteRow(r.lists, rows[|rows| - 1])
        case Failure(e) => Routed(r.lists, Some(e))
        case Success(l) => Routed(l, None)
  }

  /** The corpus text of a list of tweets. */
  function Corpus(tweets: seq<string>): string {
    LinesText(FilteredAll(tweets))
  }

  /** createNegCorpus, createPosCorpus and createNeutralCorpus over the current lists. */
  function Written(c: Corpora, lists: Lists): Corpora {
    Corpora(c.negative + Corpus(lists.negative), c.positive + Corpus(lists.positive), c.neutral + Corpus(lists.neutral))
  }

  /** The lists, the corpora, and the exception that ended main, if any. */
  datatype State = State(lists: Lists, corpora: Corpora, error: Option<Error>)

  function ConvertFile(lists: Lists, corpora: Corpora, file: CsvFile): State {
    if !IsCsv(file.name) then State(lists, corpora, None)
    else
      var r := RouteRows(lists, file.rows);
      if r.error.Some? then State(r.lists, corpora, r.error)
      else State(r.lists, Written(corpora, r.lists), None)
  }

  /** main over the directory listing, in listing order. */
  function Convert(lists: Lists, corpora: Corpora, files: seq<CsvFile>): State {
    if files == [] then State(lists, corpora, None)
    else
      var prev := Convert(lists, corpora, files[..|files| - 1]);
      if prev.error.Some? then prev else ConvertFile(prev.lists, prev.corpora, files[|files| - 1])
  }

  /** The module-level state of converter.py. */
  class Converter {
    var positive: seq<string>
    var negative: seq<string>
    var neutral: seq<string>

    constructor()
      ensures positive == [] && negative == [] && neutral == []
    {
      positive, negative, neutral := [], [], [];
    }

    function Current(): Lists
      reads this
    {
      Lists(positive, negative, neutral)
    }

    /** The `for row in values` loop over one file. */
    method ReadRows(rows: seq<seq<string>>) returns (error: Option<Error>)
      modifies this
      ensures Routed(Current(), error) == RouteRows(old(Current()), rows)
    {
      for i := 0 to |rows|
        invariant Routed(Current(), None) == RouteRows(old(Current()), rows[..i])
      {
        RouteRowsSnoc(old(Current()), rows, i);
        ghost var before := Current();
        var row := rows[i];
        if |row| < 4 {
          RowsAbortSticks(old(Current()), rows, i + 1);
          return Some(IndexOutOfRange);
        }
        var tweet := Strip(row[3]);
        if row[1] == "positiv" {
          positive := positive + [tweet];
        }
        if row[1] == "neutral" {
          neutral := neutral + [tweet];
        }
        if row[1] == "negativ" {
          negative := negative + [tweet];
        }
        assert positive == before.positive + (if row[1] == "positiv" then [tweet] else []);
        assert negative == before.negative + (if row[1] == "negativ" then [tweet] else []);
        assert neutral == before.neutral + (if row[1] == "neutral" then [tweet] else []);
      }
      assert rows[..|rows|] == rows;
      return None;
    }

    /** main. The three corpus files are distinct. */
    method ConvertAll(files: seq<CsvFile>, neg: CorpusFile, pos: CorpusFile, neu: CorpusFile) returns (error: Option<Error>)
      requires neg != pos && neg != neu && pos != neu
      modifies this, neg, pos, neu
      ensures State(Current(), Corpora(neg.content, pos.content, neu.content), error)
        == Convert(old(Current()), old(Corpora(neg.content, pos.content, neu.content)), files)
    {
      for k := 0 to |files|
        invariant State(Current(), Corpora(neg.content, pos.content, neu.content), None)
          == Convert(old(Current()), old(Corpora(neg.content, pos.content, neu.content)), files[..k])
      {
        assert files[..k + 1][..k] == files[..k];
        var file := files[k];
        if IsCsv(file.name) {
          error := ReadRows(file.rows);
          if error.Some? {
            ConvertAbortSticks(old(Current()), old(Corpora(neg.content, pos.content, neu.content)), files, k + 1);
            return;
          }
          WriteCorpus(neg, negative);
          WriteCorpus(pos, positive);
          WriteCorpus(neu, neutral);
        }
      }
      assert files[..|files|] == files;
      return None;
    }
  }

  // ---------------------------------------------------------------------------------------
  // Properties
  // ---------------------------------------------------------------------------------------

  lemma RouteRowsSnoc(lists: Lists, rows: seq<seq<string>>, i: nat)
    requires i < |rows|
    ensures var r := RouteRows(lists, rows[..i]);
      RouteRows(lists, rows[..i + 1]) ==
        if r.error.Some? then r
        else match RouteRow(r.lists, rows[i])
          case Failure(e) => Routed(r.lists, Some(e))
          case Success(l) => Routed(l, None)
  {
    assert rows[..i + 1][..i] == rows[..i];
  }

  /** After an IndexError no further row is read. */
  lemma {:induction false} RowsAbortSticks(lists: Lists, rows: seq<seq<string>>, k: nat)
    requires k <= |rows| && RouteRows(lists, rows[..k]).error.Some?
    ensures RouteRows(lists, rows) == RouteRows(lists, rows[..k])
    decreases |rows|
  {
    if k < |rows| {
      assert rows[..|rows| - 1][..k] == rows[..k];
      RowsAbortSticks(lists, rows[..|rows| - 1], k);
    } else {
      assert rows[..k] == rows;
    }
  }

  /** After an IndexError main has ended: no later file is read and no corpus is written. */
  lemma {:induction false} ConvertAbortSticks(lists: Lists, corpora: Corpora, files: seq<CsvFile>, k: nat)
    requires k <= |files| && Convert(lists, corpora, files[..k]).error.Some?
    ensures Convert(lists, corpora, files) == Convert(lists, corpora, files[..k])
    decreases |files|
  {
    if k < |files| {
      assert files[..|files| - 1][..k] == files[..k];
      ConvertAbortSticks(lists, corpora, files[..|files| - 1], k);
    } else {
      assert files[..k] == files;
    }
  }

  /** The message a row contributes to the list for tag. */
  function Message(row: seq<string>, tag: string): seq<string> {
    if |row| >= 4 && row[1] == tag then [Strip(row[3])] else []
  }

  function MessageOf(tag: string): seq<string> -> seq<string> {
    row => Message(row, tag)
  }

  /** The stripped column-3 messages of the rows labelled tag, in row order. */
  function Messages(rows: seq<seq<string>>, tag: string): seq<string> {
    FlatMap(rows, MessageOf(tag))
  }

  lemma MessagesAppend(rows: seq<seq<string>>, row: seq<string>, tag: string)
    ensures Messages(rows + [row], tag) == Messages(rows, tag) + Messages([row], tag)
  {
    FlatMapAppend(rows, [row], MessageOf(tag));
  }

  /** The index of the first row with fewer than four columns, or the number of rows. */
  function FirstShort(rows: seq<seq<string>>): (k: nat)
    ensures k <= |rows| && (k < |rows| ==> |rows[k]| < 4)
    ensures forall i :: 0 <= i < k ==> |rows[i]| >= 4
  {
    if rows == [] then 0
    else if |rows[0]| < 4 then 0
    else 1 + FirstShort(rows[1..])
  }

  /** The lists with the messages of rows added, each to the list of its tag. */
  function Appended(lists: Lists, rows: seq<seq<string>>): Lists {
    Lists(
      lists.positive + Messages(rows, "positiv"),
      lists.negative + Messages(rows, "negativ"),
      lists.neutral + Messages(rows, "neutral"))
  }

  lemma MessagesOne(row: seq<string>, tag: string)
    ensures Messages([row], tag) == if |row| >= 4 && row[1] == tag then [Strip(row[3])] else []
  {
    FlatMapOne(row, MessageOf(tag));
  }

  lemma TagSnoc(xs: seq<string>, rows: seq<seq<string>>, row: seq<string>, tag: string)
    ensures xs + Messages(rows + [row], tag)
      == xs + Messages(rows, tag) + (if |row| >= 4 && row[1] == tag then [Strip(row[3])] else [])
  {
    MessagesAppend(rows, row, tag);
    MessagesOne(row, tag);
  }

  lemma AppendedSnoc(lists: Lists, rows: seq<seq<string>>, row: seq<string>)
    requires |row| >= 4
    ensures RouteRow(Appended(lists, rows), row) == Success(Appended(lists, rows + [row]))
  {
    TagSnoc(lists.positive, rows, row, "positiv");
    TagSnoc(lists.negative, rows, row, "negativ");
    TagSnoc(lists.neutral, rows, row, "neutral");
  }

  /** Reading a file appends to each list the stripped messages of its rows carrying exactly
      that tag ("positiv", "negativ", "neutral"), in row order, and ignores other tags; a row
      with fewer than four columns raises IndexError, after the rows before it were added. */
  lemma {:induction false} RouteRowsMessages(lists: Lists, rows: seq<seq<string>>)
    ensures var k := FirstShort(rows);
      RouteRows(lists, rows) == Routed(Appended(lists, rows[..k]), if k < |rows| then Some(IndexOutOfRange) else None)
  {
    if rows == [] {
      AppendedNothing(lists, rows[..0]);
    } else {
      var init := rows[..|rows| - 1];
      RouteRowsMessages(lists, init);
      if FirstShort(init) < |init| {
        RouteRowsShortBefore(lists, rows);
      } else {
        RouteRowsLast(lists, rows);
      }
    }
  }

  lemma AppendedNothing(lists: Lists, rows: seq<seq<string>>)
    requires rows == []
    ensures Appended(lists, rows) == lists
  {
    assert lists.positive + [] == lists.positive;
    assert lists.negative + [] == lists.negative;
    assert lists.neutral + [] == lists.neutral;
  }

  /** A short row before the last one has already ended the file. */
  lemma RouteRowsShortBefore(lists: Lists, rows: seq<seq<string>>)
    requires rows != []
    requires var init := rows[..|rows| - 1]; var k := FirstShort(init);
      k < |init| && RouteRows(lists, init) == Routed(Appended(lists, init[..k]), Some(IndexOutOfRange))
    ensures var k := FirstShort(rows);
      RouteRows(lists, rows) == Routed(Appended(lists, rows[..k]), Some(IndexOutOfRange)) && k < |rows|
  {
    var init := rows[..|rows| - 1];
    var k := FirstShort(init);
    assert forall i :: 0 <= i < |init| ==> init[i] == rows[i];
    FirstShortPrefix(rows, k);
    assert rows[..k] == init[..k];
  }

  /** With every earlier row long enough, the last row decides. */
  lemma RouteRowsLast(lists: Lists, rows: seq<seq<string>>)
    requires rows != []
    requires var init := rows[..|rows| - 1];
      FirstShort(init) == |init| && RouteRows(lists, init) == Routed(Appended(lists, init[..|init|]), None)
    ensures var k := FirstShort(rows);
      RouteRows(lists, rows) == Routed(Appended(lists, rows[..k]), if k < |rows| then Some(IndexOutOfRange) else None)
  {
    var n := |rows| - 1;
    var init := rows[..n];
    assert init[..n] == init;
    if |rows[n]| < 4 {
      RouteRowsLastShort(lists, rows);
    } else {
      RouteRowsLastLong(lists, rows);
      assert rows[..|rows|] == rows;
    }
  }

  lemma RouteRowsLastShort(lists: Lists, rows: seq<seq<string>>)
    requires rows != [] && |rows[|rows| - 1]| < 4
    requires var init := rows[..|rows| - 1];
      FirstShort(init) == |init| && RouteRows(lists, init) == Routed(Appended(lists, init), None)
    ensures FirstShort(rows) == |rows| - 1
    ensures RouteRows(lists, rows) == Routed(Appended(lists, rows[..|rows| - 1]), Some(IndexOutOfRange))
  {
    var n := |rows| - 1;
    assert forall i :: 0 <= i < n ==> rows[..n][i] == rows[i];
    FirstShortPrefix(rows, n);
  }

  lemma RouteRowsLastLong(lists: Lists, rows: seq<seq<string>>)
    requires rows != [] && |rows[|rows| - 1]| >= 4
    requires var init := rows[..|rows| - 1];
      FirstShort(init) == |init| && RouteRows(lists, init) == Routed(Appended(lists, init), None)
    ensures FirstShort(rows) == |rows|
    ensures RouteRows(lists, rows) == Routed(Appended(lists, rows), None)
  {
    var n := |rows| - 1;
    var init := rows[..n];
    FirstShortLongLast(rows);
    AppendedSnoc(lists, init, rows[n]);
    assert rows == init + [rows[n]];
  }

  lemma {:induction false} FirstShortPrefix(rows: seq<seq<string>>, k: nat)
    requires k < |rows| && |rows[k]| < 4 && forall i :: 0 <= i < k ==> |rows[i]| >= 4
    ensures FirstShort(rows) == k
  {
    if k > 0 {
      FirstShortPrefix(rows[1..], k - 1);
    }
  }

  lemma FirstShortLongLast(rows: seq<seq<string>>)
    requires rows != [] && FirstShort(rows[..|rows| - 1]) == |rows| - 1 && |rows[|rows| - 1]| >= 4
    ensures FirstShort(rows) == |rows|
  {
    forall i | 0 <= i < |rows| ensures |rows[i]| >= 4 {
      if i < |rows| - 1 {
        assert rows[..|rows| - 1][i] == rows[i];
      }
    }
    FirstShortAll(rows);
  }

  lemma {:induction false} FirstShortAll(rows: seq<seq<string>>)
    requires forall i :: 0 <= i < |rows| ==> |rows[i]| >= 4
    ensures FirstShort(rows) == |rows|
  {
    if rows != [] {
      FirstShortAll(rows[1..]);
    }
  }

  /** A CSV file whose rows all have a message column appends routed messages and then
      writes the three corpora. */
  lemma ConvertFileComplete(lists: Lists, c: Corpora, f: CsvFile)
    requires IsCsv(f.name) && FirstShort(f.rows) == |f.rows|
    ensures ConvertFile(lists, c, f) == State(Appended(lists, f.rows), Written(c, Appended(lists, f.rows)), None)
  {
    RouteRowsMessages(lists, f.rows);
    assert f.rows[..|f.rows|] == f.rows;
  }

  /** The lists are never cleared and the writers run after every CSV file: with two CSV
      files, the tweets of the first are appended to each corpus a second time after the
      second file, together with the second file's tweets. */
  lemma RewritesEarlierFiles(f1: CsvFile, f2: CsvFile, c: Corpora)
    requires IsCsv(f1.name) && IsCsv(f2.name)
    requires FirstShort(f1.rows) == |f1.rows| && FirstShort(f2.rows) == |f2.rows|
    ensures var s := Convert(Lists([], [], []), c, [f1, f2]);
      var l1 := Appended(Lists([], [], []), f1.rows);
      var l2 := Appended(l1, f2.rows);
      s.error == None && s.lists == l2 &&
      s.corpora == Written(Written(c, l1), l2) &&
      l2.negative == Messages(f1.rows, "negativ") + Messages(f2.rows, "negativ") &&
      l2.positive == Messages(f1.rows, "positiv") + Messages(f2.rows, "positiv") &&
      l2.neutral == Messages(f1.rows, "neutral") + Messages(f2.rows, "neutral")
  {
    var empty := Lists([], [], []);
    var l1 := Appended(empty, f1.rows);
    var c1 := Written(c, l1);
    var l2 := Appended(l1, f2.rows);
    assert Convert(empty, c, [f1]) == State(l1, c1, None) by {
      assert [f1][..0] == [];
      assert Convert(empty, c, [f1]) == ConvertFile(empty, c, f1);
      ConvertFileComplete(empty, c, f1);
    }
    assert Convert(empty, c, [f1, f2]) == State(l2, Written(c1, l2), None) by {
      assert [f1, f2][..1] == [f1];
      assert Convert(empty, c, [f1, f2]) == ConvertFile(l1, c1, f2);
      ConvertFileComplete(l1, c1, f2);
    }
    assert l1.negative == Messages(f1.rows, "negativ");
    assert l1.positive == Messages(f1.rows, "positiv");
    assert l1.neutral == Messages(f1.rows, "neutral");
  }
}

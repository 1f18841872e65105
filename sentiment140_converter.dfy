/** The Sentiment140 converter: one CSV file (delimiter ','), whose column 0 holds the
    polarity "4", "2" or "0" and column 5 the message; a row that raises inside the try is
    reported and skipped, and the three corpora are written once, after all rows. */
module Sentiment140Converter {
  import opened Wrappers
  import opened Seqs
  import opened Text
  import opened TweetFilter

  /** One row: an IndexError (a row without column 0, or a labelled row without column 5)
      is caught, and the row is then skipped. */
  function RouteRow(lists: Lists, row: seq<string>): Result<Lists> {
    if |row| == 0 then Failure(IndexOutOfRange)
    else if row[0] == "4" then
      if |row| < 6 then Failure(IndexOutOfRange)
      else Success(Lists(lists.positive + [Strip(row[5])], lists.negative, lists.neutral))
    else if row[0] == "2" then
      if |row| < 6 then Failure(IndexOutOfRange)
      else Success(Lists(lists.positive, lists.negative, lists.neutral + [Strip(row[5])]))
    else if row[0] == "0" then
      if |row| < 6 then Failure(IndexOutOfRange)
      else Success(Lists(lists.positive, lists.negative + [Strip(row[5])], lists.neutral))
    else Success(lists)
  }

  /** The `for row in values` loop. */
  function RouteRows(lists: Lists, rows: seq<seq<string>>): Lists {
    if rows == [] then lists
    else
      var prev := RouteRows(lists, rows[..|rows| - 1]);
      match RouteRow(prev, rows[|rows| - 1])
        case Failure(_) => prev
        case Success(l) => l
  }

  /** The module-level state of converter.py. */
  class Converter {
    var positive: seq<string>
    var negative: seq<string>
    var neutral: seq<string>

    constructor()
      ensures positive == [] && negative == [] && neutral == []
    {
      positive, negative, neutral := [], [], [];
    }

    function Current(): Lists
      reads this
    {
      Lists(positive, negative, neutral)
    }

    /** main: route every row, then write the negative, positive and neutral corpora. The
        three corpus files are distinct. */
    method ConvertAll(rows: seq<seq<string>>, neg: CorpusFile, pos: CorpusFile, neu: CorpusFile)
      requires neg != pos && neg != neu && pos != neu
      modifies this, neg, pos, neu
      ensures Current() == RouteRows(old(Current()), rows)
      ensures neg.content == old(neg.content) + LinesText(FilteredAll(negative))
      ensures pos.content == old(pos.content) + LinesText(FilteredAll(positive))
      ensures neu.content == old(neu.content) + LinesText(FilteredAll(neutral))
    {
      for i := 0 to |rows|
        invariant Current() == RouteRows(old(Current()), rows[..i])
        invariant unchanged(neg, pos, neu)
      {
        assert rows[..i + 1][..i] == rows[..i];
        ghost var before := Current();
        var row := rows[i];
        if |row| == 0 {
          continue;
        }
        if row[0] == "4" {
          if |row| < 6 {
            continue;
          }
          positive := positive + [Strip(row[5])];
        }
        if row[0] == "2" {
          if |row| < 6 {
            continue;
          }
          neutral := neutral + [Strip(row[5])];
        }
        if row[0] == "0" {
          if |row| < 6 {
            continue;
          }
          negative := negative + [Strip(row[5])];
        }
        assert RouteRow(before, row) == Success(Current());
      }
      assert rows[..|rows|] == rows;
      WriteCorpus(neg, negative);
      WriteCorpus(pos, positive);
      WriteCorpus(neu, neutral);
    }
  }

  // ---------------------------------------------------------------------------------------
  // Properties
  // ---------------------------------------------------------------------------------------

  /** A row is skipped exactly when it has no column 0, or is labelled "4", "2" or "0" and
      has no column 5. */
  lemma RouteRowFails(lists: Lists, row: seq<string>)
    ensures RouteRow(lists, row).Failure? <==> |row| == 0 || ((row[0] == "4" || row[0] == "2" || row[0] == "0") && |row| < 6)
  {
  }

  /** The message a row contributes to the list for tag. */
  function Message(row: seq<string>, tag: string): seq<string> {
    if |row| >= 6 && row[0] == tag then [Strip(row[5])] else []
  }

  function MessageOf(tag: string): seq<string> -> seq<string> {
    row => Message(row, tag)
  }

  /** The stripped column-5 messages of the rows whose polarity is tag and that have a
      column 5, in row order. */
  function Messages(rows: seq<seq<string>>, tag: string): seq<string> {
    FlatMap(rows, MessageOf(tag))
  }

  lemma MessagesAppend(rows: seq<seq<string>>, row: seq<string>, tag: string)
    ensures Messages(rows + [row], tag) == Messages(rows, tag) + Messages([row], tag)
  {
    FlatMapAppend(rows, [row], MessageOf(tag));
  }

  lemma TagSnoc(xs: seq<string>, rows: seq<seq<string>>, row: seq<string>, tag: string)
    ensures xs + Messages(rows + [row], tag)
      == xs + Messages(rows, tag) + (if |row| >= 6 && row[0] == tag then [Strip(row[5])] else [])
  {
    MessagesAppend(rows, row, tag);
    FlatMapOne(row, MessageOf(tag));
  }

  /** The lists with the messages of rows added, each to the list of its polarity. */
  function Appended(lists: Lists, rows: seq<seq<string>>): Lists {
    Lists(
      lists.positive + Messages(rows, "4"),
      lists.negative + Messages(rows, "0"),
      lists.neutral + Messages(rows, "2"))
  }

  /** Routing appends to the positive, neutral and negative lists the stripped messages of
      the rows labelled "4", "2" and "0", in row order; rows with other labels and rows that
      raise are left out, and nothing else changes. */
  lemma {:induction false} RouteRowsMessages(lists: Lists, rows: seq<seq<string>>)
    ensures RouteRows(lists, rows) == Appended(lists, rows)
  {
    if rows == [] {
      assert lists.positive + [] == lists.positive;
      assert lists.negative + [] == lists.negative;
      assert lists.neutral + [] == lists.neutral;
    } else {
      var n := |rows| - 1;
      RouteRowsMessages(lists, rows[..n]);
      assert rows == rows[..n] + [rows[n]];
      TagSnoc(lists.positive, rows[..n], rows[n], "4");
      TagSnoc(lists.negative, rows[..n], rows[n], "0");
      TagSnoc(lists.neutral, rows[..n], rows[n], "2");
    }
  }
}

/** data_cleaner.go: every input line goes through a fixed chain of rewrites, is wrapped in
    double quotes and unquoted as a Go string literal; lines that fail to unquote or that are
    blank afterwards are skipped, every other one is written followed by a line break. */
module DataCleaner {
  import opened Wrappers
  import opened Seqs
  import opened Text

  /** The run of four double quotes that line 34 deletes. */
  const QUAD: string := "\"\"\"\""

  /** The characters strings.Trim removes from both ends at line 36. */
  const CUTSET: string := "'\";"

  /** Lines 30-36: html.UnescapeString (a parameter), then the fixed rewrites. */
  function Rewritten(line: string, unescape: string -> string): string {
    Trim(Lower(Unrun(line, unescape)), CUTSET)
  }

  /** Lines 38-39: every double quote escaped, and the whole wrapped in double quotes. */
  function Quoted(line: string): string {
    "\"" + Replace(line, "\"", "\\\"") + "\""
  }

  /** What line 53 writes for one input line, if anything; strconv.Unquote is a parameter
      that returns None where Go returns an error. */
  function CleanLine(line: string, unescape: string -> string, unquote: string -> Option<string>): Option<string> {
    match unquote(Quoted(Rewritten(line, unescape)))
      case None => None
      case Some(u) =>
        var t := TrimSpace(u);
        if t == [] then None else Some(t + "\n")
  }

  /** What one input line contributes to out.txt: at most one write. */
  function Writes(line: string, unescape: string -> string, unquote: string -> Option<string>): (r: seq<string>)
    ensures |r| <= 1
  {
    match CleanLine(line, unescape, unquote)
      case None => []
      case Some(w) => [w]
  }

  /** The strings written to out.txt, one WriteString each, for the scanned lines. */
  function Cleaned(lines: seq<string>, unescape: string -> string, unquote: string -> Option<string>): seq<string> {
    if lines == [] then []
    else Cleaned(lines[..|lines| - 1], unescape, unquote) + Writes(lines[|lines| - 1], unescape, unquote)
  }

  /** The scanner loop of main. */
  method Clean(lines: seq<string>, unescape: string -> string, unquote: string -> Option<string>) returns (written: seq<string>)
    ensures written == Cleaned(lines, unescape, unquote)
  {
    written := [];
    for i := 0 to |lines|
      invariant written == Cleaned(lines[..i], unescape, unquote)
    {
      assert lines[..i + 1][..i] == lines[..i];
      var line := lines[i];
      line := unescape(line);
      line := Replace(line, "\r\n", "\n");
      line := Replace(line, "\n", " ");
      line := Replace(line, "`", "'");
      line := Replace(line, QUAD, "");
      line := Lower(line);
      line := Trim(line, CUTSET);
      line := Replace(line, "\"", "\\\"");
      line := "\"" + line + "\"";
      var unquoted := unquote(line);
      if unquoted.None? {
        continue;
      }
      line := TrimSpace(unquoted.value);
      if |line| == 0 {
        continue;
      }
      written := written + [line + "\n"];
    }
    assert lines[..|lines|] == lines;
  }

  // ---------------------------------------------------------------------------------------
  // The line before quoting
  // ---------------------------------------------------------------------------------------

  /** Four double quotes start at i. */
  predicate QuoteRunAt(s: string, i: int)
    requires 0 <= i < |s| - 3
  {
    s[i] == '"' && s[i + 1] == '"' && s[i + 2] == '"' && s[i + 3] == '"'
  }

  /** No four double quotes in a row. */
  predicate NoQuoteRun(s: string) {
    forall i :: 0 <= i < |s| - 3 ==> !QuoteRunAt(s, i)
  }

  /** The number of double quotes s starts with. */
  function LeadingQuotes(s: string): nat {
    if s != [] && s[0] == '"' then 1 + LeadingQuotes(s[1..]) else 0
  }

  lemma {:induction false} LeadingQuotesAtLeast(s: string, n: nat)
    requires n <= |s| && forall i :: 0 <= i < n ==> s[i] == '"'
    ensures LeadingQuotes(s) >= n
  {
    if n > 0 {
      LeadingQuotesAtLeast(s[1..], n - 1);
    }
  }

  lemma {:induction false} LeadingQuotesBelow(s: string, j: nat)
    requires j < |s| && s[j] != '"'
    ensures LeadingQuotes(s) <= j
  {
    if j > 0 && s[0] == '"' {
      LeadingQuotesBelow(s[1..], j - 1);
    }
  }

  lemma ConsNoQuoteRun(c: char, r: string)
    requires NoQuoteRun(r) && (c != '"' || LeadingQuotes(r) < 3)
    ensures NoQuoteRun([c] + r)
  {
    var t := [c] + r;
    forall i | 0 <= i < |t| - 3
      ensures !QuoteRunAt(t, i)
    {
      if i == 0 {
        if c == '"' && r[0] == '"' && r[1] == '"' && r[2] == '"' {
          LeadingQuotesAtLeast(r, 3);
        }
      } else {
        assert !QuoteRunAt(r, i - 1);
        assert t[i] == r[i - 1] && t[i + 1] == r[i] && t[i + 2] == r[i + 1] && t[i + 3] == r[i + 2];
      }
    }
  }

  /** Deleting every run of four double quotes leaves none, even where a deletion joins
      quotes from both sides of it; a string with fewer than four leading quotes keeps them. */
  lemma {:induction false} DeleteQuadNoRun(s: string)
    ensures NoQuoteRun(Replace(s, QUAD, ""))
    ensures LeadingQuotes(s) < 4 ==> LeadingQuotes(Replace(s, QUAD, "")) == LeadingQuotes(s)
    decreases |s|
  {
    if |s| >= 4 {
      if s[..4] == QUAD {
        DeleteQuadNoRun(s[4..]);
        assert Replace(s, QUAD, "") == Replace(s[4..], QUAD, "");
        assert s[0] == '"' && s[1] == '"' && s[2] == '"' && s[3] == '"';
        LeadingQuotesAtLeast(s, 4);
      } else {
        var r := Replace(s[1..], QUAD, "");
        DeleteQuadNoRun(s[1..]);
        assert Replace(s, QUAD, "") == [s[0]] + r;
        if s[0] == '"' {
          var j :| 1 <= j < 4 && s[j] != '"';
          LeadingQuotesBelow(s[1..], j - 1);
        }
        ConsNoQuoteRun(s[0], r);
      }
    }
  }

  /** A part of a string without runs of four quotes has none either. */
  lemma NoQuoteRunSlice(s: string, t: string, a: nat)
    requires NoQuoteRun(s) && a + |t| <= |s|
    requires forall j :: 0 <= j < |t| ==> t[j] == s[a + j]
    ensures NoQuoteRun(t)
  {
    forall i | 0 <= i < |t| - 3 ensures !QuoteRunAt(t, i) {
      assert !QuoteRunAt(s, a + i);
      assert t[i] == s[a + i] && t[i + 1] == s[a + i + 1] && t[i + 2] == s[a + i + 2] && t[i + 3] == s[a + i + 3];
    }
  }

  /** Lowering case leaves quotes, line breaks and backquotes where they are. */
  lemma LowerFacts(s: string)
    requires '\n' !in s && '`' !in s && NoQuoteRun(s)
    ensures '\n' !in Lower(s) && '`' !in Lower(s) && NoQuoteRun(Lower(s))
  {
    var l := Lower(s);
    forall i | 0 <= i < |l| - 3 ensures !QuoteRunAt(l, i) {
      assert !QuoteRunAt(s, i);
    }
  }

  /** The rewrites before case lowering. */
  function Unrun(line: string, unescape: string -> string): string {
    var unescaped := unescape(line);
    var unixEnds := Replace(unescaped, "\r\n", "\n");
    var joined := Replace(unixEnds, "\n", " ");
    var quotes := Replace(joined, "`", "'");
    Replace(quotes, QUAD, "")
  }

  lemma UnrunFacts(line: string, unescape: string -> string)
    ensures var u := Unrun(line, unescape); '\n' !in u && '`' !in u && NoQuoteRun(u)
  {
    var unixEnds := Replace(unescape(line), "\r\n", "\n");
    var joined := Replace(unixEnds, "\n", " ");
    var quotes := Replace(joined, "`", "'");
    var unrun := Replace(quotes, QUAD, "");
    ReplaceCharMembers(unixEnds, '\n', " ");
    ReplaceCharMembers(joined, '`', "'");
    DeleteIsSubsequence(quotes, QUAD);
    forall x | x in unrun ensures x in quotes {
      SubsequenceMembers(unrun, quotes, x);
    }
    DeleteQuadNoRun(quotes);
  }

  /** Before quoting, a line has no line break, no backquote and no run of four double
      quotes, and neither starts nor ends with a single quote, a double quote or a
      semicolon. */
  lemma RewrittenFacts(line: string, unescape: string -> string)
    ensures var r := Rewritten(line, unescape);
      '\n' !in r && '`' !in r && NoQuoteRun(r) &&
      (r == [] || (r[0] !in CUTSET && r[|r| - 1] !in CUTSET))
  {
    UnrunFacts(line, unescape);
    LowerFacts(Unrun(line, unescape));
    TrimFacts(Lower(Unrun(line, unescape)));
  }

  /** Trimming keeps the absence of line breaks, backquotes and quote runs. */
  lemma TrimFacts(s: string)
    requires '\n' !in s && '`' !in s && NoQuoteRun(s)
    ensures var r := Trim(s, CUTSET);
      '\n' !in r && '`' !in r && NoQuoteRun(r) &&
      (r == [] || (r[0] !in CUTSET && r[|r| - 1] !in CUTSET))
  {
    TrimInfix(s);
    TrimLacks(s, '\n');
    TrimLacks(s, '`');
    StripByEnds(s, InCutset(CUTSET));
  }

  lemma TrimInfix(s: string)
    requires NoQuoteRun(s)
    ensures NoQuoteRun(Trim(s, CUTSET))
  {
    StripByIndices(s, InCutset(CUTSET));
    NoQuoteRunSlice(s, Trim(s, CUTSET), |s| - |LStripBy(s, InCutset(CUTSET))|);
  }

  lemma TrimLacks(s: string, c: char)
    requires c !in s
    ensures c !in Trim(s, CUTSET)
  {
    var r := Trim(s, CUTSET);
    var a := |s| - |LStripBy(s, InCutset(CUTSET))|;
    StripByIndices(s, InCutset(CUTSET));
    forall j | 0 <= j < |r| ensures r[j] != c {
      assert r[j] == s[a + j];
    }
  }

  // ---------------------------------------------------------------------------------------
  // The quoted line
  // ---------------------------------------------------------------------------------------

  /** Every double quote in e has a backslash right before it. */
  predicate QuotesEscaped(e: string) {
    forall i :: 0 <= i < |e| && e[i] == '"' ==> i > 0 && e[i - 1] == '\\'
  }

  /** After escaping, every double quote has a backslash right before it. */
  lemma {:induction false} EscapedQuotes(t: string)
    ensures QuotesEscaped(Replace(t, "\"", "\\\""))
    decreases |t|
  {
    if |t| >= 1 {
      EscapedQuotes(t[1..]);
      var r := Replace(t[1..], "\"", "\\\"");
      var k := if t[..1] == "\"" then 2 else 1;
      var e := Replace(t, "\"", "\\\"");
      assert e[k..] == r;
      assert k == 1 ==> e[0] == t[0] && t[0] != '"';
      assert k == 2 ==> e[0] == '\\' && e[1] == '"';
      forall i | 0 <= i < |e| && e[i] == '"' ensures i > 0 && e[i - 1] == '\\' {
        if i > k {
          assert e[i] == r[i - k] && e[i - 1] == r[i - k - 1];
        } else if i == k {
          assert false;
        } else if k == 2 {
          assert i == 1;
        } else {
          assert false;
        }
      }
    }
  }

  /** Undoing the escapes gives the line back: each backslash-quote pair in the escaped
      string is one that escaping inserted. */
  lemma {:induction false} EscapeRoundTrip(t: string)
    ensures Replace(Replace(t, "\"", "\\\""), "\\\"", "\"") == t
    decreases |t|
  {
    if |t| >= 1 {
      var r := Replace(t[1..], "\"", "\\\"");
      EscapeRoundTrip(t[1..]);
      if t[..1] == "\"" {
        var e := "\\\"" + r;
        assert Replace(t, "\"", "\\\"") == e;
        assert e[..2] == "\\\"" && e[2..] == r;
        assert t == [t[0]] + t[1..];
      } else {
        var e := [t[0]] + r;
        assert Replace(t, "\"", "\\\"") == e && e[1..] == r;
        if |e| >= 2 {
          EscapedQuotes(t[1..]);
          assert e[..2] != "\\\"" by {
            assert e[1] == r[0];
          }
        }
        assert t == [t[0]] + t[1..];
      }
    }
  }

  /** The string passed to strconv.Unquote starts and ends with a double quote, every double
      quote between them has a backslash right before it, and removing those backslashes
      gives the rewritten line back. */
  lemma QuotedFacts(line: string)
    ensures var q := Quoted(line);
      |q| >= 2 && q[0] == '"' && q[|q| - 1] == '"' &&
      (forall i :: 0 < i < |q| - 1 && q[i] == '"' ==> q[i - 1] == '\\') &&
      Replace(q[1..|q| - 1], "\\\"", "\"") == line
  {
    var e := Replace(line, "\"", "\\\"");
    var q := Quoted(line);
    EscapedQuotes(line);
    EscapeRoundTrip(line);
    assert q[1..|q| - 1] == e;
    forall i | 0 < i < |q| - 1 && q[i] == '"' ensures q[i - 1] == '\\' {
      assert q[i] == e[i - 1];
      if i > 1 {
        assert q[i - 1] == e[i - 2];
      }
    }
  }

  // ---------------------------------------------------------------------------------------
  // The output
  // ---------------------------------------------------------------------------------------

  /** A line as written: a non-empty text without leading or trailing white space, then a
      line break. */
  predicate IsWrittenLine(w: string) {
    |w| >= 2 && w[|w| - 1] == '\n' && !IsGoSpace(w[0]) && !IsGoSpace(w[|w| - 2])
  }

  lemma WritesFacts(line: string, unescape: string -> string, unquote: string -> Option<string>)
    ensures forall w :: w in Writes(line, unescape, unquote) ==> IsWrittenLine(w)
  {
    var u := unquote(Quoted(Rewritten(line, unescape)));
    if u.Some? {
      StripByEnds(u.value, IsGoSpace);
    }
  }

  /** Every write is a non-empty string without leading or trailing white space, followed
      by a line break; there is at most one write per input line. */
  lemma {:induction false} CleanedLines(lines: seq<string>, unescape: string -> string, unquote: string -> Option<string>)
    ensures |Cleaned(lines, unescape, unquote)| <= |lines|
    ensures forall w :: w in Cleaned(lines, unescape, unquote) ==> IsWrittenLine(w)
  {
    if lines != [] {
      var n := |lines| - 1;
      CleanedLines(lines[..n], unescape, unquote);
      WritesFacts(lines[n], unescape, unquote);
      assert Cleaned(lines, unescape, unquote) == Cleaned(lines[..n], unescape, unquote) + Writes(lines[n], unescape, unquote);
    }
  }

  /** Lines are cleaned independently and their writes keep the input order. */
  lemma {:induction false} CleanedAppend(a: seq<string>, b: seq<string>, unescape: string -> string, unquote: string -> Option<string>)
    ensures Cleaned(a + b, unescape, unquote) == Cleaned(a, unescape, unquote) + Cleaned(b, unescape, unquote)
    decreases |b|
  {
    if b == [] {
      assert a + b == a;
    } else {
      var n := |b| - 1;
      var w := Writes(b[n], unescape, unquote);
      assert (a + b)[..|a + b| - 1] == a + b[..n];
      assert (a + b)[|a + b| - 1] == b[n];
      calc {
        Cleaned(a + b, unescape, unquote);
        Cleaned(a + b[..n], unescape, unquote) + w;
        { CleanedAppend(a, b[..n], unescape, unquote); }
        (Cleaned(a, unescape, unquote) + Cleaned(b[..n], unescape, unquote)) + w;
        Cleaned(a, unescape, unquote) + (Cleaned(b[..n], unescape, unquote) + w);
        Cleaned(a, unescape, unquote) + Cleaned(b, unescape, unquote);
      }
    }
  }

  /** A line that fails to unquote writes nothing, and the lines after it are still read. */
  lemma SkipsUnquoteFailure(a: seq<string>, line: string, b: seq<string>, unescape: string -> string, unquote: string -> Option<string>)
    requires unquote(Quoted(Rewritten(line, unescape))).None?
    ensures Cleaned(a + [line] + b, unescape, unquote) == Cleaned(a, unescape, unquote) + Cleaned(b, unescape, unquote)
  {
    assert Writes(line, unescape, unquote) == [];
    assert (a + [line])[..|a|] == a;
    assert Cleaned(a + [line], unescape, unquote) == Cleaned(a, unescape, unquote);
    CleanedAppend(a + [line], b, unescape, unquote);
  }
}

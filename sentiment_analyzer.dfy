/** The sentiment analyzer: tweets are dropped when a spam pattern matches their message,
    cleaned of URLs, classified, and turned into partial-update actions that store the
    classifier's polarity under "sentiment_<classifier name>". */
module SentimentAnalyzer {
  import opened Wrappers
  import opened Seqs
  import opened Text
  import opened Documents

  const DOCUMENT_TYPE := "tweet"
  const INDEX_NAME := "twitter"

  // ---------------------------------------------------------------------------------------
  // The URL pattern https?://\S+, case-insensitive
  // ---------------------------------------------------------------------------------------

  /** c matches the lower-case letter x under re.IGNORECASE: x itself, its upper case, and for
      's' also U+017F LATIN SMALL LETTER LONG S, which Python folds to 's'. */
  predicate IsLetterCI(c: char, x: char) {
    c == x || c == UpperChar(x) || (x == 's' && c == '\U{17f}')
  }

  /** u starts with "http" in any case. */
  predicate StartsHttp(u: string) {
    |u| >= 4 && IsLetterCI(u[0], 'h') && IsLetterCI(u[1], 't') && IsLetterCI(u[2], 't') && IsLetterCI(u[3], 'p')
  }

  /** The length of the scheme the pattern matches at the start of u, "https://" (8) or
      "http://" (7), provided a non-space character follows; 0 when the pattern cannot match. */
  function SchemeLength(u: string): nat {
    if StartsHttp(u) && |u| >= 9 && IsLetterCI(u[4], 's') && u[5..8] == "://" && !IsPySpace(u[8]) then 8
    else if StartsHttp(u) && |u| >= 8 && u[4..7] == "://" && !IsPySpace(u[7]) then 7
    else 0
  }

  /** The number of leading non-space characters. */
  function NonSpaceRun(u: string): (r: nat)
    ensures r <= |u|
    ensures forall i :: 0 <= i < r ==> !IsPySpace(u[i])
    ensures r == |u| || IsPySpace(u[r])
  {
    if u == [] || IsPySpace(u[0]) then 0 else 1 + NonSpaceRun(u[1..])
  }

  /** The length of the match of the URL pattern at the start of u (0: no match): the scheme,
      then the greedy run of non-space characters. */
  function UrlMatch(u: string): (r: nat)
    ensures r <= |u|
    ensures r > 0 ==> r > SchemeLength(u) && (r == |u| || IsPySpace(u[r]))
  {
    var k := SchemeLength(u);
    if k == 0 then 0 else k + NonSpaceRun(u[k..])
  }

  /** URL_PATTERN.sub("", s): every leftmost non-overlapping match deleted. */
  function RemoveUrls(s: string): string
    decreases |s|
  {
    if s == [] then []
    else if UrlMatch(s) > 0 then RemoveUrls(s[UrlMatch(s)..])
    else [s[0]] + RemoveUrls(s[1..])
  }

  /** The message cleaning of get_url_filtered_tweet: URLs deleted, then str.strip(). */
  function FilterUrls(message: string): string {
    Strip(RemoveUrls(message))
  }

  /** The pattern matches nowhere in t. */
  predicate NoUrl(t: string) {
    forall i :: 0 <= i <= |t| ==> UrlMatch(t[i..]) == 0
  }

  /** Whether the pattern matches at the start of u depends only on u's first
      SchemeLength(u) + 1 characters, none of which is a space. */
  lemma UrlMatchPrefix(u: string, v: string)
    requires UrlMatch(u) > 0
    requires |v| > SchemeLength(u) && forall i :: 0 <= i <= SchemeLength(u) ==> v[i] == u[i]
    ensures UrlMatch(v) > 0
  {
    if SchemeLength(u) == 8 {
      assert v[5..8] == u[5..8];
    } else {
      assert v[4..7] == u[4..7];
    }
  }

  /** The first characters of a match are not spaces. */
  lemma UrlMatchNoSpace(u: string)
    requires UrlMatch(u) > 0
    ensures forall i :: 0 <= i <= SchemeLength(u) ==> !IsPySpace(u[i])
  {
    var k := SchemeLength(u);
    if k == 8 {
      assert u[5..8][0] == u[5] && u[5..8][1] == u[6] && u[5..8][2] == u[7];
    } else {
      assert u[4..7][0] == u[4] && u[4..7][1] == u[5] && u[4..7][2] == u[6];
    }
  }

  /** No match starts at a space. */
  lemma SpaceStartsNoUrl(u: string)
    requires u != [] && IsPySpace(u[0])
    ensures UrlMatch(u) == 0
  {
    assert !IsLetterCI(u[0], 'h');
  }

  /** When a URL starts t, what remains after deleting starts with a space, if anything. */
  lemma RemoveUrlsAfterMatch(t: string)
    ensures UrlMatch(t) > 0 ==> RemoveUrls(t) == [] || IsPySpace(RemoveUrls(t)[0])
  {
    if t != [] && UrlMatch(t) > 0 {
      var rest := t[UrlMatch(t)..];
      assert RemoveUrls(t) == RemoveUrls(rest);
      if rest != [] {
        SpaceStartsNoUrl(rest);
        assert RemoveUrls(rest) == [rest[0]] + RemoveUrls(rest[1..]);
      }
    }
  }

  /** A run of RemoveUrls(t) without spaces is the same run of t: the first deletion is
      followed by a space or the end. */
  lemma {:induction false} NonSpacePrefixKept(t: string, k: nat)
    requires k <= |RemoveUrls(t)|
    requires forall j :: 0 <= j < k ==> !IsPySpace(RemoveUrls(t)[j])
    ensures k <= |t| && forall j :: 0 <= j < k ==> RemoveUrls(t)[j] == t[j]
    decreases |t|
  {
    if t != [] && k > 0 {
      RemoveUrlsKeepsHead(t);
      var r := RemoveUrls(t[1..]);
      TailNonSpace(t[0], r, k);
      NonSpacePrefixKept(t[1..], k - 1);
      ConsPrefixKept(t, r, k);
    }
  }

  /** A cleaned string that starts with a non-space kept the first character of t. */
  lemma RemoveUrlsKeepsHead(t: string)
    requires t != [] && RemoveUrls(t) != [] && !IsPySpace(RemoveUrls(t)[0])
    ensures UrlMatch(t) == 0 && RemoveUrls(t) == [t[0]] + RemoveUrls(t[1..])
  {
    RemoveUrlsAfterMatch(t);
  }

  lemma TailNonSpace(c: char, r: string, k: nat)
    requires 0 < k <= |[c] + r| && forall j :: 0 <= j < k ==> !IsPySpace(([c] + r)[j])
    ensures forall j :: 0 <= j < k - 1 ==> !IsPySpace(r[j])
  {
    forall j | 0 <= j < k - 1 ensures !IsPySpace(r[j]) {
      assert r[j] == ([c] + r)[j + 1];
    }
  }

  lemma ConsPrefixKept(t: string, r: string, k: nat)
    requires t != [] && 0 < k && k - 1 <= |r| && k - 1 <= |t[1..]|
    requires forall j :: 0 <= j < k - 1 ==> r[j] == t[1..][j]
    ensures k <= |t| && forall j :: 0 <= j < k ==> ([t[0]] + r)[j] == t[j]
  {
    forall j | 1 <= j < k ensures ([t[0]] + r)[j] == t[j] {
      assert ([t[0]] + r)[j] == r[j - 1] == t[1..][j - 1];
    }
  }

  /** Deleting URLs leaves no match of the pattern. */
  lemma {:induction false} RemoveUrlsNoUrl(s: string)
    ensures NoUrl(RemoveUrls(s))
    decreases |s|
  {
    if s != [] {
      if UrlMatch(s) > 0 {
        RemoveUrlsNoUrl(s[UrlMatch(s)..]);
      } else {
        var r := RemoveUrls(s[1..]);
        RemoveUrlsNoUrl(s[1..]);
        var u := [s[0]] + r;
        assert RemoveUrls(s) == u;
        forall i | 1 <= i <= |u| ensures UrlMatch(u[i..]) == 0 {
          assert u[i..] == r[i - 1..];
        }
        KeptHeadNoMatch(s);
        assert u[0..] == u;
      }
    }
  }

  /** A character that starts no match in s starts none after the rest of s is cleaned. */
  lemma KeptHeadNoMatch(s: string)
    requires s != [] && UrlMatch(s) == 0
    ensures UrlMatch([s[0]] + RemoveUrls(s[1..])) == 0
  {
    var r := RemoveUrls(s[1..]);
    var u := [s[0]] + r;
    if UrlMatch(u) > 0 {
      var k := SchemeLength(u);
      assert k < |s| && forall j :: 0 <= j < k ==> r[j] == s[1..][j] by {
        UrlMatchNoSpace(u);
        forall j | 0 <= j < k ensures !IsPySpace(r[j]) {
          assert r[j] == u[j + 1];
        }
        NonSpacePrefixKept(s[1..], k);
      }
      forall i | 0 <= i <= k ensures s[i] == u[i] {
        if i > 0 {
          assert u[i] == r[i - 1] == s[1..][i - 1];
        }
      }
      UrlMatchPrefix(u, s);
      assert false;
    }
  }

  /** A string without a match is left as it is. */
  lemma {:induction false} RemoveUrlsFixed(t: string)
    requires NoUrl(t)
    ensures RemoveUrls(t) == t
    decreases |t|
  {
    if t != [] {
      assert t[0..] == t;
      forall i | 0 <= i <= |t[1..]| ensures UrlMatch(t[1..][i..]) == 0 {
        assert t[1..][i..] == t[i + 1..];
      }
      RemoveUrlsFixed(t[1..]);
    }
  }

  /** A part of a string without a match has none either. */
  lemma NoUrlInfix(t: string, a: nat, b: nat)
    requires a <= b <= |t| && NoUrl(t)
    ensures NoUrl(t[a..b])
  {
    var x := t[a..b];
    forall i | 0 <= i <= |x| ensures UrlMatch(x[i..]) == 0 {
      if UrlMatch(x[i..]) > 0 {
        var k := SchemeLength(x[i..]);
        forall j | 0 <= j <= k ensures t[a + i..][j] == x[i..][j] {
          assert x[i..][j] == t[a + i + j];
        }
        UrlMatchPrefix(x[i..], t[a + i..]);
        assert false;
      }
    }
  }

  /** Deletion never introduces characters. */
  lemma {:induction false} RemoveUrlsSubsequence(s: string)
    ensures IsSubsequence(RemoveUrls(s), s)
    decreases |s|
  {
    if s != [] {
      if UrlMatch(s) > 0 {
        RemoveUrlsSubsequence(s[UrlMatch(s)..]);
        SubsequenceOfSuffix(RemoveUrls(s), s[..UrlMatch(s)], s[UrlMatch(s)..]);
        assert s[..UrlMatch(s)] + s[UrlMatch(s)..] == s;
      } else {
        RemoveUrlsSubsequence(s[1..]);
        assert RemoveUrls(s) == [s[0]] + RemoveUrls(s[1..]);
      }
    }
  }

  /** The cleaned message contains no URL. */
  lemma FilterUrlsNoUrl(message: string)
    ensures NoUrl(FilterUrls(message))
  {
    RemoveUrlsNoUrl(message);
    StripNoUrl(RemoveUrls(message));
  }

  /** Stripping whitespace off a string without a match leaves none. */
  lemma StripNoUrl(r: string)
    requires NoUrl(r)
    ensures NoUrl(Strip(r))
  {
    forall a, b | 0 <= a <= b <= |r| ensures NoUrl(r[a..b]) {
      NoUrlInfix(r, a, b);
    }
    StripByKeeps(r, IsPySpace, NoUrl);
  }

  /** The cleaned message keeps only characters of the original, in order. */
  lemma FilterUrlsSubsequence(message: string)
    ensures IsSubsequence(FilterUrls(message), message)
  {
    var r := RemoveUrls(message);
    var f := FilterUrls(message);
    StripByInfix(r, IsPySpace);
    var a := |r| - |LStripBy(r, IsPySpace)|;
    RemoveUrlsSubsequence(message);
    InfixSubsequence(r, a, a + |f|);
    SubsequenceTrans(f, r, message);
  }

  /** Cleaning the message has no leading or trailing whitespace, and cleaning it a second
      time changes nothing. */
  lemma FilterUrlsIdempotent(message: string)
    ensures var r := FilterUrls(message); r == [] || (!IsPySpace(r[0]) && !IsPySpace(r[|r| - 1]))
    ensures FilterUrls(FilterUrls(message)) == FilterUrls(message)
  {
    var f := FilterUrls(message);
    FilterUrlsNoUrl(message);
    StripByEnds(RemoveUrls(message), IsPySpace);
    RemoveUrlsFixed(f);
    StripByFixed(f, IsPySpace);
  }

  /** A contiguous part of a sequence is a subsequence of it. */
  lemma InfixSubsequence(t: string, a: nat, b: nat)
    requires a <= b <= |t|
    ensures IsSubsequence(t[a..b], t)
  {
    var f := t[a..b];
    SubsequenceRefl(f);
    SubsequenceConcat(f, f, [], t[b..]);
    assert f + [] == f;
    assert f + t[b..] == t[a..];
    SubsequenceOfSuffix(f, t[..a], t[a..]);
    assert t[..a] + t[a..] == t;
  }

  // ---------------------------------------------------------------------------------------
  // Tweets and the spam filter list
  // ---------------------------------------------------------------------------------------

  /** A tweet's _source dictionary, which get_url_filtered_tweet updates in place. */
  class TweetData {
    var fields: Dict<string, Value>

    constructor (fields: Dict<string, Value>)
      ensures this.fields == fields
    {
      this.fields := fields;
    }
  }

  /** TweetDocument(id, data): the data is shared, not copied. */
  datatype TweetDocument = TweetDocument(id: string, data: TweetData)

  /** The lines, each stripped. */
  function StrippedLines(lines: seq<string>): (r: seq<string>)
    ensures |r| == |lines| && forall i :: 0 <= i < |lines| ==> r[i] == Strip(lines[i])
  {
    seq(|lines|, i requires 0 <= i < |lines| => Strip(lines[i]))
  }

  /** The non-empty strings of ss, in order. */
  function NonBlank(ss: seq<string>): seq<string> {
    if ss == [] then []
    else NonBlank(ss[..|ss| - 1]) + (if ss[|ss| - 1] != [] then [ss[|ss| - 1]] else [])
  }

  lemma NonBlankSnoc(ss: seq<string>, i: nat)
    requires i < |ss|
    ensures NonBlank(ss[..i + 1]) == NonBlank(ss[..i]) + (if ss[i] != [] then [ss[i]] else [])
  {
    assert ss[..i + 1][..i] == ss[..i];
  }

  /** The patterns load_spam_filters keeps from the filter file's lines: each line stripped,
      blank ones skipped, in file order. */
  function SpamPatterns(lines: seq<string>): seq<string> {
    NonBlank(StrippedLines(lines))
  }

  /** NonBlank keeps exactly the non-empty strings, in order. */
  lemma {:induction false} NonBlankFacts(ss: seq<string>)
    ensures forall p :: p in NonBlank(ss) <==> p != [] && p in ss
    ensures IsSubsequence(NonBlank(ss), ss)
  {
    if ss != [] {
      var n := |ss| - 1;
      var init := NonBlank(ss[..n]);
      NonBlankFacts(ss[..n]);
      assert ss == ss[..n] + [ss[n]];
      SubsequenceRefl([ss[n]]);
      if ss[n] != [] {
        SubsequenceConcat(init, ss[..n], [ss[n]], [ss[n]]);
      } else {
        SubsequenceConcat(init, ss[..n], [], [ss[n]]);
        assert init + [] == init;
      }
    }
  }

  /** A stripped string strips to itself. */
  lemma StripStripped(line: string)
    ensures Strip(Strip(line)) == Strip(line)
  {
    StripByEnds(line, IsPySpace);
    StripByFixed(Strip(line), IsPySpace);
  }

  /** Every kept pattern is a non-blank stripped line; every non-blank line is kept; and the
      patterns keep the order of the file. */
  lemma SpamPatternsFacts(lines: seq<string>)
    ensures forall p :: p in SpamPatterns(lines) ==> p != [] && Strip(p) == p
    ensures forall p :: p in SpamPatterns(lines) <==>
      (p != [] && exists i :: 0 <= i < |lines| && Strip(lines[i]) == p)
    ensures IsSubsequence(SpamPatterns(lines), StrippedLines(lines))
  {
    var st := StrippedLines(lines);
    NonBlankFacts(st);
    forall p | p in SpamPatterns(lines) ensures Strip(p) == p {
      var i :| 0 <= i < |st| && st[i] == p;
      StripStripped(lines[i]);
    }
    forall p ensures p in st <==> exists i :: 0 <= i < |lines| && Strip(lines[i]) == p {
      if p in st {
        var i :| 0 <= i < |st| && st[i] == p;
      }
    }
  }

  /** A filter line re.compile accepts: a blank line is skipped before it is compiled.
      compiles(p) stands for re.compile(p, re.IGNORECASE) not raising re.error. */
  predicate Compiles(line: string, compiles: string -> bool) {
    Strip(line) == [] || compiles(Strip(line))
  }

  /** A stripped line load_spam_filters gets past: blank, or a pattern that compiles. */
  function Accepted(compiles: string -> bool): string -> bool {
    p => p == [] || compiles(p)
  }

  /** How many lines load_spam_filters gets through before a line that does not compile. */
  function CompiledPrefix(lines: seq<string>, compiles: string -> bool): nat {
    FirstFailing(StrippedLines(lines), Accepted(compiles))
  }

  /** Every line before the stop compiles and the line at the stop does not. */
  lemma CompiledPrefixStops(lines: seq<string>, compiles: string -> bool)
    ensures CompiledPrefix(lines, compiles) <= |lines|
    ensures forall j :: 0 <= j < CompiledPrefix(lines, compiles) ==> Compiles(lines[j], compiles)
    ensures CompiledPrefix(lines, compiles) < |lines| ==> !Compiles(lines[CompiledPrefix(lines, compiles)], compiles)
  {
    var st := StrippedLines(lines);
    FirstFailingFacts(st, Accepted(compiles));
    forall j | 0 <= j < CompiledPrefix(lines, compiles) ensures Compiles(lines[j], compiles) {
      assert Accepted(compiles)(st[j]);
    }
  }

  /** Every pattern loaded before the stop is one re.compile accepts. */
  lemma LoadedPatternsCompile(lines: seq<string>, compiles: string -> bool)
    ensures forall p :: p in SpamPatterns(lines[..CompiledPrefix(lines, compiles)]) ==> compiles(p)
  {
    var k := CompiledPrefix(lines, compiles);
    var st := StrippedLines(lines);
    FirstFailingFacts(st, Accepted(compiles));
    StrippedLinesPrefix(lines, k);
    var loaded := st[..k];
    NonBlankFacts(loaded);
    forall p | p in NonBlank(loaded) ensures compiles(p) {
      var j :| 0 <= j < |loaded| && loaded[j] == p;
      assert Accepted(compiles)(st[j]);
    }
  }

  /** Stripping the first i lines is the first i stripped lines. */
  lemma StrippedLinesPrefix(lines: seq<string>, i: nat)
    requires i <= |lines|
    ensures StrippedLines(lines[..i]) == StrippedLines(lines)[..i]
  {
  }

  /** One more line adds its stripped form to the patterns unless it is blank. */
  lemma SpamPatternsSnoc(lines: seq<string>, i: nat)
    requires i < |lines|
    ensures SpamPatterns(lines[..i + 1]) == SpamPatterns(lines[..i]) + (if Strip(lines[i]) != [] then [Strip(lines[i])] else [])
  {
    var st := StrippedLines(lines[..i + 1]);
    assert st[..i] == StrippedLines(lines[..i]);
    assert st[i] == Strip(lines[i]);
    NonBlankSnoc(st, i);
    assert st[..i + 1] == st;
  }

  /** One iteration of load_spam_filters' loop: appending what line i adds extends the patterns
      of the first i lines to those of the first i + 1. */
  lemma LoadStep(before: seq<string>, lines: seq<string>, i: nat, added: seq<string>)
    requires i < |lines|
    requires added == if Strip(lines[i]) != [] then [Strip(lines[i])] else []
    ensures before + SpamPatterns(lines[..i]) + added == before + SpamPatterns(lines[..i + 1])
  {
    SpamPatternsSnoc(lines, i);
    ConcatAssoc(before, SpamPatterns(lines[..i]), added);
  }

  /** With every line compiling, the whole file is loaded and nothing is raised. */
  lemma AllCompile(lines: seq<string>, compiles: string -> bool)
    requires forall j :: 0 <= j < |lines| ==> Compiles(lines[j], compiles)
    ensures CompiledPrefix(lines, compiles) == |lines|
    ensures lines[..CompiledPrefix(lines, compiles)] == lines
  {
    var st := StrippedLines(lines);
    forall j | 0 <= j < |st| ensures Accepted(compiles)(st[j]) {
      assert Compiles(lines[j], compiles);
    }
    FirstFailingAt(st, Accepted(compiles), |lines|);
  }

  /** is_spam_tweet's verdict: with no patterns the message is not even read; otherwise a
      missing message raises KeyError, a non-string one makes the search raise TypeError, and
      a string message is spam iff some pattern matches it. */
  function SpamVerdict(patterns: seq<string>, fields: Dict<string, Value>, matches: (string, string) -> bool): Result<bool> {
    if patterns == [] then Success(false)
    else match Get(fields, "message")
      case None => Failure(MissingKey)
      case Some(v) =>
        if v.VStr? then Success(exists i :: 0 <= i < |patterns| && matches(patterns[i], v.s))
        else Failure(WrongType)
  }

  /** The module-level SPAM_FILTERS list. A pattern is kept as its source text; matches(p, m)
      stands for re.compile(p, re.IGNORECASE).search(m) finding a match. */
  class SpamFilters {
    var patterns: seq<string>

    constructor ()
      ensures patterns == []
    {
      patterns := [];
    }

    /** load_spam_filters over the lines of the filter file; it appends to what earlier loads
        left in the list, and the first non-blank line that re.compile rejects raises re.error
        with the lines before it already loaded. */
    method LoadSpamFilters(lines: seq<string>, compiles: string -> bool) returns (error: Option<Error>)
      modifies this
      ensures patterns == old(patterns) + SpamPatterns(lines[..CompiledPrefix(lines, compiles)])
      ensures error == if CompiledPrefix(lines, compiles) < |lines| then Some(PatternError) else None
    {
      ghost var stripped := StrippedLines(lines);
      ghost var ok := Accepted(compiles);
      var i := 0;
      while i < |lines|
        invariant 0 <= i <= |lines|
        invariant patterns == old(patterns) + SpamPatterns(lines[..i])
        invariant i <= FirstFailing(stripped, ok)
      {
        var line := Strip(lines[i]);
        if line != [] && !compiles(line) {
          FirstFailingStop(stripped, ok, i);
          assert CompiledPrefix(lines, compiles) == i;
          return Some(PatternError);
        }
        FirstFailingStep(stripped, ok, i);
        var added := if line != [] then [line] else [];
        LoadStep(old(patterns), lines, i, added);
        patterns := patterns + added;
        i := i + 1;
      }
      assert CompiledPrefix(lines, compiles) == i;
      assert lines[..i] == lines;
      return None;
    }

    /** is_spam_tweet: the first matching pattern ends the search. */
    method IsSpamTweet(tweet: TweetDocument, matches: (string, string) -> bool) returns (r: Result<bool>)
      ensures r == SpamVerdict(patterns, tweet.data.fields, matches)
    {
      var i := 0;
      while i < |patterns|
        invariant 0 <= i <= |patterns|
        invariant i > 0 ==> Get(tweet.data.fields, "message").Some? && Get(tweet.data.fields, "message").value.VStr?
        invariant i > 0 ==> forall j :: 0 <= j < i ==> !matches(patterns[j], Get(tweet.data.fields, "message").value.s)
      {
        var message := Get(tweet.data.fields, "message");
        if message.None? {
          return Failure(MissingKey);
        }
        if !message.value.VStr? {
          return Failure(WrongType);
        }
        if matches(patterns[i], message.value.s) {
          return Success(true);
        }
        i := i + 1;
      }
      return Success(false);
    }
  }

  // ---------------------------------------------------------------------------------------
  // URL filtering, classification and the update action
  // ---------------------------------------------------------------------------------------

  /** The new data get_url_filtered_tweet writes: the message cleaned of URLs. Reading a
      missing message raises KeyError; substituting in a non-string raises TypeError. */
  function UrlFiltered(fields: Dict<string, Value>): Result<Dict<string, Value>> {
    match Get(fields, "message")
      case None => Failure(MissingKey)
      case Some(v) =>
        if v.VStr? then Success(Set(fields, "message", VStr(FilterUrls(v.s))))
        else Failure(WrongType)
  }

  /** URL filtering succeeds iff the message is a string; then only the message changes, to
      its cleaned form, and the keys stay as they were. */
  lemma UrlFilteredFacts(fields: Dict<string, Value>)
    ensures UrlFiltered(fields).Success? <==> Get(fields, "message").Some? && Get(fields, "message").value.VStr?
    ensures UrlFiltered(fields).Success? ==>
      var f := UrlFiltered(fields).value;
      Get(f, "message") == Some(VStr(FilterUrls(Get(fields, "message").value.s))) &&
      (forall k :: k != "message" ==> Get(f, k) == Get(fields, k)) &&
      Keys(f) == Keys(fields) &&
      (IsDict(fields) ==> IsDict(f))
  {
    match Get(fields, "message")
    case None =>
    case Some(v) =>
      SetFacts(fields, "message", VStr(if v.VStr? then FilterUrls(v.s) else []));
  }

  /** get_url_filtered_tweet: the tweet's own data is updated and the same tweet returned. */
  method GetUrlFilteredTweet(tweet: TweetDocument) returns (r: Result<TweetDocument>)
    modifies tweet.data
    ensures UrlFiltered(old(tweet.data.fields)).Success? ==>
      r == Success(tweet) && tweet.data.fields == UrlFiltered(old(tweet.data.fields)).value
    ensures UrlFiltered(old(tweet.data.fields)).Failure? ==>
      r == Failure(UrlFiltered(old(tweet.data.fields)).error) && tweet.data.fields == old(tweet.data.fields)
  {
    var message := Get(tweet.data.fields, "message");
    if message.None? {
      return Failure(MissingKey);
    }
    if !message.value.VStr? {
      return Failure(WrongType);
    }
    var cleaned := Strip(RemoveUrls(message.value.s));
    tweet.data.fields := Set(tweet.data.fields, "message", VStr(cleaned));
    return Success(tweet);
  }

  /** What a run of the analyzer is configured with: the classifier's name, the classifier
      applied to a message and giving its polarity or raising, and the spam pattern search. */
  datatype Config = Config(
    classifierName: string,
    classify: Value -> Result<real>,
    matches: (string, string) -> bool)

  /** A classified tweet: a fresh data dictionary, not the tweet's _source. */
  datatype ClassifiedTweet = ClassifiedTweet(id: string, data: Dict<string, Value>)

  /** get_classified_tweet. */
  function GetClassifiedTweet(config: Config, id: string, fields: Dict<string, Value>): Result<ClassifiedTweet> {
    match Get(fields, "message")
      case None => Failure(MissingKey)
      case Some(m) =>
        match config.classify(m)
          case Failure(e) => Failure(e)
          case Success(polarity) =>
            Success(ClassifiedTweet(id, [("sentiment_" + config.classifierName, VReal(polarity))]))
  }

  /** Classification keeps the id and yields exactly one field, sentiment_<name>, holding the
      polarity; it fails iff the message is missing or the classifier raises. */
  lemma ClassifiedTweetFacts(config: Config, id: string, fields: Dict<string, Value>)
    ensures GetClassifiedTweet(config, id, fields).Failure? <==>
      Get(fields, "message").None? || config.classify(Get(fields, "message").value).Failure?
    ensures GetClassifiedTweet(config, id, fields).Success? ==>
      var t := GetClassifiedTweet(config, id, fields).value;
      var key := "sentiment_" + config.classifierName;
      t.id == id && Keys(t.data) == [key] && IsDict(t.data) &&
      Get(t.data, key) == Some(VReal(config.classify(Get(fields, "message").value).value))
  {
    if GetClassifiedTweet(config, id, fields).Success? {
      var t := GetClassifiedTweet(config, id, fields).value;
      assert Keys(t.data) == [t.data[0].0];
    }
  }

  /** get_save_action: a partial update of the stored tweet with the classified data. */
  function GetSaveAction(tweet: ClassifiedTweet): Dict<string, Value> {
    [("_op_type", VStr("update")), ("_id", VStr(tweet.id)), ("_index", VStr(INDEX_NAME)),
     ("_type", VStr(DOCUMENT_TYPE)), ("doc", VDict(tweet.data))]
  }

  /** The action names the update by the tweet's id, in index "twitter" and type "tweet",
      with the classified data as the partial document. */
  lemma SaveActionFacts(tweet: ClassifiedTweet)
    ensures var a := GetSaveAction(tweet);
      IsDict(a) && Keys(a) == ["_op_type", "_id", "_index", "_type", "doc"] &&
      Get(a, "_op_type") == Some(VStr("update")) && Get(a, "_id") == Some(VStr(tweet.id)) &&
      Get(a, "_index") == Some(VStr("twitter")) && Get(a, "_type") == Some(VStr("tweet")) &&
      Get(a, "doc") == Some(VDict(tweet.data))
  {
    var a := GetSaveAction(tweet);
    assert Keys(a) == ["_op_type", "_id", "_index", "_type", "doc"];
    GetAt(a, 0);
    GetAt(a, 1);
    GetAt(a, 2);
    GetAt(a, 3);
    GetAt(a, 4);
  }

  // ---------------------------------------------------------------------------------------
  // The fold of get_classified_tweet_actions
  // ---------------------------------------------------------------------------------------

  /** What one tweet leads to: an uncaught exception from the spam check or the URL filter
      ends the generator; a spam tweet is filtered out; otherwise its data has been cleaned
      and it yields an action unless classification raised, which is logged and dropped. */
  datatype Outcome =
    | Aborted(error: Error)
    | Spam
    | Cleaned(fields: Dict<string, Value>, action: Option<Dict<string, Value>>)

  function Step(patterns: seq<string>, config: Config, tweet: (string, Dict<string, Value>)): Outcome {
    match SpamVerdict(patterns, tweet.1, config.matches)
      case Failure(e) => Aborted(e)
      case Success(spam) =>
        if spam then Spam
        else match UrlFiltered(tweet.1)
          case Failure(e) => Aborted(e)
          case Success(f) =>
            Cleaned(f, match GetClassifiedTweet(config, tweet.0, f)
              case Success(t) => Some(GetSaveAction(t))
              case Failure(_) => None)
  }

  /** The actions yielded, and the exception that ended the generator if any. */
  datatype Run = Run(actions: seq<Dict<string, Value>>, error: Option<Error>)

  /** Each tweet's outcome, in order. */
  type Trace = seq<Outcome>

  /** The run so far, followed by one more tweet with outcome o. */
  function Extend(p: Run, o: Outcome): Run {
    if p.error.Some? then p
    else match o
      case Aborted(e) => Run(p.actions, Some(e))
      case Spam => p
      case Cleaned(_, a) => Run(p.actions + (if a.Some? then [a.value] else []), None)
  }

  /** The for loop of get_classified_tweet_actions over a trace of outcomes. */
  function Fold(trace: Trace): Run {
    if trace == [] then Run([], None)
    else
      var n := |trace| - 1;
      Extend(Fold(trace[..n]), trace[n])
  }

  /** Step for a fixed configuration. */
  function StepOf(patterns: seq<string>, config: Config): ((string, Dict<string, Value>)) -> Outcome {
    tweet => Step(patterns, config, tweet)
  }

  /** Each tweet's outcome. */
  function Outcomes(patterns: seq<string>, config: Config, tweets: seq<(string, Dict<string, Value>)>): (r: Trace)
    ensures |r| == |tweets|
  {
    Map(tweets, StepOf(patterns, config))
  }

  lemma OutcomeAt(patterns: seq<string>, config: Config, tweets: seq<(string, Dict<string, Value>)>, i: nat)
    requires i < |tweets|
    ensures Outcomes(patterns, config, tweets)[i] == Step(patterns, config, tweets[i])
  {
  }

  lemma OutcomesAppend(patterns: seq<string>, config: Config, a: seq<(string, Dict<string, Value>)>, b: seq<(string, Dict<string, Value>)>)
    ensures Outcomes(patterns, config, a + b) == Outcomes(patterns, config, a) + Outcomes(patterns, config, b)
  {
    MapAppend(a, b, StepOf(patterns, config));
  }

  lemma OutcomesAt(patterns: seq<string>, config: Config, tweets: seq<(string, Dict<string, Value>)>)
    ensures forall i :: 0 <= i < |tweets| ==> Outcomes(patterns, config, tweets)[i] == Step(patterns, config, tweets[i])
  {
    forall i | 0 <= i < |tweets| ensures Outcomes(patterns, config, tweets)[i] == Step(patterns, config, tweets[i]) {
      OutcomeAt(patterns, config, tweets, i);
    }
  }

  /** The generator over the tweets (id and data, in the order get_tweets yields them). */
  function Process(patterns: seq<string>, config: Config, tweets: seq<(string, Dict<string, Value>)>): Run {
    Fold(Outcomes(patterns, config, tweets))
  }

  /** The actions the tweets would yield if none ended the generator. */
  function Emitted(trace: Trace): seq<Dict<string, Value>> {
    if trace == [] then []
    else
      var o := trace[|trace| - 1];
      Emitted(trace[..|trace| - 1]) + (if o.Cleaned? && o.action.Some? then [o.action.value] else [])
  }

  /** Once the generator has raised, later tweets are not even looked at. */
  lemma {:induction false} FoldAbortSticks(trace: Trace, k: nat)
    requires k <= |trace| && Fold(trace[..k]).error.Some?
    ensures Fold(trace) == Fold(trace[..k])
    decreases |trace|
  {
    if k == |trace| {
      assert trace[..k] == trace;
    } else {
      var n := |trace| - 1;
      assert trace[..n][..k] == trace[..k];
      FoldAbortSticks(trace[..n], k);
    }
  }

  /** One more step of the loop. */
  lemma FoldStep(trace: Trace, i: nat)
    requires i < |trace|
    ensures Fold(trace[..i + 1]) == Extend(Fold(trace[..i]), trace[i])
  {
    assert trace[..i + 1][..i] == trace[..i];
  }

  /** The first uncaught exception ends the run with the actions yielded before it. */
  lemma FoldAbortAt(trace: Trace, i: nat)
    requires i < |trace| && Fold(trace[..i]).error.None? && trace[i].Aborted?
    ensures Fold(trace) == Run(Fold(trace[..i]).actions, Some(trace[i].error))
  {
    FoldStep(trace, i);
    FoldAbortSticks(trace, i + 1);
  }

  /** The generator runs to the end iff no outcome is an uncaught exception. */
  lemma {:induction false} FoldCompletes(trace: Trace)
    ensures Fold(trace).error.None? <==> forall i :: 0 <= i < |trace| ==> !trace[i].Aborted?
  {
    if trace != [] {
      var n := |trace| - 1;
      FoldCompletes(trace[..n]);
      assert forall i :: 0 <= i < n ==> trace[..n][i] == trace[i];
    }
  }

  /** A spam tweet, or one whose classification raised, leaves the yielded actions and the
      outcome exactly as if it were absent. */
  lemma {:induction false} FoldDrops(a: Trace, x: Outcome, b: Trace)
    requires x.Spam? || (x.Cleaned? && x.action.None?)
    ensures Fold(a + [x] + b).actions == Fold(a + b).actions
    ensures Fold(a + [x] + b).error == Fold(a + b).error
    decreases |b|
  {
    if b == [] {
      assert a + [x] + b == a + [x];
      assert (a + [x])[..|a|] == a;
      assert a + b == a;
    } else {
      var n := |b| - 1;
      FoldDrops(a, x, b[..n]);
      assert (a + [x] + b)[..|a + [x] + b| - 1] == a + [x] + b[..n];
      assert (a + b)[..|a + b| - 1] == a + b[..n];
      assert (a + [x] + b)[|a + [x] + b| - 1] == b[n];
      assert (a + b)[|a + b| - 1] == b[n];
    }
  }

  /** The yielded actions keep the order of the tweets. */
  lemma {:induction false} FoldActionsInOrder(trace: Trace)
    ensures IsSubsequence(Fold(trace).actions, Emitted(trace))
  {
    if trace != [] {
      var n := |trace| - 1;
      FoldActionsInOrder(trace[..n]);
      var p := Fold(trace[..n]);
      var c := Emitted(trace[..n]);
      var o := trace[n];
      var last := if o.Cleaned? && o.action.Some? then [o.action.value] else [];
      SubsequenceRefl(last);
      if p.error.Some? || !o.Cleaned? {
        SubsequenceConcat(p.actions, c, [], last);
        assert p.actions + [] == p.actions;
      } else {
        SubsequenceConcat(p.actions, c, last, last);
      }
    }
  }

  /** Every yielded action is the action of a tweet whose data was cleaned. */
  lemma {:induction false} FoldActionsFrom(trace: Trace)
    ensures forall a :: a in Fold(trace).actions ==>
      exists i :: 0 <= i < |trace| && trace[i].Cleaned? && trace[i].action == Some(a)
  {
    if trace != [] {
      var n := |trace| - 1;
      FoldActionsFrom(trace[..n]);
      forall a | a in Fold(trace).actions
        ensures exists i :: 0 <= i < |trace| && trace[i].Cleaned? && trace[i].action == Some(a)
      {
        if a in Fold(trace[..n]).actions {
          var i :| 0 <= i < n && trace[..n][i].Cleaned? && trace[..n][i].action == Some(a);
          assert trace[..n][i] == trace[i];
        }
      }
    }
  }

  /** When every tweet is cleaned and classified, every one yields its action, in order. */
  lemma {:induction false} FoldAllEmitted(trace: Trace)
    requires forall i :: 0 <= i < |trace| ==> trace[i].Cleaned? && trace[i].action.Some?
    ensures Fold(trace).error.None? && |Fold(trace).actions| == |trace|
    ensures forall i :: 0 <= i < |trace| ==> Fold(trace).actions[i] == trace[i].action.value
  {
    if trace != [] {
      var n := |trace| - 1;
      assert forall i :: 0 <= i < n ==> trace[..n][i] == trace[i];
      FoldAllEmitted(trace[..n]);
    }
  }

  /** A tweet that is not spam and whose message is a string is cleaned; it yields the
      update action of its classification unless classifying raised. */
  lemma StepFacts(patterns: seq<string>, config: Config, tweet: (string, Dict<string, Value>))
    ensures Step(patterns, config, tweet).Cleaned? <==>
      SpamVerdict(patterns, tweet.1, config.matches) == Success(false) && UrlFiltered(tweet.1).Success?
    ensures Step(patterns, config, tweet).Cleaned? ==>
      var o := Step(patterns, config, tweet);
      var c := GetClassifiedTweet(config, tweet.0, o.fields);
      o.fields == UrlFiltered(tweet.1).value &&
      (o.action.Some? <==> c.Success?) && (c.Success? ==> o.action.value == GetSaveAction(c.value))
  {
  }

  /** The generator runs to the end iff no tweet's spam check or URL filter raises. */
  lemma ProcessCompletes(patterns: seq<string>, config: Config, tweets: seq<(string, Dict<string, Value>)>)
    ensures Process(patterns, config, tweets).error.None? <==>
      forall i :: 0 <= i < |tweets| ==> !Step(patterns, config, tweets[i]).Aborted?
  {
    FoldCompletes(Outcomes(patterns, config, tweets));
    OutcomesAt(patterns, config, tweets);
  }

  /** A spam tweet, or one whose classification raises, leaves the yielded actions and the
      outcome exactly as if it were absent. */
  lemma ProcessDropsTweet(patterns: seq<string>, config: Config, a: seq<(string, Dict<string, Value>)>, x: (string, Dict<string, Value>), b: seq<(string, Dict<string, Value>)>)
    requires Step(patterns, config, x).Spam? || (Step(patterns, config, x).Cleaned? && Step(patterns, config, x).action.None?)
    ensures Process(patterns, config, a + [x] + b).actions == Process(patterns, config, a + b).actions
    ensures Process(patterns, config, a + [x] + b).error == Process(patterns, config, a + b).error
  {
    var oa := Outcomes(patterns, config, a);
    var ob := Outcomes(patterns, config, b);
    var ox := Step(patterns, config, x);
    OutcomesAppend(patterns, config, a + [x], b);
    OutcomesAppend(patterns, config, a, b);
    assert (a + [x])[..|a|] == a;
    assert Outcomes(patterns, config, a + [x]) == oa + [ox];
    assert Outcomes(patterns, config, a + [x] + b) == oa + [ox] + ob;
    FoldDrops(oa, ox, ob);
  }

  /** Every yielded action updates, by its id, a tweet that is not spam, with the sentiment of
      its URL-free message; and the actions keep the order of those tweets. */
  lemma ProcessActionsFrom(patterns: seq<string>, config: Config, tweets: seq<(string, Dict<string, Value>)>)
    ensures forall a :: a in Process(patterns, config, tweets).actions ==>
      exists i :: 0 <= i < |tweets| && SpamVerdict(patterns, tweets[i].1, config.matches) == Success(false) &&
        UrlFiltered(tweets[i].1).Success? &&
        GetClassifiedTweet(config, tweets[i].0, UrlFiltered(tweets[i].1).value).Success? &&
        a == GetSaveAction(GetClassifiedTweet(config, tweets[i].0, UrlFiltered(tweets[i].1).value).value)
    ensures IsSubsequence(Process(patterns, config, tweets).actions, Emitted(Outcomes(patterns, config, tweets)))
  {
    var trace := Outcomes(patterns, config, tweets);
    FoldActionsFrom(trace);
    FoldActionsInOrder(trace);
    OutcomesAt(patterns, config, tweets);
    forall a | a in Process(patterns, config, tweets).actions
      ensures exists i :: (0 <= i < |tweets| && SpamVerdict(patterns, tweets[i].1, config.matches) == Success(false) &&
        UrlFiltered(tweets[i].1).Success? &&
        GetClassifiedTweet(config, tweets[i].0, UrlFiltered(tweets[i].1).value).Success? &&
        a == GetSaveAction(GetClassifiedTweet(config, tweets[i].0, UrlFiltered(tweets[i].1).value).value))
    {
      var i :| 0 <= i < |trace| && trace[i].Cleaned? && trace[i].action == Some(a);
      StepFacts(patterns, config, tweets[i]);
    }
  }

  /** With no spam patterns, string messages and a classifier that never raises, every tweet
      yields its action, in order. */
  lemma ProcessAllClassified(patterns: seq<string>, config: Config, tweets: seq<(string, Dict<string, Value>)>)
    requires patterns == []
    requires forall i :: 0 <= i < |tweets| ==> Get(tweets[i].1, "message").Some? && Get(tweets[i].1, "message").value.VStr?
    requires forall v :: config.classify(v).Success?
    ensures var r := Process(patterns, config, tweets);
      r.error.None? && |r.actions| == |tweets| &&
      forall i :: 0 <= i < |tweets| ==>
        r.actions[i] == GetSaveAction(ClassifiedTweet(tweets[i].0,
          [("sentiment_" + config.classifierName, VReal(config.classify(VStr(FilterUrls(Get(tweets[i].1, "message").value.s))).value))]))
  {
    var trace := Outcomes(patterns, config, tweets);
    OutcomesAt(patterns, config, tweets);
    forall i | 0 <= i < |tweets|
      ensures trace[i].Cleaned? && trace[i].action.Some?
      ensures trace[i].action.value == GetSaveAction(ClassifiedTweet(tweets[i].0,
          [("sentiment_" + config.classifierName, VReal(config.classify(VStr(FilterUrls(Get(tweets[i].1, "message").value.s))).value))]))
    {
      UrlFilteredFacts(tweets[i].1);
      StepFacts(patterns, config, tweets[i]);
    }
    FoldAllEmitted(trace);
  }

  /** The body of get_classified_tweet_actions' for loop for one tweet, with the spam check and
      the URL filter that the lazy filter and map run just before it. */
  method ProcessTweet(filters: SpamFilters, config: Config, tweet: TweetDocument) returns (o: Outcome)
    modifies tweet.data
    ensures o == Step(filters.patterns, config, (tweet.id, old(tweet.data.fields)))
    ensures tweet.data.fields == if o.Cleaned? then o.fields else old(tweet.data.fields)
  {
    var spam := filters.IsSpamTweet(tweet, config.matches);
    if spam.Failure? {
      return Aborted(spam.error);
    }
    if spam.value {
      return Spam;
    }
    var filtered := GetUrlFilteredTweet(tweet);
    if filtered.Failure? {
      return Aborted(filtered.error);
    }
    var classified := GetClassifiedTweet(config, tweet.id, tweet.data.fields);
    var action := if classified.Success? then Some(GetSaveAction(classified.value)) else None;
    return Cleaned(tweet.data.fields, action);
  }

  /** get_classified_tweet_actions, drained, over the hits of the scroll search (their _id and
      _source, in order). As get_tweets does, each hit becomes a TweetDocument of its own, whose
      data the URL filter then updates. */
  method GetClassifiedTweetActions(filters: SpamFilters, config: Config, hits: seq<(string, Dict<string, Value>)>)
    returns (actions: seq<Dict<string, Value>>, error: Option<Error>)
    ensures actions == Process(filters.patterns, config, hits).actions
    ensures error == Process(filters.patterns, config, hits).error
  {
    ghost var trace := Outcomes(filters.patterns, config, hits);
    actions := [];
    error := None;
    var i := 0;
    while i < |hits|
      invariant 0 <= i <= |hits|
      invariant Fold(trace[..i]) == Run(actions, None)
    {
      FoldStep(trace, i);
      var data := new TweetData(hits[i].1);
      var tweet := TweetDocument(hits[i].0, data);
      var o := ProcessTweet(filters, config, tweet);
      OutcomeAt(filters.patterns, config, hits, i);
      if o.Aborted? {
        error := Some(o.error);
        FoldAbortAt(trace, i);
        return;
      }
      if o.Cleaned? && o.action.Some? {
        actions := actions + [o.action.value];
      }
      i := i + 1;
    }
    assert trace[..i] == trace;
  }
}

/** filter_tweets, decode_sentence and the create*Corpus writers, which both corpus converters
    define identically: a tweet loses every "Read more:", then every "RT", then every "b",
    and then every space-separated word that starts with "https", "http", "#" or "@". */
module TweetFilter {
  import opened Wrappers
  import opened Seqs
  import opened Text
  import opened Utf8

  /** The substrings deleted from every tweet, in this order. */
  const REPLACE_CHARS: seq<string> := ["Read more:", "RT", "b"]

  /** A word that starts with one of these is dropped. */
  const EXCLUDE_WORDS: seq<string> := ["https", "http", "#", "@"]

  predicate NonEmptyAll(ps: seq<string>) {
    forall i :: 0 <= i < |ps| ==> |ps[i]| > 0
  }

  /** str.startswith. */
  predicate StartsWith(w: string, p: string) {
    |p| <= |w| && w[..|p|] == p
  }

  predicate Excluded(w: string, prefixes: seq<string>) {
    exists i :: 0 <= i < |prefixes| && StartsWith(w, prefixes[i])
  }

  /** sentence.replace(p, "") for each pattern p in turn. */
  function DeleteAll(s: string, pats: seq<string>): string
    requires NonEmptyAll(pats)
  {
    if pats == [] then s
    else Replace(DeleteAll(s, pats[..|pats| - 1]), pats[|pats| - 1], "")
  }

  /** ' '.join(word for word in s.split(' ') if not word.startswith(p)). */
  function DropWords(s: string, p: string): string {
    Join(Filter(Split(s, ' '), w => !StartsWith(w, p)), ' ')
  }

  /** DropWords for each prefix in turn. */
  function DropAll(s: string, prefixes: seq<string>): string {
    if prefixes == [] then s
    else DropWords(DropAll(s, prefixes[..|prefixes| - 1]), prefixes[|prefixes| - 1])
  }

  /** What filter_tweets returns. */
  function Filtered(sentence: string): string {
    DropAll(DeleteAll(sentence, REPLACE_CHARS), EXCLUDE_WORDS)
  }

  /** The words of a tweet after the deletions that no excluded prefix starts. */
  function KeptWords(sentence: string): (r: seq<string>)
    ensures forall w :: w in r <==> w in Split(DeleteAll(sentence, REPLACE_CHARS), ' ') && !Excluded(w, EXCLUDE_WORDS)
    ensures IsSubsequence(r, Split(DeleteAll(sentence, REPLACE_CHARS), ' '))
  {
    var ws := Split(DeleteAll(sentence, REPLACE_CHARS), ' ');
    FilterSubsequence(ws, w => !Excluded(w, EXCLUDE_WORDS));
    Filter(ws, w => !Excluded(w, EXCLUDE_WORDS))
  }

  /** filter_tweets. */
  method FilterTweets(sentence: string) returns (r: string)
    ensures r == Filtered(sentence)
  {
    r := sentence;
    for i := 0 to |REPLACE_CHARS|
      invariant r == DeleteAll(sentence, REPLACE_CHARS[..i])
    {
      DeleteAllSnoc(sentence, REPLACE_CHARS, i);
      r := Replace(r, REPLACE_CHARS[i], "");
    }
    assert REPLACE_CHARS[..|REPLACE_CHARS|] == REPLACE_CHARS;
    ghost var deleted := r;
    for i := 0 to |EXCLUDE_WORDS|
      invariant r == DropAll(deleted, EXCLUDE_WORDS[..i])
    {
      DropAllSnoc(deleted, EXCLUDE_WORDS, i);
      r := DropWords(r, EXCLUDE_WORDS[i]);
    }
    assert EXCLUDE_WORDS[..|EXCLUDE_WORDS|] == EXCLUDE_WORDS;
  }

  lemma DeleteAllSnoc(s: string, pats: seq<string>, i: nat)
    requires NonEmptyAll(pats) && i < |pats|
    ensures NonEmptyAll(pats[..i]) && NonEmptyAll(pats[..i + 1])
    ensures DeleteAll(s, pats[..i + 1]) == Replace(DeleteAll(s, pats[..i]), pats[i], "")
  {
    assert pats[..i + 1][..i] == pats[..i];
    assert forall j :: 0 <= j <= i ==> pats[..i + 1][j] == pats[j];
  }

  lemma DropAllSnoc(s: string, prefixes: seq<string>, i: nat)
    requires i < |prefixes|
    ensures DropAll(s, prefixes[..i + 1]) == DropWords(DropAll(s, prefixes[..i]), prefixes[i])
  {
    assert prefixes[..i + 1][..i] == prefixes[..i];
  }

  /** One more prefix excludes the words it starts as well. */
  lemma ExcludedSnoc(w: string, prefixes: seq<string>)
    requires prefixes != []
    ensures Excluded(w, prefixes) == (Excluded(w, prefixes[..|prefixes| - 1]) || StartsWith(w, prefixes[|prefixes| - 1]))
  {
    var init := prefixes[..|prefixes| - 1];
    if Excluded(w, prefixes) {
      var i :| 0 <= i < |prefixes| && StartsWith(w, prefixes[i]);
      if i < |init| { assert init[i] == prefixes[i]; }
    }
    if Excluded(w, init) {
      var i :| 0 <= i < |init| && StartsWith(w, init[i]);
      assert prefixes[i] == init[i];
    }
  }

  /** Dropping words from a join of words that hold no space filters those words. */
  lemma DropWordsJoin(kept: seq<string>, p: string)
    requires |p| > 0 && forall w :: w in kept ==> ' ' !in w
    ensures DropWords(Join(kept, ' '), p) == Join(Filter(kept, w => !StartsWith(w, p)), ' ')
  {
    if kept == [] {
      assert Split(Join(kept, ' '), ' ') == [""];
      assert !StartsWith("", p);
      assert Filter([""], w => !StartsWith(w, p)) == [""];
    } else {
      SplitJoin(kept, ' ');
    }
  }

  /** Dropping words prefix by prefix is dropping, in one pass, every word with one of the
      prefixes. */
  lemma {:induction false} DropAllWords(s: string, prefixes: seq<string>)
    requires NonEmptyAll(prefixes)
    ensures DropAll(s, prefixes) == Join(Filter(Split(s, ' '), w => !Excluded(w, prefixes)), ' ')
  {
    if prefixes == [] {
      FilterAllKept(Split(s, ' '), w => !Excluded(w, prefixes));
      JoinSplit(s, ' ');
    } else {
      var n := |prefixes| - 1;
      var init, p := prefixes[..n], prefixes[n];
      DropAllWords(s, init);
      var notInit := w => !Excluded(w, init);
      var notP := w => !StartsWith(w, p);
      forall w ensures !Excluded(w, prefixes) == (notInit(w) && notP(w)) {
        ExcludedSnoc(w, prefixes);
      }
      FilterFilter(Split(s, ' '), notInit, notP, w => !Excluded(w, prefixes));
      SplitPiecesLackSeparator(s, ' ');
      DropWordsJoin(Filter(Split(s, ' '), notInit), p);
    }
  }

  lemma {:induction false} DeleteAllSubsequence(s: string, pats: seq<string>)
    requires NonEmptyAll(pats)
    ensures IsSubsequence(DeleteAll(s, pats), s)
  {
    if pats == [] {
      SubsequenceRefl(s);
    } else {
      var init := DeleteAll(s, pats[..|pats| - 1]);
      DeleteAllSubsequence(s, pats[..|pats| - 1]);
      DeleteIsSubsequence(init, pats[|pats| - 1]);
      SubsequenceTrans(DeleteAll(s, pats), init, s);
    }
  }

  /** The surviving words of a tweet, in their order, joined by single spaces; an empty word
      (from two spaces in a row) is not dropped. Splitting the result gives those words back,
      and none of them starts with an excluded prefix. */
  lemma FilteredWords(sentence: string)
    ensures Filtered(sentence) == Join(KeptWords(sentence), ' ')
    ensures Split(Filtered(sentence), ' ') == if KeptWords(sentence) == [] then [""] else KeptWords(sentence)
    ensures forall w, i :: w in Split(Filtered(sentence), ' ') && 0 <= i < |EXCLUDE_WORDS| ==> !StartsWith(w, EXCLUDE_WORDS[i])
  {
    var deleted := DeleteAll(sentence, REPLACE_CHARS);
    var kept := KeptWords(sentence);
    DropAllWords(deleted, EXCLUDE_WORDS);
    if kept != [] {
      SplitPiecesLackSeparator(deleted, ' ');
      SplitJoin(kept, ' ');
    }
    forall w, i | w in Split(Filtered(sentence), ' ') && 0 <= i < |EXCLUDE_WORDS|
      ensures !StartsWith(w, EXCLUDE_WORDS[i])
    {
      if kept == [] {
        assert w == "";
      } else {
        assert !Excluded(w, EXCLUDE_WORDS);
      }
    }
  }

  /** Past the character deletions, filter_tweets only drops words. */
  lemma DroppedSubsequence(sentence: string)
    ensures IsSubsequence(Filtered(sentence), DeleteAll(sentence, REPLACE_CHARS))
  {
    var deleted := DeleteAll(sentence, REPLACE_CHARS);
    DropAllWords(deleted, EXCLUDE_WORDS);
    var words := Split(deleted, ' ');
    FilterSubsequence(words, w => !Excluded(w, EXCLUDE_WORDS));
    JoinSubsequence(Filter(words, w => !Excluded(w, EXCLUDE_WORDS)), words, ' ');
    JoinSplit(deleted, ' ');
  }

  /** No "b" survives the character deletions. */
  lemma DeletedLacksB(sentence: string)
    ensures 'b' !in DeleteAll(sentence, REPLACE_CHARS)
  {
    assert REPLACE_CHARS[..2][..1] == ["Read more:"] && REPLACE_CHARS[2] == ['b'];
    DeleteCharMembers(DeleteAll(sentence, REPLACE_CHARS[..2]), 'b');
  }

  /** filter_tweets only deletes characters, and no "b" survives it. */
  lemma FilteredChars(sentence: string)
    ensures IsSubsequence(Filtered(sentence), sentence)
    ensures 'b' !in Filtered(sentence)
  {
    var deleted := DeleteAll(sentence, REPLACE_CHARS);
    DroppedSubsequence(sentence);
    DeleteAllSubsequence(sentence, REPLACE_CHARS);
    SubsequenceTrans(Filtered(sentence), deleted, sentence);
    DeletedLacksB(sentence);
    if 'b' in Filtered(sentence) {
      SubsequenceMembers(Filtered(sentence), deleted, 'b');
    }
  }

  /** decode_sentence: UTF-8 encoding then strict decoding. */
  function DecodeSentence(sentence: string): Result<string> {
    Decode(Encode(sentence))
  }

  /** decode_sentence never fails and gives its input back. */
  lemma DecodeSentenceIdentity(sentence: string)
    ensures DecodeSentence(sentence) == Success(sentence)
  {
    DecodeEncode(sentence);
  }

  /** The module-level PositiveTweetMessage, NegativeTweetMessage and NeutralTweetMessage
      lists of a converter. */
  datatype Lists = Lists(positive: seq<string>, negative: seq<string>, neutral: seq<string>)

  /** A corpus file opened for appending. */
  class CorpusFile {
    var content: string

    constructor(content: string)
      ensures this.content == content
    {
      this.content := content;
    }
  }

  /** The text of lines written one after the other, each followed by a line break. */
  function LinesText(lines: seq<string>): string {
    if lines == [] then "" else lines[0] + "\n" + LinesText(lines[1..])
  }

  lemma {:induction false} LinesTextAppend(lines: seq<string>, line: string)
    ensures LinesText(lines + [line]) == LinesText(lines) + line + "\n"
  {
    if lines != [] {
      assert (lines + [line])[0] == lines[0] && (lines + [line])[1..] == lines[1..] + [line];
      LinesTextAppend(lines[1..], line);
      assert LinesText(lines + [line]) == lines[0] + "\n" + (LinesText(lines[1..]) + line + "\n");
    }
  }

  lemma LinesTextSnoc(lines: seq<string>, front: seq<string>, line: string)
    requires lines == front + [line]
    ensures LinesText(lines) == LinesText(front) + (line + "\n")
  {
    LinesTextAppend(front, line);
    ConcatAssoc(LinesText(front), line, "\n");
  }

  /** Lines without line breaks read back, split at line breaks, as themselves, followed by
      the empty piece after the last break. */
  lemma {:induction false} LinesTextSplit(lines: seq<string>)
    requires forall i :: 0 <= i < |lines| ==> '\n' !in lines[i]
    ensures Split(LinesText(lines), '\n') == lines + [""]
  {
    if lines != [] {
      SplitPiecesLackSeparator(lines[0], '\n');
      SplitConcat(lines[0], LinesText(lines[1..]), '\n');
      LinesTextSplit(lines[1..]);
      assert lines == [lines[0]] + lines[1..];
    }
  }

  /** The filtered tweets, in list order: the lines of a corpus. */
  function FilteredAll(tweets: seq<string>): (r: seq<string>)
    ensures |r| == |tweets| && forall i :: 0 <= i < |tweets| ==> r[i] == Filtered(tweets[i])
  {
    Map(tweets, Filtered)
  }

  /** A corpus of tweets without line breaks reads back, line by line, as the filtered
      tweets in list order. */
  lemma CorpusLines(tweets: seq<string>)
    requires forall i :: 0 <= i < |tweets| ==> '\n' !in tweets[i]
    ensures Split(LinesText(FilteredAll(tweets)), '\n') == FilteredAll(tweets) + [""]
  {
    var lines := FilteredAll(tweets);
    forall i | 0 <= i < |lines| ensures '\n' !in lines[i] {
      FilteredChars(tweets[i]);
      if '\n' in lines[i] {
        SubsequenceMembers(lines[i], tweets[i], '\n');
      }
    }
    LinesTextSplit(lines);
  }

  lemma CorpusStep(tweets: seq<string>, i: nat)
    requires i < |tweets|
    ensures LinesText(FilteredAll(tweets[..i + 1])) == LinesText(FilteredAll(tweets[..i])) + (Filtered(tweets[i]) + "\n")
  {
    MapSnoc(tweets, i, Filtered);
    LinesTextSnoc(FilteredAll(tweets[..i + 1]), FilteredAll(tweets[..i]), Filtered(tweets[i]));
  }

  /** create*Corpus: append one filtered line per tweet. */
  method WriteCorpus(file: CorpusFile, tweets: seq<string>)
    modifies file
    ensures file.content == old(file.content) + LinesText(FilteredAll(tweets))
  {
    for i := 0 to |tweets|
      invariant file.content == old(file.content) + LinesText(FilteredAll(tweets[..i]))
    {
      DecodeSentenceIdentity(tweets[i]);
      var tweet := DecodeSentence(tweets[i]).value;
      tweet := FilterTweets(tweet);
      CorpusStep(tweets, i);
      ConcatAssoc(old(file.content), LinesText(FilteredAll(tweets[..i])), tweet + "\n");
      file.content := file.content + (tweet + "\n");
    }
    assert tweets[..|tweets|] == tweets;
  }
}

/** The bag-of-words feature pipeline of the naive Bayes tweet classifier: the tokenizer,
    stop-word cleaning, vocabulary selection by frequency, sparse feature maps, the labelled
    training set, the probability-to-polarity rule and the one-slot classifier cache.
    The NLTK model itself is a type parameter with an abstract distribution. */
module NaiveBayes {
  import opened Wrappers
  import opened Seqs
  import opened Text
  import opened Sorting
  import opened Documents

  /** WORD_SAMPLE_SIZE: how many of the most common words are kept as the vocabulary. */
  const WORD_SAMPLE_SIZE: nat := 10000

  // ---------------------------------------------------------------------------------------
  // Tokenizer (get_word_list)

  /** The characters WORD_PATTERN = [^a-z ] does not match. */
  predicate IsWordChar(c: char) { IsLowerLetter(c) || c == ' ' }

  predicate IsWordString(s: string) {
    forall i :: 0 <= i < |s| ==> IsWordChar(s[i])
  }

  /** WORD_PATTERN.sub("", s): every character outside a-z and the space is deleted. */
  function DeleteNonWordChars(s: string): (r: string)
    ensures IsWordString(r)
  {
    var r := Filter(s, IsWordChar);
    assert forall i :: 0 <= i < |r| ==> r[i] in r;
    r
  }

  predicate NoAdjacentSpaces(s: string) {
    forall i :: 0 <= i < |s| - 1 ==> !(IsPySpace(s[i]) && IsPySpace(s[i + 1]))
  }

  /** WHITESPACE_PATTERN.sub(" ", s) with WHITESPACE_PATTERN = \s{2,}: each maximal run of
      two or more whitespace characters becomes a single space; a lone whitespace character
      stays as it is. */
  function CollapseWhitespace(s: string): string
    decreases |s|
  {
    if |s| >= 2 && IsPySpace(s[0]) && IsPySpace(s[1]) then
      var rest := LStripBy(s, IsPySpace);
      SkipSpaces(s);
      " " + CollapseWhitespace(rest)
    else if |s| == 0 then ""
    else [s[0]] + CollapseWhitespace(s[1..])
  }

  /** The whitespace run at the front of s, removed. */
  lemma SkipSpaces(s: string)
    requires s != [] && IsPySpace(s[0])
    ensures var rest := LStripBy(s, IsPySpace);
      |rest| < |s| && (forall i :: 0 <= i < |rest| ==> rest[i] == s[|s| - |rest| + i])
  {
    var rest := LStripBy(s, IsPySpace);
    assert rest == [] || rest != s;
  }

  /** Collapsing keeps the string empty or not, and keeps whether it starts with whitespace. */
  lemma CollapseFront(s: string)
    ensures CollapseWhitespace(s) == [] <==> s == []
    ensures s != [] ==> (IsPySpace(CollapseWhitespace(s)[0]) <==> IsPySpace(s[0]))
  {
  }

  lemma {:induction false} CollapseNoAdjacent(s: string)
    ensures NoAdjacentSpaces(CollapseWhitespace(s))
    decreases |s|
  {
    if |s| >= 2 && IsPySpace(s[0]) && IsPySpace(s[1]) {
      var rest := LStripBy(s, IsPySpace);
      SkipSpaces(s);
      CollapseNoAdjacent(rest);
      CollapseFront(rest);
    } else if |s| > 0 {
      CollapseNoAdjacent(s[1..]);
      CollapseFront(s[1..]);
    }
  }

  lemma ConsWordString(c: char, t: string)
    requires IsWordChar(c) && IsWordString(t)
    ensures IsWordString([c] + t)
  {
    assert forall i :: 0 < i <= |t| ==> ([c] + t)[i] == t[i - 1];
  }

  lemma SuffixWordString(s: string, k: nat)
    requires k <= |s| && IsWordString(s)
    ensures IsWordString(s[k..])
  {
    assert forall i :: 0 <= i < |s| - k ==> s[k..][i] == s[k + i];
  }

  lemma {:induction false} CollapseWordString(s: string)
    requires IsWordString(s)
    ensures IsWordString(CollapseWhitespace(s))
    decreases |s|
  {
    if |s| >= 2 && IsPySpace(s[0]) && IsPySpace(s[1]) {
      var rest := LStripBy(s, IsPySpace);
      SkipSpaces(s);
      SuffixWordString(s, |s| - |rest|);
      CollapseWordString(rest);
      ConsWordString(' ', CollapseWhitespace(rest));
    } else if |s| > 0 {
      SuffixWordString(s, 1);
      CollapseWordString(s[1..]);
      ConsWordString(s[0], CollapseWhitespace(s[1..]));
    }
  }

  /** A string without two whitespace characters in a row is unchanged. */
  lemma {:induction false} CollapseFixed(s: string)
    requires NoAdjacentSpaces(s)
    ensures CollapseWhitespace(s) == s
    decreases |s|
  {
    if |s| > 0 {
      CollapseFixed(s[1..]);
    }
  }

  /** The sentence get_word_list splits: lower-cased, non-word characters deleted,
      whitespace runs collapsed, stripped. */
  function CleanSentence(sentence: string): string {
    Strip(CollapseWhitespace(DeleteNonWordChars(Lower(sentence))))
  }

  /** get_word_list(sentence): the cleaned sentence split on single spaces. */
  function GetWordList(sentence: string): seq<string> {
    Split(CleanSentence(sentence), ' ')
  }

  /** Any infix of a word string without adjacent spaces is one too. */
  lemma InfixKeepsWordString(s: string, t: string, a: nat)
    requires a + |t| <= |s| && t == s[a..a + |t|]
    requires IsWordString(s) && NoAdjacentSpaces(s)
    ensures IsWordString(t) && NoAdjacentSpaces(t)
  {
    forall i | 0 <= i < |t| ensures IsWordChar(t[i]) {
      assert t[i] == s[a + i];
    }
    forall i | 0 <= i < |t| - 1 ensures !(IsPySpace(t[i]) && IsPySpace(t[i + 1])) {
      assert t[i] == s[a + i] && t[i + 1] == s[a + i + 1];
    }
  }

  /** Stripping keeps both properties, as it only removes characters at the ends. */
  lemma StripKeepsWordString(col: string)
    requires IsWordString(col) && NoAdjacentSpaces(col)
    ensures IsWordString(Strip(col)) && NoAdjacentSpaces(Strip(col))
  {
    var t := Strip(col);
    var a := |col| - |LStripBy(col, IsPySpace)|;
    assert a + |t| <= |col| && t == col[a..a + |t|] by {
      StripByInfix(col, IsPySpace);
    }
    InfixKeepsWordString(col, t, a);
  }

  /** The cleaned sentence holds only a-z and spaces, no two spaces in a row, and neither
      starts nor ends with a space. */
  lemma CleanSentenceFacts(sentence: string)
    ensures var c := CleanSentence(sentence);
      && IsWordString(c) && NoAdjacentSpaces(c)
      && (c == [] || (c[0] != ' ' && c[|c| - 1] != ' '))
  {
    var k := DeleteNonWordChars(Lower(sentence));
    var col := CollapseWhitespace(k);
    CollapseNoAdjacent(k);
    CollapseWordString(k);
    StripKeepsWordString(col);
    StripByEnds(col, IsPySpace);
  }

  /** Every token consists of the letters a-z only. */
  lemma TokensAreLowerLetters(sentence: string)
    ensures forall w, c :: w in GetWordList(sentence) && c in w ==> IsLowerLetter(c)
  {
    var c := CleanSentence(sentence);
    CleanSentenceFacts(sentence);
    SplitMembers(c, ' ');
    SplitPiecesLackSeparator(c, ' ');
    forall w, x | w in GetWordList(sentence) && x in w ensures IsLowerLetter(x) {
      var i :| 0 <= i < |c| && c[i] == x;
      assert IsWordChar(c[i]);
    }
  }

  lemma NoAdjacentSpaceChars(c: string)
    requires NoAdjacentSpaces(c)
    ensures forall i :: 0 <= i < |c| - 1 ==> !(c[i] == ' ' && c[i + 1] == ' ')
  {
    forall i | 0 <= i < |c| - 1 && c[i] == ' ' ensures c[i + 1] != ' ' {
      assert IsPySpace(c[i]);
    }
  }

  /** No token is empty, unless the cleaned sentence is empty: then the only token is "". */
  lemma TokensNonEmpty(sentence: string)
    ensures CleanSentence(sentence) == [] ==> GetWordList(sentence) == [""]
    ensures CleanSentence(sentence) != [] ==> forall w :: w in GetWordList(sentence) ==> w != ""
  {
    var c := CleanSentence(sentence);
    CleanSentenceFacts(sentence);
    if c != [] {
      NoAdjacentSpaceChars(c);
      SplitPiecesNonEmpty(c, ' ');
    }
  }

  /** A cleaned sentence is its own cleaning. */
  lemma CleanSentenceFixed(sentence: string)
    ensures CleanSentence(CleanSentence(sentence)) == CleanSentence(sentence)
  {
    var c := CleanSentence(sentence);
    CleanSentenceFacts(sentence);
    WordStringLowerFixed(c);
    FilterAllKept(c, IsWordChar);
    CollapseFixed(c);
    StripByFixed(c, IsPySpace);
  }

  /** Lower-casing a word string changes nothing. */
  lemma WordStringLowerFixed(c: string)
    requires IsWordString(c)
    ensures Lower(c) == c
  {
    forall i | 0 <= i < |c| ensures Lower(c)[i] == c[i] {
      assert IsWordChar(c[i]);
    }
  }

  /** Tokenizing the space-joined tokens gives the same tokens. */
  lemma GetWordListJoin(sentence: string)
    ensures GetWordList(Join(GetWordList(sentence), ' ')) == GetWordList(sentence)
  {
    JoinSplit(CleanSentence(sentence), ' ');
    CleanSentenceFixed(sentence);
  }

  /** ASCII case does not matter to the tokenizer. */
  lemma GetWordListIgnoresCase(sentence: string)
    ensures GetWordList(Upper(sentence)) == GetWordList(sentence)
  {
    LowerOfUpper(sentence);
  }

  // ---------------------------------------------------------------------------------------
  // Stop words (get_stop_words)

  /** One line of the stop-word file after strip(), lower() and WORD_PATTERN.sub(""). */
  function CleanStopWordLine(line: string): string {
    DeleteNonWordChars(Lower(Strip(line)))
  }

  /** Every line of the file, cleaned. */
  function CleanedLines(lines: seq<string>): (r: seq<string>)
    ensures |r| == |lines|
  {
    seq(|lines|, k requires 0 <= k < |lines| => CleanStopWordLine(lines[k]))
  }

  predicate IsNonEmpty(w: string) { w != "" }

  /** The stop-word list the file gives: every cleaned line that is not empty, in order.
      A word is a stop word exactly when some line cleans to it and it is not empty. */
  function StopWordsOf(lines: seq<string>): (r: seq<string>)
    ensures forall w :: w in r <==> w != "" && w in CleanedLines(lines)
  {
    Filter(CleanedLines(lines), IsNonEmpty)
  }

  /** Reading one more line appends its cleaned form unless that is empty. */
  lemma StopWordsStep(lines: seq<string>, i: nat)
    requires i < |lines|
    ensures var w := CleanStopWordLine(lines[i]);
      StopWordsOf(lines[..i + 1]) == StopWordsOf(lines[..i]) + (if w == "" then [] else [w])
  {
    assert CleanedLines(lines[..i + 1]) == CleanedLines(lines[..i]) + [CleanStopWordLine(lines[i])];
    FilterAppend(CleanedLines(lines[..i]), CleanStopWordLine(lines[i]), IsNonEmpty);
  }

  /** get_stop_words over the lines of the stop-word file. */
  method GetStopWords(lines: seq<string>) returns (stopWords: seq<string>)
    ensures stopWords == StopWordsOf(lines)
    ensures forall w :: w in stopWords ==> w != "" && IsWordString(w)
  {
    stopWords := [];
    var i := 0;
    while i < |lines|
      invariant 0 <= i <= |lines|
      invariant stopWords == StopWordsOf(lines[..i])
      invariant forall w :: w in stopWords ==> w != "" && IsWordString(w)
    {
      StopWordsStep(lines, i);
      var line := Strip(lines[i]);
      line := Lower(line);
      line := DeleteNonWordChars(line);
      if line == "" {
        i := i + 1;
        continue;
      }
      stopWords := stopWords + [line];
      i := i + 1;
    }
    assert lines[..|lines|] == lines;
  }

  // ---------------------------------------------------------------------------------------
  // Vocabulary (get_all_words)

  function NotStopWord(stopWords: seq<string>): (string -> bool) {
    w => w !in stopWords
  }

  /** The tokens of every sentence, sentence by sentence. */
  function TokenLists(sentences: seq<string>): (r: seq<seq<string>>)
    ensures |r| == |sentences|
  {
    seq(|sentences|, k requires 0 <= k < |sentences| => GetWordList(sentences[k]))
  }

  /** All tokens get_all_words counts, in order: each sentence's tokens minus stop words. */
  function CountedTokens(stopWords: seq<string>, lists: seq<seq<string>>): seq<string> {
    if lists == [] then []
    else CountedTokens(stopWords, lists[..|lists| - 1]) + Filter(lists[|lists| - 1], NotStopWord(stopWords))
  }

  lemma CountedTokensStep(stopWords: seq<string>, lists: seq<seq<string>>, i: nat)
    requires i < |lists|
    ensures CountedTokens(stopWords, lists[..i + 1]) == CountedTokens(stopWords, lists[..i]) + Filter(lists[i], NotStopWord(stopWords))
  {
    assert lists[..i + 1][..i] == lists[..i];
  }

  /** A Counter updated with a token stream: each token's count goes up by one, and a token
      seen for the first time is appended. */
  function Tally<T(==)>(tokens: seq<T>): Dict<T, nat> {
    if tokens == [] then []
    else
      var counter := Tally(tokens[..|tokens| - 1]);
      var w := tokens[|tokens| - 1];
      Set(counter, w, Get(counter, w).GetOr(0) + 1)
  }

  /** The counter's keys are the tokens, each once, in first-seen order. */
  lemma {:induction false} TallyKeys<T>(tokens: seq<T>)
    ensures IsDict(Tally(tokens))
    ensures Keys(Tally(tokens)) == Dedup(tokens)
  {
    if tokens != [] {
      var init := tokens[..|tokens| - 1];
      var w := tokens[|tokens| - 1];
      TallyKeys(init);
      DedupFacts(init);
      var counter := Tally(init);
      SetKeys(counter, w, Get(counter, w).GetOr(0) + 1);
      if w !in Keys(counter) {
        DistinctSnoc(Keys(counter), w);
      }
    }
  }

  /** The counter holds each token's number of occurrences. */
  lemma {:induction false} TallyGet<T>(tokens: seq<T>, x: T)
    ensures Get(Tally(tokens), x) == if x in tokens then Some(Count(tokens, x)) else None
  {
    if tokens != [] {
      var init := tokens[..|tokens| - 1];
      var w := tokens[|tokens| - 1];
      TallyGet(init, x);
      TallyGet(init, w);
      assert tokens == init + [w];
      TallyGetStep(Tally(init), init, w, x);
    }
  }

  /** Counting one more token w keeps a counter that is right for x right. */
  lemma TallyGetStep<T>(c: Dict<T, nat>, init: seq<T>, w: T, x: T)
    requires Get(c, x) == if x in init then Some(Count(init, x)) else None
    requires Get(c, w) == if w in init then Some(Count(init, w)) else None
    ensures Get(Set(c, w, Get(c, w).GetOr(0) + 1), x)
      == if x in init + [w] then Some(Count(init + [w], x)) else None
  {
    var tokens := init + [w];
    assert tokens[..|tokens| - 1] == init && tokens[|tokens| - 1] == w;
    CountPositive(init, x);
    SetGet(c, w, Get(c, w).GetOr(0) + 1, x);
  }

  /** The counter holds each token once, in first-seen order, with its number of occurrences. */
  lemma TallyFacts<T>(tokens: seq<T>)
    ensures IsDict(Tally(tokens))
    ensures Keys(Tally(tokens)) == Dedup(tokens)
    ensures forall w :: Get(Tally(tokens), w) == if w in tokens then Some(Count(tokens, w)) else None
  {
    TallyKeys(tokens);
    forall w ensures Get(Tally(tokens), w) == if w in tokens then Some(Count(tokens, w)) else None {
      TallyGet(tokens, w);
    }
  }

  lemma TallyStep<T>(tokens: seq<T>, w: T)
    ensures Tally(tokens + [w]) == Set(Tally(tokens), w, Get(Tally(tokens), w).GetOr(0) + 1)
  {
    assert (tokens + [w])[..|tokens|] == tokens;
  }

  /** The count of a word in a counter (0 when absent). */
  function CountOf(counter: Dict<string, nat>, w: string): nat {
    Get(counter, w).GetOr(0)
  }

  /** The order Counter.most_common sorts by: descending count. */
  function ByCountDescending(counter: Dict<string, nat>): (string, string) -> bool {
    (a: string, b: string) => CountOf(counter, a) >= CountOf(counter, b)
  }

  lemma ByCountIsTotalPreorder(counter: Dict<string, nat>)
    ensures TotalPreorder(ByCountDescending(counter))
  {
  }

  /** [word for word, _ in counter.most_common(n)]: the words stably sorted by descending
      count (so equal counts stay in insertion order), then the first n. */
  function MostCommon(counter: Dict<string, nat>, n: nat): seq<string> {
    Take(Sort(Keys(counter), ByCountDescending(counter)), n)
  }

  lemma MostCommonFacts(counter: Dict<string, nat>, n: nat)
    requires IsDict(counter)
    ensures var r := MostCommon(counter, n);
      && |r| <= n && Distinct(r)
      && (forall w :: w in r ==> w in Keys(counter))
      && (forall i, j :: 0 <= i < j < |r| ==> CountOf(counter, r[i]) >= CountOf(counter, r[j]))
      && (forall w :: w in Keys(counter) && w !in r ==>
            |r| == n && forall v :: v in r ==> CountOf(counter, v) >= CountOf(counter, w))
  {
    var le := ByCountDescending(counter);
    ByCountIsTotalPreorder(counter);
    var sorted := Sort(Keys(counter), le);
    SortFacts(Keys(counter), le);
    SortMembers(Keys(counter), le);
    SortDistinct(Keys(counter), le);
    TakeSorted(sorted, n, le);
  }

  /** Ties are broken by insertion order: the chosen words of any one count are the first
      words of that count in the counter, in the counter's order. */
  lemma MostCommonTies(counter: Dict<string, nat>, n: nat, y: string)
    ensures var le := ByCountDescending(counter);
      ClassOf(MostCommon(counter, n), y, le) <= ClassOf(Keys(counter), y, le)
  {
    var le := ByCountDescending(counter);
    ByCountIsTotalPreorder(counter);
    var sorted := Sort(Keys(counter), le);
    SortStable(Keys(counter), y, le);
    if n <= |sorted| {
      ClassOfPrefix(sorted, n, y, le);
    }
  }

  /** The vocabulary get_all_words selects from the sentences of the three corpora. */
  function Vocabulary(stopWords: seq<string>, lists: seq<seq<string>>): seq<string> {
    MostCommon(Tally(CountedTokens(stopWords, lists)), WORD_SAMPLE_SIZE)
  }

  /** Counter.update(words): one more occurrence for each word, in order. */
  method CounterUpdate<T(==)>(counter: Dict<T, nat>, words: seq<T>, ghost tokens: seq<T>)
    returns (updated: Dict<T, nat>)
    requires counter == Tally(tokens)
    ensures updated == Tally(tokens + words)
  {
    updated := counter;
    ghost var seen := tokens;
    var j := 0;
    while j < |words|
      invariant 0 <= j <= |words| && seen == tokens + words[..j]
      invariant updated == Tally(seen)
    {
      var w := words[j];
      TallyStep(seen, w);
      TakeSnoc(words, j);
      ConcatAssoc(tokens, words[..j], [w]);
      updated := Set(updated, w, Get(updated, w).GetOr(0) + 1);
      seen := seen + [w];
      j := j + 1;
    }
    assert words[..|words|] == words;
  }

  /** The counting loop of get_all_words: each sentence's tokens, stop words dropped, added
      to the counter. */
  method CountWords(stopWords: seq<string>, sentences: seq<string>) returns (allWords: Dict<string, nat>)
    ensures allWords == Tally(CountedTokens(stopWords, TokenLists(sentences)))
  {
    allWords := [];
    ghost var lists := TokenLists(sentences);
    var i := 0;
    while i < |sentences|
      invariant 0 <= i <= |sentences|
      invariant allWords == Tally(CountedTokens(stopWords, lists[..i]))
    {
      var words := GetWordList(sentences[i]);
      assert words == lists[i];
      words := Filter(words, NotStopWord(stopWords));
      allWords := CounterUpdate(allWords, words, CountedTokens(stopWords, lists[..i]));
      CountedTokensStep(stopWords, lists, i);
      i := i + 1;
    }
    assert lists[..|sentences|] == lists;
  }

  /** get_all_words: counts the tokens of the positive, then negative, then neutral sentences,
      stop words dropped, and keeps the WORD_SAMPLE_SIZE most common. */
  method GetAllWords(stopWords: seq<string>, positive: seq<string>, negative: seq<string>, neutral: seq<string>)
    returns (allWords: seq<string>)
    ensures allWords == Vocabulary(stopWords, TokenLists(positive + negative + neutral))
  {
    var sentences := positive + negative + neutral;
    var counts := CountWords(stopWords, sentences);
    allWords := MostCommon(counts, WORD_SAMPLE_SIZE);
  }

  lemma {:induction false} CountedTokensMembers(stopWords: seq<string>, lists: seq<seq<string>>, w: string)
    ensures w in CountedTokens(stopWords, lists) <==>
      w !in stopWords && exists k :: 0 <= k < |lists| && w in lists[k]
  {
    if lists != [] {
      var init := lists[..|lists| - 1];
      CountedTokensMembers(stopWords, init, w);
      if exists k :: 0 <= k < |lists| && w in lists[k] {
        var k :| 0 <= k < |lists| && w in lists[k];
        if k < |lists| - 1 {
          assert init[k] == lists[k];
        }
      }
      if exists k :: 0 <= k < |init| && w in init[k] {
        var k :| 0 <= k < |init| && w in init[k];
        assert lists[k] == init[k];
      }
    }
  }

  /** The vocabulary holds at most WORD_SAMPLE_SIZE distinct tokens of the sentences, none of
      them a stop word, by non-increasing number of occurrences; a token left out occurs no
      more often than any token kept, and is left out only when the vocabulary is full. */
  lemma VocabularyFacts(stopWords: seq<string>, lists: seq<seq<string>>)
    ensures var tokens := CountedTokens(stopWords, lists);
      var r := Vocabulary(stopWords, lists);
      && |r| <= WORD_SAMPLE_SIZE && Distinct(r)
      && (forall w :: w in r ==> w !in stopWords && exists k :: 0 <= k < |lists| && w in lists[k])
      && (forall i, j :: 0 <= i < j < |r| ==> Count(tokens, r[i]) >= Count(tokens, r[j]))
      && (forall w :: w in tokens && w !in r ==>
            |r| == WORD_SAMPLE_SIZE && forall v :: v in r ==> Count(tokens, v) >= Count(tokens, w))
  {
    var tokens := CountedTokens(stopWords, lists);
    var counter := Tally(tokens);
    TallyFacts(tokens);
    DedupFacts(tokens);
    MostCommonFacts(counter, WORD_SAMPLE_SIZE);
    var r := Vocabulary(stopWords, lists);
    forall w | w in r ensures w !in stopWords && exists k :: 0 <= k < |lists| && w in lists[k] {
      CountedTokensMembers(stopWords, lists, w);
    }
    forall i, j | 0 <= i < j < |r| ensures Count(tokens, r[i]) >= Count(tokens, r[j]) {
      assert CountOf(counter, r[i]) >= CountOf(counter, r[j]);
    }
  }

  /** Ties in the vocabulary go to the words seen first, in the order positive, negative,
      neutral corpus: among tokens of any one count, the vocabulary holds a prefix of them,
      ordered by first occurrence. */
  lemma VocabularyTies(stopWords: seq<string>, lists: seq<seq<string>>, y: string)
    ensures var tokens := CountedTokens(stopWords, lists);
      var le := ByCountDescending(Tally(tokens));
      ClassOf(Vocabulary(stopWords, lists), y, le) <= ClassOf(Dedup(tokens), y, le)
  {
    var tokens := CountedTokens(stopWords, lists);
    TallyFacts(tokens);
    MostCommonTies(Tally(tokens), WORD_SAMPLE_SIZE, y);
  }

  /** A blank line tokenizes to [""], and since stop words are never empty the empty token
      is counted and can enter the vocabulary. */
  lemma EmptyTokenCounted(stopWords: seq<string>, sentences: seq<string>, k: nat)
    requires k < |sentences| && CleanSentence(sentences[k]) == ""
    requires "" !in stopWords
    ensures GetWordList(sentences[k]) == [""]
    ensures "" in CountedTokens(stopWords, TokenLists(sentences))
  {
    var lists := TokenLists(sentences);
    assert lists[k] == [""];
    CountedTokensMembers(stopWords, lists, "");
  }

  // ---------------------------------------------------------------------------------------
  // Feature maps (get_word_map, get_word_maps)

  /** The map get_word_map fills: for each vocabulary word in order, True when it is a token. */
  function FeatureMap<T(==)>(allWords: seq<T>, words: seq<T>): Dict<T, bool> {
    if allWords == [] then []
    else
      var m := FeatureMap(allWords[..|allWords| - 1], words);
      var w := allWords[|allWords| - 1];
      if w in words then Set(m, w, true) else m
  }

  /** get_word_map(all_words, sentence): the sentence's tokens, then the marking loop. */
  method GetWordMap(allWords: seq<string>, sentence: string) returns (wordMap: Dict<string, bool>)
    ensures wordMap == FeatureMap(allWords, GetWordList(sentence))
  {
    var words := GetWordList(sentence);
    wordMap := MarkPresent(allWords, words);
  }

  /** The loop of get_word_map: each vocabulary word among the tokens is set to True. */
  method MarkPresent<T(==)>(allWords: seq<T>, words: seq<T>) returns (wordMap: Dict<T, bool>)
    ensures wordMap == FeatureMap(allWords, words)
  {
    wordMap := [];
    var i := 0;
    while i < |allWords|
      invariant 0 <= i <= |allWords|
      invariant wordMap == FeatureMap(allWords[..i], words)
    {
      FeatureMapSnoc(allWords, i, words);
      var word := allWords[i];
      if word in words {
        wordMap := Set(wordMap, word, true);
      }
      i := i + 1;
    }
    assert allWords[..|allWords|] == allWords;
  }

  /** One more vocabulary word adds at most its own entry. */
  lemma FeatureMapSnoc<T>(allWords: seq<T>, i: nat, words: seq<T>)
    requires i < |allWords|
    ensures FeatureMap(allWords[..i + 1], words)
      == if allWords[i] in words then Set(FeatureMap(allWords[..i], words), allWords[i], true)
         else FeatureMap(allWords[..i], words)
  {
    assert allWords[..i + 1][..i] == allWords[..i];
  }

  /** The map holds True for exactly the vocabulary words among the tokens, each once, in
      vocabulary order, and never holds False. */
  lemma FeatureMapFacts(allWords: seq<string>, words: seq<string>)
    ensures var m := FeatureMap(allWords, words);
      && IsDict(m)
      && (forall w :: Get(m, w) == if w in allWords && w in words then Some(true) else None)
      && (forall i :: 0 <= i < |m| ==> m[i].1)
      && IsSubsequence(Keys(m), allWords)
  {
    FeatureMapGet(allWords, words);
    FeatureMapValues(allWords, words);
    FeatureMapKeys(allWords, words);
  }

  lemma {:induction false} FeatureMapGet(allWords: seq<string>, words: seq<string>)
    ensures var m := FeatureMap(allWords, words);
      && IsDict(m)
      && (forall w :: Get(m, w) == if w in allWords && w in words then Some(true) else None)
  {
    if allWords != [] {
      var init := allWords[..|allWords| - 1];
      var w := allWords[|allWords| - 1];
      FeatureMapGet(init, words);
      assert allWords == init + [w];
      forall x ensures x in allWords <==> x in init || x == w {
      }
      if w in words {
        SetFacts(FeatureMap(init, words), w, true);
      }
    }
  }

  lemma {:induction false} FeatureMapValues(allWords: seq<string>, words: seq<string>)
    ensures forall i :: 0 <= i < |FeatureMap(allWords, words)| ==> FeatureMap(allWords, words)[i].1
  {
    if allWords != [] {
      var init := allWords[..|allWords| - 1];
      var w := allWords[|allWords| - 1];
      FeatureMapValues(init, words);
      if w in words {
        var m := FeatureMap(init, words);
        SetValues(m, w, true);
        forall i | 0 <= i < |Set(m, w, true)| ensures Set(m, w, true)[i].1 {
          if Set(m, w, true)[i] != (w, true) {
            var j :| 0 <= j < |m| && m[j] == Set(m, w, true)[i];
          }
        }
      }
    }
  }

  lemma {:induction false} FeatureMapKeys(allWords: seq<string>, words: seq<string>)
    ensures IsSubsequence(Keys(FeatureMap(allWords, words)), allWords)
  {
    if allWords != [] {
      var init := allWords[..|allWords| - 1];
      var w := allWords[|allWords| - 1];
      FeatureMapKeys(init, words);
      var m := FeatureMap(init, words);
      assert allWords == init + [w];
      if w in words {
        SetFacts(m, w, true);
        if w in Keys(m) {
          SubsequenceConcat(Keys(m), init, [], [w]);
          assert Keys(m) + [] == Keys(m);
        } else {
          SubsequenceRefl([w]);
          SubsequenceConcat(Keys(m), init, [w], [w]);
        }
      } else {
        SubsequenceConcat(Keys(m), init, [], [w]);
        assert Keys(m) + [] == Keys(m);
      }
    }
  }

  /** Assigning v keeps every value of the dictionary either an old value or v. */
  lemma {:induction false} SetValues<K, V>(d: Dict<K, V>, k: K, v: V)
    ensures forall i :: 0 <= i < |Set(d, k, v)| ==> Set(d, k, v)[i] == (k, v) || Set(d, k, v)[i] in d
  {
    if d != [] && d[0].0 != k {
      SetValues(d[1..], k, v);
      forall i | 0 <= i < |Set(d, k, v)| ensures Set(d, k, v)[i] == (k, v) || Set(d, k, v)[i] in d {
        if i > 0 {
          assert Set(d, k, v)[i] == Set(d[1..], k, v)[i - 1];
        }
      }
    } else if d != [] {
      forall i | 0 <= i < |Set(d, k, v)| ensures Set(d, k, v)[i] == (k, v) || Set(d, k, v)[i] in d {
        if i > 0 {
          assert Set(d, k, v)[i] == d[i];
        }
      }
    }
  }

  /** `True in word_map.values()`. */
  predicate HasTrueValue(m: Dict<string, bool>) {
    exists i :: 0 <= i < |m| && m[i].1 == true
  }

  /** A feature map has a True value exactly when some vocabulary word is a token. */
  lemma FeatureMapHasTrue(allWords: seq<string>, words: seq<string>)
    ensures HasTrueValue(FeatureMap(allWords, words)) <==> exists w :: w in allWords && w in words
  {
    var m := FeatureMap(allWords, words);
    FeatureMapFacts(allWords, words);
    if exists w :: w in allWords && w in words {
      var w :| w in allWords && w in words;
      assert Get(m, w).Some?;
      var i :| 0 <= i < |Keys(m)| && Keys(m)[i] == w;
      assert m[i].1;
    }
    if HasTrueValue(m) {
      var i :| 0 <= i < |m| && m[i].1 == true;
      assert Keys(m)[i] == m[i].0;
      assert Get(m, m[i].0).Some?;
    }
  }

  // ---------------------------------------------------------------------------------------
  // Training set (get_labeled_training_set)

  datatype Example = Example(features: Dict<string, bool>, sentiment: string)

  /** The examples one corpus contributes: its sentences' feature maps, in order, with the
      corpus label, leaving out maps without a True value. */
  function LabeledExamples(allWords: seq<string>, lists: seq<seq<string>>, sentiment: string): seq<Example> {
    if lists == [] then []
    else
      var m := FeatureMap(allWords, lists[|lists| - 1]);
      LabeledExamples(allWords, lists[..|lists| - 1], sentiment)
        + (if HasTrueValue(m) then [Example(m, sentiment)] else [])
  }

  lemma LabeledExamplesStep(allWords: seq<string>, lists: seq<seq<string>>, i: nat, sentiment: string)
    requires i < |lists|
    ensures var m := FeatureMap(allWords, lists[i]);
      LabeledExamples(allWords, lists[..i + 1], sentiment)
        == LabeledExamples(allWords, lists[..i], sentiment) + (if HasTrueValue(m) then [Example(m, sentiment)] else [])
  {
    assert lists[..i + 1][..i] == lists[..i];
  }

  /** The examples of several labelled corpora, corpus after corpus. */
  function ExamplesOf(allWords: seq<string>, sources: seq<(string, seq<seq<string>>)>): seq<Example> {
    if sources == [] then []
    else
      var src := sources[|sources| - 1];
      ExamplesOf(allWords, sources[..|sources| - 1]) + LabeledExamples(allWords, src.1, src.0)
  }

  /** One more sentence of a corpus adds its example, if any. */
  lemma SentenceExampleStep(allWords: seq<string>, sentences: seq<string>, i: nat, sentiment: string)
    requires i < |sentences|
    ensures var m := FeatureMap(allWords, GetWordList(sentences[i]));
      LabeledExamples(allWords, TokenLists(sentences)[..i + 1], sentiment)
        == LabeledExamples(allWords, TokenLists(sentences)[..i], sentiment) + (if HasTrueValue(m) then [Example(m, sentiment)] else [])
  {
    var lists := TokenLists(sentences);
    assert lists[i] == GetWordList(sentences[i]);
    LabeledExamplesStep(allWords, lists, i, sentiment);
  }

  /** The examples get_labeled_training_set yields for one corpus and its label. */
  method CorpusExamples(allWords: seq<string>, sentiment: string, sentences: seq<string>)
    returns (examples: seq<Example>)
    ensures examples == LabeledExamples(allWords, TokenLists(sentences), sentiment)
  {
    examples := [];
    var i := 0;
    while i < |sentences|
      invariant 0 <= i <= |sentences|
      invariant examples == LabeledExamples(allWords, TokenLists(sentences)[..i], sentiment)
    {
      var wordMap := GetWordMap(allWords, sentences[i]);
      SentenceExampleStep(allWords, sentences, i, sentiment);
      if !HasTrueValue(wordMap) {
        i := i + 1;
        continue;
      }
      examples := examples + [Example(wordMap, sentiment)];
      i := i + 1;
    }
    assert TokenLists(sentences)[..|sentences|] == TokenLists(sentences);
  }

  lemma ExamplesOfThree(allWords: seq<string>, a: (string, seq<seq<string>>), b: (string, seq<seq<string>>), c: (string, seq<seq<string>>))
    ensures ExamplesOf(allWords, [a, b, c])
      == LabeledExamples(allWords, a.1, a.0) + LabeledExamples(allWords, b.1, b.0) + LabeledExamples(allWords, c.1, c.0)
  {
    assert [a, b, c][..2] == [a, b];
    assert [a, b][..1] == [a];
    assert [a][..0] == [];
    assert ExamplesOf(allWords, [a]) == LabeledExamples(allWords, a.1, a.0);
    assert ExamplesOf(allWords, [a, b]) == ExamplesOf(allWords, [a]) + LabeledExamples(allWords, b.1, b.0);
    assert ExamplesOf(allWords, [a, b, c]) == ExamplesOf(allWords, [a, b]) + LabeledExamples(allWords, c.1, c.0);
  }

  /** get_labeled_training_set(all_words) over the positive, negative and neutral corpora. */
  method GetLabeledTrainingSet(allWords: seq<string>, positive: seq<string>, negative: seq<string>, neutral: seq<string>)
    returns (examples: seq<Example>)
    ensures examples == LabeledExamples(allWords, TokenLists(positive), "pos")
      + LabeledExamples(allWords, TokenLists(negative), "neg") + LabeledExamples(allWords, TokenLists(neutral), "neutral")
  {
    var trainingSets := [("pos", positive), ("neg", negative), ("neutral", neutral)];
    ghost var sources := Map(trainingSets, Tokenized);
    examples := [];
    var k := 0;
    while k < |trainingSets|
      invariant 0 <= k <= |trainingSets|
      invariant examples == ExamplesOf(allWords, sources[..k])
    {
      var (sentiment, sentences) := trainingSets[k];
      var more := CorpusExamples(allWords, sentiment, sentences);
      ExamplesOfStep(allWords, sources, k);
      examples := examples + more;
      k := k + 1;
    }
    assert sources[..3] == sources;
    TrainingSetsExamples(allWords, positive, negative, neutral);
  }

  /** The three labelled corpora contribute their examples in the order positive, negative,
      neutral. */
  lemma TrainingSetsExamples(allWords: seq<string>, positive: seq<string>, negative: seq<string>, neutral: seq<string>)
    ensures ExamplesOf(allWords, Map([("pos", positive), ("neg", negative), ("neutral", neutral)], Tokenized))
      == LabeledExamples(allWords, TokenLists(positive), "pos")
        + LabeledExamples(allWords, TokenLists(negative), "neg") + LabeledExamples(allWords, TokenLists(neutral), "neutral")
  {
    MapThree(("pos", positive), ("neg", negative), ("neutral", neutral), Tokenized);
    ExamplesOfThree(allWords, Tokenized(("pos", positive)), Tokenized(("neg", negative)), Tokenized(("neutral", neutral)));
  }

  /** A labelled corpus with its sentences tokenized. */
  function Tokenized(source: (string, seq<string>)): (string, seq<seq<string>>) {
    (source.0, TokenLists(source.1))
  }

  lemma ExamplesOfStep(allWords: seq<string>, sources: seq<(string, seq<seq<string>>)>, k: nat)
    requires k < |sources|
    ensures ExamplesOf(allWords, sources[..k + 1])
      == ExamplesOf(allWords, sources[..k]) + LabeledExamples(allWords, sources[k].1, sources[k].0)
  {
    assert sources[..k + 1][..k] == sources[..k];
  }

  /** Every example of a corpus carries the corpus label and a map with a True value, and a
      sentence's map is an example exactly when some vocabulary word is among its tokens. */
  lemma {:induction false} LabeledExamplesFacts(allWords: seq<string>, lists: seq<seq<string>>, sentiment: string)
    ensures forall e :: e in LabeledExamples(allWords, lists, sentiment) ==> e.sentiment == sentiment && HasTrueValue(e.features)
    ensures forall k :: 0 <= k < |lists| && (exists w :: w in allWords && w in lists[k]) ==>
      Example(FeatureMap(allWords, lists[k]), sentiment) in LabeledExamples(allWords, lists, sentiment)
  {
    if lists != [] {
      var init := lists[..|lists| - 1];
      LabeledExamplesFacts(allWords, init, sentiment);
      forall k | 0 <= k < |lists| && (exists w :: w in allWords && w in lists[k])
        ensures Example(FeatureMap(allWords, lists[k]), sentiment) in LabeledExamples(allWords, lists, sentiment)
      {
        FeatureMapHasTrue(allWords, lists[k]);
        if k < |lists| - 1 {
          assert init[k] == lists[k];
        }
      }
    }
  }

  // ---------------------------------------------------------------------------------------
  // Polarity (map_number_range and the sign rule of classify)

  /** map_number_range: the linear map of [inputStart, inputEnd] onto [outputStart, outputEnd];
      an empty input range divides by zero. */
  function MapNumberRange(number: real, inputStart: real, inputEnd: real, outputStart: real, outputEnd: real): (r: Result<real>)
    ensures r.Failure? <==> inputStart == inputEnd
    ensures r.Failure? ==> r.error == ZeroDivision
  {
    var inputRange := inputEnd - inputStart;
    var outputRange := outputEnd - outputStart;
    if inputRange == 0.0 then Failure(ZeroDivision)
    else Success((number - inputStart) * outputRange / inputRange + outputStart)
  }

  lemma DivideProduct(x: real, a: real)
    requires a != 0.0
    ensures x * a / a == x
  {
    assert (x * a) / a * a == x * a;
  }

  lemma CancelLeft(a: real, x: real)
    requires a != 0.0
    ensures a * x / a == x
  {
    assert a * x == x * a;
    DivideProduct(x, a);
  }

  /** The start maps to the start and the end to the end. */
  lemma MapNumberRangeEndpoints(inputStart: real, inputEnd: real, outputStart: real, outputEnd: real)
    requires inputStart != inputEnd
    ensures MapNumberRange(inputStart, inputStart, inputEnd, outputStart, outputEnd) == Success(outputStart)
    ensures MapNumberRange(inputEnd, inputStart, inputEnd, outputStart, outputEnd) == Success(outputEnd)
  {
    MapNumberRangeValue(inputStart, inputStart, inputEnd, outputStart, outputEnd);
    MapNumberRangeValue(inputEnd, inputStart, inputEnd, outputStart, outputEnd);
    CancelLeft(inputEnd - inputStart, outputEnd - outputStart);
    var t := (inputEnd - inputStart) * (outputEnd - outputStart) / (inputEnd - inputStart);
    assert t == outputEnd - outputStart;
    assert MapNumberRange(inputEnd, inputStart, inputEnd, outputStart, outputEnd) == Success(t + outputStart);
    assert (inputStart - inputStart) * (outputEnd - outputStart) == 0.0;
    assert 0.0 / (inputEnd - inputStart) == 0.0;
  }

  lemma MapNumberRangeValue(number: real, inputStart: real, inputEnd: real, outputStart: real, outputEnd: real)
    requires inputStart != inputEnd
    ensures MapNumberRange(number, inputStart, inputEnd, outputStart, outputEnd)
      == Success((number - inputStart) * (outputEnd - outputStart) / (inputEnd - inputStart) + outputStart)
  {
  }

  /** Mapping back with the ranges swapped gives the number again. */
  lemma MapNumberRangeInverse(number: real, inputStart: real, inputEnd: real, outputStart: real, outputEnd: real)
    requires inputStart != inputEnd && outputStart != outputEnd
    ensures var y := MapNumberRange(number, inputStart, inputEnd, outputStart, outputEnd).value;
      MapNumberRange(y, outputStart, outputEnd, inputStart, inputEnd) == Success(number)
  {
    var a := inputEnd - inputStart;
    var b := outputEnd - outputStart;
    var d := number - inputStart;
    var q := d * b / a;
    var y := q + outputStart;
    assert MapNumberRange(number, inputStart, inputEnd, outputStart, outputEnd) == Success(y);
    assert y - outputStart == q;
    assert q * a == d * b by {
      MultiplyQuotient(d * b, a);
    }
    assert (q * a) / b == d by {
      DivideProduct(d, b);
    }
    assert MapNumberRange(y, outputStart, outputEnd, inputStart, inputEnd) == Success(q * a / b + inputStart);
  }

  lemma MultiplyQuotient(x: real, a: real)
    requires a != 0.0
    ensures x / a * a == x
  {
  }

  /** The result classify returns. */
  datatype Classification = Classification(polarity: real, probability: real, subjectivity: Option<real>)

  /** The polarity of the winning label: the probability mapped from [0.5, 1] to [0, 1],
      negated for "neg". */
  function Polarity(sample: string, probability: real): real {
    var polarity := MapNumberRange(probability, 0.5, 1.0, 0.0, 1.0).value;
    if sample == "neg" then polarity * -1.0 else polarity
  }

  /** The result classify builds from the winning label and its probability. */
  function ClassificationOf(sample: string, probability: real): (r: Classification)
    ensures r.probability == probability && r.subjectivity == None
  {
    Classification(Polarity(sample, probability), probability, None)
  }

  /** For a winning probability p in [0.5, 1] the polarity has magnitude 2p - 1 in [0, 1],
      and is negative only for "neg". */
  lemma PolarityRange(sample: string, p: real)
    requires 0.5 <= p <= 1.0
    ensures 0.0 <= 2.0 * p - 1.0 <= 1.0
    ensures Polarity(sample, p) == if sample == "neg" then 1.0 - 2.0 * p else 2.0 * p - 1.0
  {
  }

  /** The map classify builds: every token of the text set to True, vocabulary or not. */
  function TokenMap(words: seq<string>): Dict<string, bool> {
    if words == [] then []
    else Set(TokenMap(words[..|words| - 1]), words[|words| - 1], true)
  }

  method BuildTokenMap(words: seq<string>) returns (wordMap: Dict<string, bool>)
    ensures wordMap == TokenMap(words)
  {
    wordMap := [];
    var i := 0;
    while i < |words|
      invariant 0 <= i <= |words|
      invariant wordMap == TokenMap(words[..i])
    {
      assert words[..i + 1][..i] == words[..i];
      wordMap := Set(wordMap, words[i], true);
      i := i + 1;
    }
    assert words[..|words|] == words;
  }

  /** The token map holds each token once, in first-seen order, and only True. */
  lemma {:induction false} TokenMapFacts(words: seq<string>)
    ensures IsDict(TokenMap(words)) && Keys(TokenMap(words)) == Dedup(words)
    ensures forall w :: Get(TokenMap(words), w) == if w in words then Some(true) else None
  {
    if words != [] {
      var init := words[..|words| - 1];
      var w := words[|words| - 1];
      TokenMapFacts(init);
      DedupFacts(init);
      SetFacts(TokenMap(init), w, true);
      assert words == init + [w];
      forall x ensures x in words <==> x in init || x == w {
      }
    }
  }

  // ---------------------------------------------------------------------------------------
  // The classifier cache (get_classifier) and classify

  /** The module-level cached_classifier slot together with the saved classifier file. */
  class ClassifierStore<C> {
    /** cached_classifier. */
    var cached: Option<C>
    /** The pickled classifier file, when it exists. */
    var saved: Option<C>

    constructor (saved: Option<C>)
      ensures this.cached == None && this.saved == saved
    {
      this.cached := None;
      this.saved := saved;
    }

    /** get_classifier, given the classifier that training on the corpus yields: the cached
        one when set; otherwise the saved one, which is then cached; otherwise a newly
        trained one, which is saved but not cached. */
    method GetClassifier(trained: C) returns (classifier: C)
      modifies this
      ensures old(cached).Some? ==> classifier == old(cached).value && cached == old(cached) && saved == old(saved)
      ensures old(cached).None? && old(saved).Some? ==>
        classifier == old(saved).value && cached == old(saved) && saved == old(saved)
      ensures old(cached).None? && old(saved).None? ==>
        classifier == trained && cached == None && saved == Some(trained)
    {
      if cached.Some? {
        return cached.value;
      }
      if saved.Some? {
        cached := saved;
        return cached.value;
      }
      classifier := trained;
      saved := Some(classifier);
    }

    /** classify(text), where probClassify gives the winning label and its probability for a
        classifier and a feature map. */
    method Classify(text: string, trained: C, probClassify: (C, Dict<string, bool>) -> (string, real))
      returns (result: Classification)
      modifies this
      ensures var used := if old(cached).Some? then old(cached).value
                          else if old(saved).Some? then old(saved).value else trained;
        var dist := probClassify(used, TokenMap(GetWordList(text)));
        result == ClassificationOf(dist.0, dist.1)
      ensures cached == (if old(cached).Some? then old(cached) else old(saved))
      ensures saved == (if old(cached).Some? || old(saved).Some? then old(saved) else Some(trained))
    {
      var words := GetWordList(text);
      var wordMap := BuildTokenMap(words);
      var classifier := GetClassifier(trained);
      var (sample, probability) := probClassify(classifier, wordMap);
      result := ClassificationOf(sample, probability);
    }
  }

  /** Two calls to get_classifier with neither a cached nor a saved classifier: the first
      trains and saves without caching, so the second loads the saved one and caches it. */
  method TwoColdCalls<C>(trained: C) returns (first: C, second: C, store: ClassifierStore<C>)
    ensures first == trained && second == trained
    ensures store.cached == Some(trained) && store.saved == Some(trained)
  {
    store := new ClassifierStore(None);
    first := store.GetClassifier(trained);
    assert store.cached == None;
    second := store.GetClassifier(trained);
  }
}

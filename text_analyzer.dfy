/**
 * The analyser: paragraphs from blank lines, sentences from the boundary
 * iterator, tokens from the contraction expander and the splitter, and the
 * running word-frequency statistics. Its counters live in the object and are
 * never reset, so a second analysis adds to the first.
 */
module Analyzer {
  import opened Wrappers
  import opened JavaText
  import opened Structures
  import C = Contractions
  import T = Tokenizer
  import S = Segmenter

  // ---------------------------------------------------------------- what an analysis computes

  /** `readLine()` on a reader positioned before line `i`: the line, or None at the end of input. */
  function ReadLine(lines: seq<string>, i: nat): (r: Option<string>)
    ensures r.None? <==> i >= |lines|
    ensures r.Some? ==> r.value == lines[i]
  {
    if i < |lines| then Some(lines[i]) else None
  }

  /**
   * The tokens of the sentences, each expanded by the rules in `order` and then
   * split, in order. (A list of several sentences is split into its front and
   * its last sentence, taken as a list of one.)
   */
  function SentencesTokens(order: seq<C.Rule>, ss: seq<string>): seq<string>
    decreases |ss|, if |ss| == 1 then 0 else 1
  {
    if ss == [] then []
    else if |ss| == 1 then T.Tokens(C.Expand(order, ss[0]))
    else SentencesTokens(order, ss[..|ss| - 1]) + SentencesTokens(order, [ss[|ss| - 1]])
  }

  /** Taking one more sentence adds its tokens at the end. */
  lemma SentencesTokensStep(order: seq<C.Rule>, ss: seq<string>, i: nat)
    requires i < |ss|
    ensures SentencesTokens(order, ss[..i + 1]) == SentencesTokens(order, ss[..i]) + SentencesTokens(order, [ss[i]])
  {
    if i == 0 {
      assert ss[..1] == [ss[0]];
    } else {
      assert ss[..i + 1][..i] == ss[..i];
    }
  }

  /** The body of `tokenizeSentence`'s loop for one piece: expanded rule by rule, then split. */
  method ExpandAndSplit(order: seq<C.Rule>, sentence: string) returns (tokens: seq<string>)
    ensures tokens == SentencesTokens(order, [sentence])
  {
    var expanded := C.ExpandSentence(order, sentence);
    tokens := T.Splitter(expanded);
  }

  /** Every non-blank line has a valid boundary list. */
  predicate OracleCovers(lines: seq<string>, oracle: string -> seq<nat>) {
    forall i :: 0 <= i < |lines| && !IsBlank(lines[i]) ==> S.IsBoundaryList(lines[i], oracle(lines[i]))
  }

  /** The lines that are blank after `trim`, counted. */
  function BlankCount(lines: seq<string>): nat {
    if lines == [] then 0
    else BlankCount(lines[..|lines| - 1]) + (if IsBlank(lines[|lines| - 1]) then 1 else 0)
  }

  /** The lines that are not blank, in input order. */
  function NonBlank(lines: seq<string>): seq<string> {
    if lines == [] then []
    else NonBlank(lines[..|lines| - 1]) + (if IsBlank(lines[|lines| - 1]) then [] else [lines[|lines| - 1]])
  }

  /** The sentences of all non-blank lines: `k` for a line with boundaries `b0 < ... < bk`. */
  function SentenceTotal(lines: seq<string>, oracle: string -> seq<nat>): nat
    requires OracleCovers(lines, oracle)
  {
    if lines == [] then 0
    else
      var last := lines[|lines| - 1];
      SentenceTotal(lines[..|lines| - 1], oracle) + (if IsBlank(last) then 0 else |oracle(last)| - 1)
  }

  /** The tokens of one line: those of every piece the segmentation loop collects. */
  function LineTokens(order: seq<C.Rule>, line: string, b: seq<nat>): seq<string>
    requires S.IsBoundaryList(line, b)
  {
    SentencesTokens(order, S.Pieces(line, b))
  }

  /** The tokens of the whole input, line after line. */
  function DocTokens(order: seq<C.Rule>, lines: seq<string>, oracle: string -> seq<nat>): seq<string>
    requires OracleCovers(lines, oracle)
  {
    if lines == [] then []
    else
      var last := lines[|lines| - 1];
      DocTokens(order, lines[..|lines| - 1], oracle)
        + (if IsBlank(last) then [] else LineTokens(order, last, oracle(last)))
  }

  /** Each line is either blank or kept, and the kept lines are exactly the non-blank ones. */
  lemma {:induction false} NonBlankPartition(lines: seq<string>)
    ensures BlankCount(lines) + |NonBlank(lines)| == |lines|
    ensures forall l :: l in NonBlank(lines) <==> l in lines && !IsBlank(l)
  {
    if lines != [] {
      var init := lines[..|lines| - 1];
      NonBlankPartition(init);
      assert lines == init + [lines[|lines| - 1]];
    }
  }

  /** No rule matches the empty piece and it splits into no tokens. */
  lemma EmptyPieceNoTokens(order: seq<C.Rule>)
    ensures SentencesTokens(order, [""]) == []
  {
    C.ExpandNoMatch(order, "");
    T.NoTokensIffBlank("");
  }

  /** A line's tokens are those of its real sentences: the trailing empty piece adds none. */
  lemma LineTokensOfSentences(order: seq<C.Rule>, line: string, b: seq<nat>)
    requires S.IsBoundaryList(line, b)
    ensures LineTokens(order, line, b) == SentencesTokens(order, S.Pieces(line, b)[..|b| - 1])
  {
    S.PiecesShape(line, b);
    var ps := S.Pieces(line, b);
    EmptyPieceNoTokens(order);
    if |b| == 1 {
      assert ps == [""];
    } else {
      assert ps[|ps| - 1] == "";
    }
  }

  /** A type table with the keys of the frequency map and every value 1 sums to the number of distinct tokens. */
  lemma TypeTotal(types: map<string, int>, freq: map<string, int>)
    requires types.Keys == freq.Keys
    requires forall k :: k in types ==> types[k] == 1
    ensures SumValues(types) == |freq|
  {
    SumOfOnes(types);
    assert |types| == |types.Keys| == |freq.Keys| == |freq|;
  }

  lemma OracleCoversPrefix(lines: seq<string>, oracle: string -> seq<nat>, i: nat)
    requires OracleCovers(lines, oracle) && i <= |lines|
    ensures OracleCovers(lines[..i], oracle)
  {
    assert forall j :: 0 <= j < i ==> lines[..i][j] == lines[j];
  }

  /** Reading a blank line adds one paragraph and nothing else. */
  lemma BlankLineStep(order: seq<C.Rule>, lines: seq<string>, oracle: string -> seq<nat>, i: nat)
    requires OracleCovers(lines, oracle) && i < |lines| && IsBlank(lines[i])
    ensures OracleCovers(lines[..i], oracle) && OracleCovers(lines[..i + 1], oracle)
    ensures BlankCount(lines[..i + 1]) == BlankCount(lines[..i]) + 1
    ensures NonBlank(lines[..i + 1]) == NonBlank(lines[..i])
    ensures SentenceTotal(lines[..i + 1], oracle) == SentenceTotal(lines[..i], oracle)
    ensures DocTokens(order, lines[..i + 1], oracle) == DocTokens(order, lines[..i], oracle)
  {
    OracleCoversPrefix(lines, oracle, i);
    OracleCoversPrefix(lines, oracle, i + 1);
    var p := lines[..i + 1];
    assert p[..|p| - 1] == lines[..i] && p[|p| - 1] == lines[i];
  }

  /** Reading a non-blank line adds its sentences and its tokens. */
  lemma TextLineStep(order: seq<C.Rule>, lines: seq<string>, oracle: string -> seq<nat>, i: nat)
    requires OracleCovers(lines, oracle) && i < |lines| && !IsBlank(lines[i])
    ensures OracleCovers(lines[..i], oracle) && OracleCovers(lines[..i + 1], oracle)
    ensures S.IsBoundaryList(lines[i], oracle(lines[i]))
    ensures BlankCount(lines[..i + 1]) == BlankCount(lines[..i])
    ensures NonBlank(lines[..i + 1]) == NonBlank(lines[..i]) + [lines[i]]
    ensures SentenceTotal(lines[..i + 1], oracle) == SentenceTotal(lines[..i], oracle) + |oracle(lines[i])| - 1
    ensures DocTokens(order, lines[..i + 1], oracle)
         == DocTokens(order, lines[..i], oracle) + LineTokens(order, lines[i], oracle(lines[i]))
  {
    OracleCoversPrefix(lines, oracle, i);
    OracleCoversPrefix(lines, oracle, i + 1);
    var p := lines[..i + 1];
    assert p[..|p| - 1] == lines[..i] && p[|p| - 1] == lines[i];
  }

  // ---------------------------------------------------------------- the analyser

  class TextAnalyzer {
    var sentences: seq<string>
    var tempParagraph: string
    var currSentenceIndex: int
    var prevSentenceIndex: int
    /** Never written: `countWords` sums into a local variable of the same name. */
    var tokenCount: int
    var paragraphCount: int
    var sentenceCount: int
    const wordCount: WordMap
    const typeCount: WordMap
    const resultStats: AnalyzedData
    /** The iteration order of the contraction table's `HashMap` (the same on every call). */
    const ruleOrder: seq<C.Rule>
    /** Every line handed to segmentation so far, in order. */
    ghost var dispatched: seq<string>

    /**
     * The type table has the keys of the frequency map with every value 1,
     * and the record reports the running sentence count, the sum of all
     * frequencies, the number of distinct words and the frequencies themselves.
     */
    ghost predicate Valid()
      reads this, wordCount, typeCount, resultStats, resultStats.types
    {
      wordCount != typeCount
      && tokenCount == 0
      && typeCount.contents.Keys == wordCount.contents.Keys
      && (forall k :: k in typeCount.contents ==> typeCount.contents[k] == 1)
      && resultStats.numberOfSentences == sentenceCount
      && resultStats.numberOfTokens == SumValues(wordCount.contents)
      && resultStats.numberOfTypes == |wordCount.contents|
      && resultStats.types.contents == wordCount.contents
    }

    /**
     * The scratch fields after segmenting `line` at `bounds`: the line itself,
     * its pieces, and both indices at its end.
     */
    ghost predicate SegmentedLast(line: string, bounds: seq<nat>)
      reads this
    {
      tempParagraph == line && S.IsBoundaryList(line, bounds) && sentences == S.Pieces(line, bounds)
      && prevSentenceIndex == |line| && currSentenceIndex == |line|
    }

    /** A new analyser: every counter 0, empty maps, a fresh record, and the contraction table's order. */
    constructor (order: seq<C.Rule>)
      requires C.IsTableOrder(order)
      ensures Valid() && ruleOrder == order
      ensures paragraphCount == 0 && sentenceCount == 0 && dispatched == []
      ensures wordCount.contents == map[] && resultStats.numberOfParagraphs == 0
      ensures sentences == [] && tempParagraph == "" && currSentenceIndex == 0 && prevSentenceIndex == 0
      ensures fresh(wordCount) && fresh(typeCount) && fresh(resultStats) && fresh(resultStats.types)
    {
      sentences, tempParagraph := [], "";
      currSentenceIndex, prevSentenceIndex := 0, 0;
      tokenCount, paragraphCount, sentenceCount := 0, 0, 0;
      wordCount := new WordMap();
      typeCount := new WordMap();
      resultStats := new AnalyzedData();
      ruleOrder := order;
      dispatched := [];
      new;
      assert SumValues(map[]) == 0;
    }

    /**
     * `analyzeText`: reads the lines one by one. A blank line, and the end of
     * input, close a paragraph; every other line is segmented and tokenised.
     * The record returned is the analyser's own, with the paragraph count set.
     */
    method AnalyzeText(lines: seq<string>, oracle: string -> seq<nat>) returns (result: AnalyzedData)
      requires Valid() && OracleCovers(lines, oracle)
      modifies this, wordCount, typeCount, resultStats
      ensures Valid() && result == resultStats
      ensures paragraphCount == old(paragraphCount) + BlankCount(lines) + 1
      ensures result.numberOfParagraphs == paragraphCount
      ensures sentenceCount == old(sentenceCount) + SentenceTotal(lines, oracle)
      ensures dispatched == old(dispatched) + NonBlank(lines)
      ensures wordCount.contents == Tally(old(wordCount.contents), DocTokens(ruleOrder, lines, oracle))
      ensures NonBlank(lines) != [] ==> result.GetWords() == wordCount
      ensures NonBlank(lines) == [] ==> result.GetWords() == old(resultStats.types)
    {
      var i := 0;
      var lineOfText := ReadLine(lines, i);
      while true
        invariant i <= |lines| && lineOfText == ReadLine(lines, i)
        invariant Valid()
        invariant paragraphCount == old(paragraphCount) + BlankCount(lines[..i])
        invariant sentenceCount == old(sentenceCount) + SentenceTotal(lines[..i], oracle)
        invariant dispatched == old(dispatched) + NonBlank(lines[..i])
        invariant wordCount.contents == Tally(old(wordCount.contents), DocTokens(ruleOrder, lines[..i], oracle))
        invariant NonBlank(lines[..i]) != [] ==> resultStats.types == wordCount
        invariant NonBlank(lines[..i]) == [] ==> resultStats.types == old(resultStats.types)
        decreases |lines| - i
      {
        if lineOfText.None? || |Trim(lineOfText.value)| == 0 {
          paragraphCount := paragraphCount + 1;
          if lineOfText.None? {
            assert lines[..i] == lines;
            break;
          }
          TrimEmptyIff(lineOfText.value);
          BlankLineStep(ruleOrder, lines, oracle, i);
        } else {
          var line := lineOfText.value;
          TrimEmptyIff(line);
          TextLineStep(ruleOrder, lines, oracle, i);
          AnalyzeLine(line, oracle(line));
          AppendAssoc(old(dispatched), NonBlank(lines[..i]), [line]);
          TallyAppend(old(wordCount.contents), DocTokens(ruleOrder, lines[..i], oracle),
                      LineTokens(ruleOrder, line, oracle(line)));
        }
        i := i + 1;
        lineOfText := ReadLine(lines, i);
      }
      resultStats.SetNumberOfParagraphs(paragraphCount);
      result := resultStats;
    }

    /** The work on one non-blank line: sentence segmentation, then tokenisation of every piece. */
    method AnalyzeLine(line: string, bounds: seq<nat>)
      requires Valid() && S.IsBoundaryList(line, bounds)
      modifies this, wordCount, typeCount, resultStats
      ensures Valid()
      ensures paragraphCount == old(paragraphCount)
      ensures sentenceCount == old(sentenceCount) + |bounds| - 1
      ensures dispatched == old(dispatched) + [line]
      ensures wordCount.contents == Tally(old(wordCount.contents), LineTokens(ruleOrder, line, bounds))
      ensures resultStats.numberOfParagraphs == old(resultStats.numberOfParagraphs)
      ensures resultStats.GetWords() == wordCount
      ensures SegmentedLast(line, bounds)
    {
      dispatched := dispatched + [line];
      var result := SentenceSegmentation(line, bounds);
      S.PiecesShape(line, bounds);
      TokenizeSentence(result);
    }

    /**
     * `sentenceSegmementation`: walks the boundaries with `first`/`next`/`current`
     * and collects the text between consecutive ones. `current()` stays at the
     * last boundary once `next()` reports DONE, so the last piece is empty and
     * the sentence count grows by the number of boundaries less one.
     */
    method SentenceSegmentation(textParagraph: string, bounds: seq<nat>) returns (result: seq<string>)
      requires Valid() && S.IsBoundaryList(textParagraph, bounds)
      modifies this, resultStats
      ensures Valid()
      ensures result == sentences == S.Pieces(textParagraph, bounds) && tempParagraph == textParagraph
      ensures prevSentenceIndex == currSentenceIndex == |textParagraph|
      ensures sentenceCount == old(sentenceCount) + |bounds| - 1
      ensures resultStats.GetNumberOfSentences() == sentenceCount
      ensures resultStats.numberOfParagraphs == old(resultStats.numberOfParagraphs)
      ensures resultStats.types == old(resultStats.types)
      ensures paragraphCount == old(paragraphCount) && dispatched == old(dispatched)
    {
      tempParagraph := textParagraph;
      var list, prev, curr := CollectPieces(textParagraph, bounds);
      sentences, prevSentenceIndex, currSentenceIndex := list, prev, curr;
      sentenceCount := sentenceCount + (|sentences| - 1);
      resultStats.SetNumberOfSentences(sentenceCount);
      result := sentences;
    }

    /**
     * `tokenizeSentence`: every piece is expanded rule by rule in the table's
     * order, split into tokens, and counted. The guard at the top of the loop
     * holds for every non-null string, so the trailing empty piece is counted too.
     */
    method TokenizeSentence(ss: seq<string>)
      requires Valid()
      modifies wordCount, typeCount, resultStats
      ensures Valid()
      ensures wordCount.contents == Tally(old(wordCount.contents), SentencesTokens(ruleOrder, ss))
      ensures |ss| > 0 ==> resultStats.GetWords() == wordCount
      ensures |ss| == 0 ==> resultStats.GetWords() == old(resultStats.types)
      ensures resultStats.numberOfParagraphs == old(resultStats.numberOfParagraphs)
    {
      for i := 0 to |ss|
        invariant Valid()
        invariant wordCount.contents == Tally(old(wordCount.contents), SentencesTokens(ruleOrder, ss[..i]))
        invariant i > 0 ==> resultStats.types == wordCount
        invariant i == 0 ==> resultStats.types == old(resultStats.types)
        invariant resultStats.numberOfParagraphs == old(resultStats.numberOfParagraphs)
      {
        var tokenizedSentence := ExpandAndSplit(ruleOrder, ss[i]);
        CountWords(tokenizedSentence);
        SentencesTokensStep(ruleOrder, ss, i);
        TallyAppend(old(wordCount.contents), SentencesTokens(ruleOrder, ss[..i]), tokenizedSentence);
      }
      assert ss[..|ss|] == ss;
    }

    /**
     * `countWords`: each token raises its frequency by one (inserting it at 1),
     * and its type entry ends at 1 whether or not it was there; then the token
     * total is recomputed as the sum of all frequencies and the types are counted.
     */
    method CountWords(wordsList: seq<string>)
      requires Valid()
      modifies wordCount, typeCount, resultStats
      ensures Valid()
      ensures wordCount.contents == Tally(old(wordCount.contents), wordsList)
      ensures resultStats.GetNumberOfTokens() == SumValues(wordCount.contents)
      ensures resultStats.GetNumberOfTypes() == |wordCount.contents|
      ensures resultStats.GetWords() == wordCount
      ensures resultStats.numberOfParagraphs == old(resultStats.numberOfParagraphs)
      ensures resultStats.numberOfSentences == old(resultStats.numberOfSentences)
    {
      for i := 0 to |wordsList|
        modifies wordCount, typeCount
        invariant wordCount.contents == Tally(old(wordCount.contents), wordsList[..i])
        invariant typeCount.contents.Keys == wordCount.contents.Keys
        invariant forall k :: k in typeCount.contents ==> typeCount.contents[k] == 1
      {
        assert wordsList[..i + 1][..i] == wordsList[..i];
        CountToken(wordsList[i]);
      }
      assert wordsList[..|wordsList|] == wordsList;
      TypeTotal(typeCount.contents, wordCount.contents);
      var tokenCount := SumOfValues(wordCount.contents);
      resultStats.SetNumberOfTokens(tokenCount);
      CountTypes();
    }

    /**
     * One token of `countWords`' loop: its frequency goes up by one (it is
     * inserted at 1), and its type entry, raised first when present, is then
     * overwritten with 1.
     */
    method CountToken(word: string)
      requires wordCount != typeCount
      modifies wordCount, typeCount
      ensures wordCount.contents == Bump(old(wordCount.contents), word)
      ensures typeCount.contents == old(typeCount.contents)[word := 1]
    {
      var num := wordCount.Get(word);
      var n := if num.None? then 1 else num.value + 1;
      wordCount.Put(word, n);
      if typeCount.ContainsKey(word) {
        var t := typeCount.Get(word);
        typeCount.Put(word, t.value + 1);
      }
      typeCount.Put(word, 1);
    }

    /** `countTypes`: the sum of the type table's values, and the frequency map handed to the record. */
    method CountTypes()
      modifies resultStats
      ensures resultStats.GetNumberOfTypes() == SumValues(typeCount.contents)
      ensures resultStats.GetWords() == wordCount
      ensures resultStats.numberOfParagraphs == old(resultStats.numberOfParagraphs)
      ensures resultStats.numberOfSentences == old(resultStats.numberOfSentences)
      ensures resultStats.numberOfTokens == old(resultStats.numberOfTokens)
    {
      var numOfTypes := SumOfValues(typeCount.contents);
      resultStats.SetNumberOfTypes(numOfTypes);
      resultStats.SetWords(wordCount);
    }
  }

  /**
   * The segmentation loop of `sentenceSegmementation` on a boundary iterator
   * over `text`: the pieces between consecutive boundaries, and the last
   * values of `prevSentenceIndex` and `currSentenceIndex`.
   */
  method CollectPieces(text: string, bounds: seq<nat>) returns (list: seq<string>, prev: int, curr: int)
    requires S.IsBoundaryList(text, bounds)
    ensures list == S.Pieces(text, bounds)
    ensures prev == curr == |text|
  {
    var breaker := new S.SentenceBreaker(text, bounds);
    list := [];
    var boundaryInd := breaker.First();
    prev, curr := 0, 0;
    while boundaryInd != S.DONE
      invariant breaker.Valid() && breaker.text == text && breaker.bounds == bounds
      invariant boundaryInd != S.DONE ==> |list| == breaker.index
      invariant boundaryInd == S.DONE ==> |list| == |bounds| && prev == curr == |text|
      invariant |list| <= |bounds|
      invariant forall j :: 0 <= j < |list| ==> list[j] == S.Piece(text, bounds, j)
      decreases |bounds| - |list|
    {
      var j := breaker.index;
      prev := breaker.Current();
      boundaryInd := breaker.Next();
      curr := breaker.Current();
      if j + 1 < |bounds| {
        assert bounds[j] < bounds[j + 1];
      }
      list := list + [text[prev..curr]];
    }
  }

  /**
   * One analysis by a new analyser: the paragraph count is the number of
   * blank lines plus one, the sentence count the number of sentence
   * boundaries, the token count the number of tokens, the word map their
   * frequencies and the type count the number of distinct tokens.
   */
  method AnalyzeNewText(order: seq<C.Rule>, lines: seq<string>, oracle: string -> seq<nat>)
    returns (result: AnalyzedData)
    requires C.IsTableOrder(order) && OracleCovers(lines, oracle)
    ensures result.GetNumberOfParagraphs() == BlankCount(lines) + 1
    ensures result.GetNumberOfSentences() == SentenceTotal(lines, oracle)
    ensures result.GetNumberOfTokens() == |DocTokens(order, lines, oracle)|
    ensures result.GetWords().contents == Tally(map[], DocTokens(order, lines, oracle))
    ensures result.GetNumberOfTypes() == |result.GetWords().contents|
  {
    var analyzer := new TextAnalyzer(order);
    result := analyzer.AnalyzeText(lines, oracle);
    FreshTallySum(DocTokens(order, lines, oracle));
  }

  /** Counting `ws` from an empty map gives frequencies that sum to `|ws|`. */
  lemma FreshTallySum(ws: seq<string>)
    ensures SumValues(Tally(map[], ws)) == |ws|
  {
    TallySum(map[], ws);
    assert SumValues(map[]) == 0;
  }
}

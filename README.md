# nlp-text-processor: the text-analysis core in Dafny

This project models the analysis pipeline of `nlp-text-processor`. The pipeline reads a plain-text document line by line and works out five things:

- the number of paragraphs;
- the number of sentences;
- the number of word tokens;
- the number of distinct word types;
- a table from each token to how often it occurs.

It then writes a report. The report has the four counts, a separator line, and one line per token. Tokens are ordered by count, highest first; equal counts are ordered by the token text.

The model follows the three core classes:

| Java class | Dafny module | file |
|---|---|---|
| `TextAnalyzer` | `Analyzer` | `text_analyzer.dfy` |
| `AnalyzedData` | `Structures` | `structures.dfy` |
| `OutputPrinter` | `Printer` | `output_printer.dfy` |

Supporting modules:

- `JavaText` (`java_text.dfy`) covers the parts of `java.lang.String` and `java.util.regex` the core relies on. That is the ASCII classes `\w`, `\s`, `[a-zA-Z]` and `[0-9]`, plus `trim`, `replace(char, char)`, `Integer.toString` and `compareTo`.
- `Contractions` (`contractions.dfy`) holds the twelve-entry contraction table of `tokenizeSentence`. Each entry is modelled as the concrete matcher its pattern denotes, with the trailing `\b` included. `replaceAll` is modelled as a left-to-right scan that does not overlap matches.
- `Tokenizer` (`tokenizer.dfy`) models `splitter`, the `find()` loop over `(\w+)|(\.{3})|(\'s)|[^\s]`.
- `Segmenter` (`segmenter.dfy`) covers the `BreakIterator` protocol as `sentenceSegmementation` uses it.
- `Wrappers` (`wrappers.dfy`) holds `Option`.

## Objects and state

- `TextAnalyzer` and `OutputPrinter` are classes whose methods update fields, as in the source.
- `AnalyzedData` and the Java `HashMap<String, Integer>` (`Structures.WordMap`) are also classes.
  - `setWords` stores a reference, so the record and the analyser share one map.
  - The model keeps that aliasing. After a sentence has been counted, `resultStats.GetWords()` is the analyser's own `wordCount` object.
- `TextAnalyzer.Valid()` is the invariant every method keeps:
  - the published token count is the sum of the frequencies;
  - the published type count is the number of distinct tokens;
  - the published sentence count is the running sentence counter;
  - `typeCount` has the same keys as `wordCount`, and every value in it is 1;
  - the `tokenCount` field stays 0, because `countWords` declares a local of the same name.
- Every frequency update is tied to the specification function `Structures.Tally`. The map after counting tokens `ws` is `Tally(old map, ws)`. `Tally` itself is characterised by lemmas: each token's frequency goes up by its number of occurrences, and the sum rises by `|ws|`.

## Inputs that are not computed here

Three inputs come from outside the model.

- **The sentence boundaries** come from a function `oracle: string -> seq<nat>`. For each non-blank line it gives the boundary list `BreakIterator` would produce: strictly increasing, from 0 to the line's length.
  - The model captures the protocol exactly. `first()` returns 0. `next()` returns `DONE` (-1) after the last boundary. `current()` then stays at the last boundary.
  - As a result, the loop in `sentenceSegmementation` collects `k + 1` pieces for `k + 1` boundaries, and the last piece is always `""`.
  - So `sentenceCount += sentences.size() - 1` adds exactly the `k` real sentences (`Segmenter.PiecesShape`, `Analyzer.TextAnalyzer.SentenceSegmentation`).
- **The order of the contraction rules** is a constructor parameter `ruleOrder`. It must be a permutation of the twelve rules. In the source it is `HashMap.keySet()` iteration order, which is fixed by the JVM's string hashing.
  - The order matters. `Contractions.OrderSensitivity` exhibits two permutations of the whole table that expand the same sentence differently.
- **The lines of the document** are a `seq<string>`. The function `Analyzer.ReadLine` stands in for `readLine()`, with `None` in place of `null` at the end of input.

## Behaviour of the code worth knowing

The model follows the code in each of these cases.

- **Sentence count.** With the `BreakIterator` protocol above, the list of pieces always ends with one empty piece. So `sentenceCount += sentences.size() - 1` counts every real sentence, and a one-sentence line adds 1.
- **Rule order.** The contraction rules are iterated through a `HashMap`, so the order in which they are applied is the hash order, not the order of the `put` calls. The model takes any permutation.
- **Pronoun rules.** The replacement `$2 is` drops group 1, the character before the pronoun, so `"x he's"` becomes `"xhe is"` (`Contractions.PronounDropsPrecedingCharacter`). `^` only matches at the very start of the sentence.
- **"she's".** The comment at `TextAnalyzer.java:224` names "he", "she" and "it", but the second pronoun pattern is `[Ss]e`. Its group 1 must be a non-letter, so it never matches inside `"she's"`; that word is left to the `'s` rule and becomes `"she 's"` (`Contractions.SheIsLeftToPossessive`).
- **Left-maximal word tokens.** Every word token is a maximal run of word characters on the right. On the left, one exception remains: a word run right after a `'s` token. `Tokenizer.PreviousMatchEnd` states when this can happen, and `Tokenizer.PossessiveThenWord` shows `"'sab"` giving `'s`, `ab`.
- **The empty-piece guard.** The guard `!sentence.equals(" ") || !(sentence == null)` is always true. So the trailing `""` piece is expanded and split as well. It yields no tokens (`Analyzer.EmptyPieceNoTokens`).
- **`typeCount`.** The comment at `TextAnalyzer.java:283` says "types (distinct words)". The code first does `put(word, typeCount.get(word) + 1)`, then immediately overwrites it with `put(word, 1)`. So every value is 1 and their sum is the number of distinct tokens (`Analyzer.TypeTotal`).

## Model

| member | source | states |
|---|---|---|
| JavaText.Trim | src/textProcess/compute/TextAnalyzer.java:133 | the trimmed line is a slice of the line; everything cut from either end is at or below U+0020; the result is empty or starts and ends above U+0020 |
| JavaText.TrimEmptyIff | src/textProcess/compute/TextAnalyzer.java:133 | `trim().length() == 0` holds exactly when every character of the line is at or below U+0020 |
| JavaText.RunLength | src/textProcess/compute/TextAnalyzer.java:241 | the `[0-9]+` / `[a-zA-Z]+` runs are maximal: every character in the run is in the class and the next one is not |
| JavaText.ReplaceChar | src/textProcess/utils/OutputPrinter.java:93 | `replace('=', ' ')` keeps the length and swaps exactly the `=` characters |
| JavaText.ReplaceCharAppend | src/textProcess/utils/OutputPrinter.java:93 | character replacement distributes over concatenation |
| JavaText.IntToString | src/textProcess/utils/OutputPrinter.java:76-79 | the decimal rendering of a count is non-empty digits, with a leading minus only for negative values |
| JavaText.IntToStringRoundTrip | src/textProcess/utils/OutputPrinter.java:76-79 | parsing the rendered count gives the count back |
| JavaText.NatToStringRoundTrip | src/textProcess/utils/OutputPrinter.java:76-79 | parsing the unsigned rendering gives the number back |
| JavaText.StrLessIrreflexive | src/textProcess/utils/OutputPrinter.java:85 | `compareTo` on keys: no key is before itself |
| JavaText.StrLessTransitive | src/textProcess/utils/OutputPrinter.java:85 | `compareTo` on keys is transitive |
| JavaText.StrLessTotal | src/textProcess/utils/OutputPrinter.java:85 | of two different keys exactly one is before the other |
| Structures.WordMap.Put | src/textProcess/compute/TextAnalyzer.java:281 | `put` binds the key to the value and keeps every other binding |
| Structures.AnalyzedData.constructor | src/textProcess/structures/AnalyzedData.java:20-42 | a new record has four zero counts and its own empty word map |
| Structures.AnalyzedData.SetWords | src/textProcess/structures/AnalyzedData.java:54-55 | the record now refers to the given map object (not a copy), `getWords` returns it, and the counts are unchanged |
| Structures.AnalyzedData.SetNumberOfParagraphs | src/textProcess/structures/AnalyzedData.java:64-65 | `getNumberOfParagraphs` returns the new value; every other field is unchanged |
| Structures.AnalyzedData.SetNumberOfSentences | src/textProcess/structures/AnalyzedData.java:74-75 | `getNumberOfSentences` returns the new value; every other field is unchanged |
| Structures.AnalyzedData.SetNumberOfTokens | src/textProcess/structures/AnalyzedData.java:84-85 | `getNumberOfTokens` returns the new value; every other field is unchanged |
| Structures.AnalyzedData.SetNumberOfTypes | src/textProcess/structures/AnalyzedData.java:94-95 | `getNumberOfTypes` returns the new value; every other field is unchanged |
| Structures.WordMap.constructor | src/textProcess/compute/TextAnalyzer.java:63-67 | `new HashMap<>()` is an empty map |
| Structures.WordMap.Get | src/textProcess/compute/TextAnalyzer.java:279 | `get` gives the stored value, or null (`None`) for a missing key |
| Structures.WordMap.ContainsKey | src/textProcess/compute/TextAnalyzer.java:284-288 | `containsKey` holds exactly for the stored keys |
| Structures.AnalyzedData.GetNumberOfSentences | src/textProcess/structures/AnalyzedData.java:104-105 | the getter returns the stored sentence count |
| Structures.AnalyzedData.GetNumberOfParagraphs | src/textProcess/structures/AnalyzedData.java:114-115 | the getter returns the stored paragraph count |
| Structures.AnalyzedData.GetNumberOfTokens | src/textProcess/structures/AnalyzedData.java:124-125 | the getter returns the stored token count |
| Structures.AnalyzedData.GetNumberOfTypes | src/textProcess/structures/AnalyzedData.java:134-135 | the getter returns the stored type count |
| Structures.AnalyzedData.GetWords | src/textProcess/structures/AnalyzedData.java:144-145 | the getter returns the stored map object itself |
| Structures.Freq | src/textProcess/compute/TextAnalyzer.java:279-280 | a token's frequency, 0 when it is not a key |
| Structures.Bump | src/textProcess/compute/TextAnalyzer.java:279-281 | one token: `put(word, get(word) + 1)`, or 1 for a new key |
| Structures.Tally | src/textProcess/compute/TextAnalyzer.java:275-281 | the frequency map after bumping each token of a list in order |
| Structures.TallyCounts | src/textProcess/compute/TextAnalyzer.java:279-281 | counting a token list adds exactly the tokens as keys, raises each frequency by that token's number of occurrences, and leaves other keys alone |
| Structures.TallyPositive | src/textProcess/compute/TextAnalyzer.java:280 | every stored frequency is at least 1 |
| Structures.TallyAppend | src/textProcess/compute/TextAnalyzer.java:275-281 | counting `a` and then `b` is counting `a + b` |
| Structures.TallySum | src/textProcess/compute/TextAnalyzer.java:292-298 | counting `n` tokens raises the sum of all frequencies by exactly `n` |
| Structures.SumValuesPick | src/textProcess/compute/TextAnalyzer.java:293-296 | the sum over `keySet()` does not depend on the iteration order |
| Structures.SumOfOnes | src/textProcess/compute/TextAnalyzer.java:312-315 | a map whose values are all 1 sums to its number of keys |
| Structures.SumOfValues | src/textProcess/compute/TextAnalyzer.java:292-296 | the summing loop, in any key order, computes the sum of the values |
| Contractions.Table | src/textProcess/compute/TextAnalyzer.java:223-241 | the twelve rules in the order of the `put` calls |
| Contractions.IsTableOrder | src/textProcess/compute/TextAnalyzer.java:249 | an iteration order of the table's key set: a permutation of the twelve rules |
| Contractions.MatchLen | src/textProcess/compute/TextAnalyzer.java:225-241 | the length of the match of a rule's pattern at a position, 0 when there is none; it never runs past the end |
| Contractions.Replacement | src/textProcess/compute/TextAnalyzer.java:225-241 | what replaces a match: `$2 is` for the pronoun rules, the literal value, or `$1 $2` for digits then letters |
| Contractions.ReplaceFrom | src/textProcess/compute/TextAnalyzer.java:251 | `replaceAll` from a position on: each match, scanning left to right, is replaced and the scan resumes after it |
| Contractions.Apply | src/textProcess/compute/TextAnalyzer.java:251 | `replaceAll` of one rule over the whole sentence |
| Contractions.Expand | src/textProcess/compute/TextAnalyzer.java:249-252 | the rules applied one after the other in the given order |
| Contractions.ExpandSentence | src/textProcess/compute/TextAnalyzer.java:249-252 | the rule loop rewrites the sentence by each rule of the key order in turn, the output of one being the input of the next |
| Contractions.ExpandAppend | src/textProcess/compute/TextAnalyzer.java:249-252 | applying the rules of `a + b` is applying `a`, then `b` |
| Contractions.ApplyUnchangedIff | src/textProcess/compute/TextAnalyzer.java:251 | a `replaceAll` leaves the sentence unchanged exactly when its pattern, `\b` included, occurs nowhere in it |
| Contractions.ExpandNoMatch | src/textProcess/compute/TextAnalyzer.java:249-252 | a sentence that no rule matches passes through the loop unchanged |
| Contractions.ReplaceFromGains | src/textProcess/compute/TextAnalyzer.java:251 | a replacement never lowers the number of non-apostrophe characters, and raises it when the pattern occurs |
| Contractions.ReplacementGains | src/textProcess/compute/TextAnalyzer.java:225-241 | each of the twelve replacements has more non-apostrophe characters than the text it replaces |
| Contractions.NoApostropheNoMatch | src/textProcess/compute/TextAnalyzer.java:225-238 | the eleven apostrophe rules cannot match text without an apostrophe |
| Contractions.NoDigitNoMatch | src/textProcess/compute/TextAnalyzer.java:241 | the digits-then-letters rule cannot match text without a digit |
| Contractions.PronounAtStart | src/textProcess/compute/TextAnalyzer.java:225 | `^` lets the pronoun rule match at the start: `He's` becomes `He is` |
| Contractions.PronounDropsPrecedingCharacter | src/textProcess/compute/TextAnalyzer.java:225 | the replacement `$2 is` drops the character before the pronoun: `x he's` becomes `xhe is` |
| Contractions.ApostropheMNeedsBoundary | src/textProcess/compute/TextAnalyzer.java:238 | the appended `\b` decides a match: `I'm` expands, `'ma` does not |
| Contractions.PossessiveSplit | src/textProcess/compute/TextAnalyzer.java:231 | `dog's` becomes `dog 's` |
| Contractions.DigitsSplit | src/textProcess/compute/TextAnalyzer.java:241 | `1990s` becomes `1990 s` |
| Contractions.PossessiveOnHeIs | src/textProcess/compute/TextAnalyzer.java:231 | the `'s` rule leaves an already expanded `He is` alone |
| Contractions.SheIsLeftToPossessive | src/textProcess/compute/TextAnalyzer.java:224-231 | the `[Ss]e` pronoun rule matches nowhere in `she's`, which the `'s` rule turns into `she 's` |
| Contractions.PronounAfterPossessive | src/textProcess/compute/TextAnalyzer.java:225-231 | once `'s` has split `He's`, the pronoun rule no longer matches |
| Contractions.OrderSensitivity | src/textProcess/compute/TextAnalyzer.java:223-252 | the expansion depends on the key order: two permutations of all twelve rules give different results for `He's`; in the order of the `put` calls it becomes `He is`, in an order that visits `'s` first it becomes `He 's` |
| Tokenizer.TokenLenAt | src/textProcess/compute/TextAnalyzer.java:334 | the alternation matches nothing at whitespace and something at every other character |
| Tokenizer.Find | src/textProcess/compute/TextAnalyzer.java:337 | `find()` skips only whitespace and returns the match at the first other character; it fails exactly when only whitespace remains |
| Tokenizer.TokensFrom | src/textProcess/compute/TextAnalyzer.java:337 | the texts of the successive `find()` matches from a position on |
| Tokenizer.Tokens | src/textProcess/compute/TextAnalyzer.java:334-338 | the tokens of a whole sentence |
| Tokenizer.Splitter | src/textProcess/compute/TextAnalyzer.java:332-339 | the `find()` loop collects exactly the tokens of the sentence, in order |
| Tokenizer.SpansFromMatch | src/textProcess/compute/TextAnalyzer.java:337 | the tokens are the texts of ordered, disjoint matches of the pattern |
| Tokenizer.TokensCover | src/textProcess/compute/TextAnalyzer.java:334 | the tokens joined together are the sentence with its whitespace removed |
| Tokenizer.NoTokensIffBlank | src/textProcess/compute/TextAnalyzer.java:334 | a sentence has no tokens exactly when it is all whitespace |
| Tokenizer.TokenShapes | src/textProcess/compute/TextAnalyzer.java:334 | every token is a word-character run, `...`, `'s` or one non-whitespace character |
| Tokenizer.WordTokensMaximal | src/textProcess/compute/TextAnalyzer.java:334 | every word token ends at a non-word character or the end; it starts at the beginning, after a non-word character, or directly after an `'s` token |
| Tokenizer.PreviousMatchEnd | src/textProcess/compute/TextAnalyzer.java:334 | a match followed by a word character ends on a non-word character, or is the `'s` alternative |
| Tokenizer.WaitReally | src/textProcess/compute/TextAnalyzer.java:334 | `Wait... really?` splits into `Wait`, `...`, `really`, `?` |
| Tokenizer.FourDots | src/textProcess/compute/TextAnalyzer.java:334 | `....` splits into `...` and `.` |
| Tokenizer.PossessiveToken | src/textProcess/compute/TextAnalyzer.java:334 | `dog 's` splits into `dog` and `'s` |
| Tokenizer.PossessiveThenWord | src/textProcess/compute/TextAnalyzer.java:334 | `'sab` splits into `'s` and `ab`, although `ab` follows the word character `s` |
| Segmenter.SentenceBreaker.constructor | src/textProcess/compute/TextAnalyzer.java:182-183 | a boundary iterator over the line is positioned at the first boundary |
| Segmenter.SentenceBreaker.First | src/textProcess/compute/TextAnalyzer.java:185 | `first()` returns boundary 0 and positions the iterator there |
| Segmenter.SentenceBreaker.Next | src/textProcess/compute/TextAnalyzer.java:189-190 | `next()` moves to and returns the following boundary; after the last one it returns `DONE` and `current()` stays put |
| Segmenter.Piece | src/textProcess/compute/TextAnalyzer.java:192 | `substring(prev, curr)` for one boundary step |
| Segmenter.Pieces | src/textProcess/compute/TextAnalyzer.java:185-193 | the pieces the loop collects, one per boundary |
| Segmenter.PiecesShape | src/textProcess/compute/TextAnalyzer.java:185-195 | the loop collects one piece per boundary; the last is empty and every other is the non-empty text between consecutive boundaries |
| Segmenter.PiecesConcat | src/textProcess/compute/TextAnalyzer.java:192 | the pieces cover the line without gaps or overlaps |
| Segmenter.PiecesPrefix | src/textProcess/compute/TextAnalyzer.java:192 | the first `j` pieces cover the line up to boundary `j` |
| Analyzer.ExpandAndSplit | src/textProcess/compute/TextAnalyzer.java:248-255 | one piece is expanded by the rules in key order and then split into tokens |
| Analyzer.SentencesTokensStep | src/textProcess/compute/TextAnalyzer.java:244-260 | one more piece adds its tokens after those of the earlier pieces |
| Analyzer.EmptyPieceNoTokens | src/textProcess/compute/TextAnalyzer.java:246 | the trailing empty piece, which the guard lets through, contributes no tokens |
| Analyzer.LineTokensOfSentences | src/textProcess/compute/TextAnalyzer.java:185-195 | a line's tokens are those of its real sentences |
| Analyzer.NonBlankPartition | src/textProcess/compute/TextAnalyzer.java:133-144 | every line is either counted as a paragraph end or handed on to segmentation, and the lines handed on are exactly the non-blank ones |
| Analyzer.TypeTotal | src/textProcess/compute/TextAnalyzer.java:284-288 | a type table with the frequency map's keys and every value 1 sums to the number of distinct tokens |
| Analyzer.BlankLineStep | src/textProcess/compute/TextAnalyzer.java:133-137 | a blank line adds one paragraph, no sentence and no token |
| Analyzer.TextLineStep | src/textProcess/compute/TextAnalyzer.java:138-145 | a non-blank line adds no paragraph, its boundary count minus one sentences, and its tokens |
| Analyzer.TextAnalyzer.constructor | src/textProcess/compute/TextAnalyzer.java:42-70 | a new analyser has zero counters, fresh empty frequency and type maps, and a fresh record whose paragraph count is 0, and satisfies the invariant; the scratch fields start as an empty sentence list, an empty paragraph and indices 0 |
| Analyzer.TextAnalyzer.AnalyzeText | src/textProcess/compute/TextAnalyzer.java:120-156 | the paragraph counter rises by the number of blank lines plus one for the end of input, and the record shows it; the sentence counter rises by the document's sentence count; exactly the non-blank lines are segmented, in order; the frequency map counts every token of the document; the invariant is kept; the record itself is returned, and it holds the analyser's own map once a non-blank line was read (its earlier map otherwise) |
| Analyzer.TextAnalyzer.AnalyzeLine | src/textProcess/compute/TextAnalyzer.java:139-144 | a non-blank line adds its sentence count and counts its tokens; the record keeps its paragraph count and then holds the analyser's own map; afterwards `tempParagraph` is the line, `sentences` its pieces, and both indices stand at the line's end |
| Analyzer.TextAnalyzer.SentenceSegmentation | src/textProcess/compute/TextAnalyzer.java:174-200 | the returned list is the pieces between consecutive boundaries; the sentence counter rises by the boundary count minus one, and the record is given the new total; the record's paragraph count and map stay; both indices end at the line's length |
| Analyzer.CollectPieces | src/textProcess/compute/TextAnalyzer.java:185-193 | the `first`/`next`/`current` loop collects each piece between consecutive boundaries plus the trailing empty piece, and leaves both indices at the end of the line |
| Analyzer.TextAnalyzer.TokenizeSentence | src/textProcess/compute/TextAnalyzer.java:220-261 | the frequency map counts the tokens of every expanded piece, in order; the invariant is kept; the record keeps its paragraph count; once a piece has been counted the record shares the analyser's map, and with no pieces its map is unchanged |
| Analyzer.TextAnalyzer.CountWords | src/textProcess/compute/TextAnalyzer.java:272-301 | the frequency map counts the tokens; the record's token count is the sum of the frequencies, its type count the number of distinct tokens, and its map the analyser's map; its paragraph and sentence counts stay |
| Analyzer.TextAnalyzer.CountToken | src/textProcess/compute/TextAnalyzer.java:279-288 | one token: its frequency rises by one (to 1 when it was absent), and its type entry is 1 |
| Analyzer.TextAnalyzer.CountTypes | src/textProcess/compute/TextAnalyzer.java:308-319 | the record's type count is the sum of the type table, it shares the frequency map, and its other counts are unchanged |
| Analyzer.AnalyzeNewText | src/textProcess/compute/TextAnalyzer.java:120-156 | on a fresh analyser the record holds: the number of blank lines plus one paragraphs, the document's sentence count, the number of tokens, the frequencies of the tokens, and the number of distinct tokens as type count |
| Printer.Precedes | src/textProcess/utils/OutputPrinter.java:85 | the comparator: higher count first, equal counts by key ascending |
| Printer.CountLine | src/textProcess/utils/OutputPrinter.java:76-79 | one `# of <name> = <n>` line |
| Printer.Header | src/textProcess/utils/OutputPrinter.java:76-81 | the four count lines in order, a line break and the separator |
| Printer.EntryLine | src/textProcess/utils/OutputPrinter.java:93 | `key=value` with every `=` replaced by a space, and a line break |
| Printer.Report | src/textProcess/utils/OutputPrinter.java:75-98 | the header, a line break and the entry lines |
| Printer.PrecedesIrreflexive | src/textProcess/utils/OutputPrinter.java:85 | the comparator (count descending, then key ascending) puts no entry before itself |
| Printer.PrecedesTransitive | src/textProcess/utils/OutputPrinter.java:85 | the comparator is transitive |
| Printer.PrecedesTotal | src/textProcess/utils/OutputPrinter.java:85 | of two entries with different keys exactly one comes first |
| Printer.PrecedesAsymmetric | src/textProcess/utils/OutputPrinter.java:85 | the comparator never puts two entries each before the other |
| Printer.SortedUnique | src/textProcess/utils/OutputPrinter.java:85 | two sorted lists with the same elements are equal |
| Printer.SortedListUnique | src/textProcess/utils/OutputPrinter.java:85 | the sorted entry list of a map is unique, so any correct sort gives the same report |
| Printer.EachKeyOnce | src/textProcess/utils/OutputPrinter.java:85 | in the sorted entry list every key appears once |
| Printer.Insert | src/textProcess/utils/OutputPrinter.java:85 | inserting a new key into a sorted list keeps it sorted and adds exactly that entry |
| Printer.SortEntries | src/textProcess/utils/OutputPrinter.java:85 | the result is sorted by the comparator and holds exactly the map's entries |
| Printer.NumeralNoBreak | src/textProcess/utils/OutputPrinter.java:76-79 | a rendered count contains no line break and no space |
| Printer.CountLineRoundTrip | src/textProcess/utils/OutputPrinter.java:76-79 | a `# of <name> = <n>` line reads back as `n`, with the rest of the text after it |
| Printer.HeaderRoundTrip | src/textProcess/utils/OutputPrinter.java:75-81 | the header reads back as its four counts in the order paragraphs, sentences, tokens, types, followed by the separator line |
| Printer.EntryLineShape | src/textProcess/utils/OutputPrinter.java:93 | an entry line is the key with `=` replaced by space, a space and the count |
| Printer.EntryLineRoundTrip | src/textProcess/utils/OutputPrinter.java:93 | an entry line contains no `=`, and reads back as the space-replaced key and the count |
| Printer.EntryLinesStep | src/textProcess/utils/OutputPrinter.java:90-95 | each entry adds its line after those of the earlier entries |
| Printer.OutputPrinter.constructor | src/textProcess/utils/OutputPrinter.java:29-39 | a new printer's output buffer starts empty (the source leaves it null; it is replaced at :75 before anything reads it) |
| Printer.OutputPrinter.PrintAnalysisToScreen | src/textProcess/utils/OutputPrinter.java:73-99 | the text handed to the file writer is the header, a line break, and one line per entry of the record's map, in comparator order |
| Printer.OutputPrinter.AppendHeader | src/textProcess/utils/OutputPrinter.java:75-81 | the four count lines and the separator are appended, in order |
| Printer.OutputPrinter.AppendEntries | src/textProcess/utils/OutputPrinter.java:90-95 | the entry lines are appended in list order |

## Left out

- File and console I/O are not modelled: `readLine` over a `BufferedReader`, `inputData.close()`, the `System.out.println` calls and `printAnalysisToFile`. The document is a sequence of lines, and the report is the string handed to the file writer.
- `FileHandler` and `TextPreProcessorMain` are not part of this model.
- The singleton `getInstance()` (double-checked locking on a `volatile` field) and thread safety are not modelled. `Analyzer.AnalyzeNewText` models one analysis on a freshly built analyser. Later analyses on a reused instance are covered by `Analyzer.TextAnalyzer.AnalyzeText`, whose contract is relative to the state before the call.
- The sentence rules of `BreakIterator.getSentenceInstance(Locale.US)` are not modelled. Boundaries come from the `oracle` parameter, so abbreviation and punctuation rules are outside the model.
- `HashMap` iteration order (of the contraction table and of the key sets) is not modelled. The contraction order is the `ruleOrder` parameter. The sums over key sets are proved independent of order.
- Characters outside ASCII are not modelled. Java's `\w`, `\s` and `[a-zA-Z]` are ASCII-only by default. `String.compareTo` compares UTF-16 code units, while the model compares Dafny characters. The two agree on the Basic Multilingual Plane.
- `Analyzer.TextAnalyzer.CountWords`: Java `int` counters and sums wrap at 2^31. The model uses unbounded integers, so documents with more than 2^31 - 1 tokens are not modelled.
- `Printer.SortEntries`: the sort in the source is the library's stream sort. The model uses an insertion sort stand-in and proves the sorted list of a map unique (`Printer.SortedListUnique`). Any correct sort therefore gives the same list.
- `Printer.OutputPrinter.PrintAnalysisToScreen`: the contract says the report is built from some list that is sorted and holds exactly the map's entries. `Printer.SortedListUnique` shows there is only one such list.
- Some parts of a method are moved into methods of their own, so each proof stays small: `Analyzer.CollectPieces`, `Analyzer.ExpandAndSplit`, `Analyzer.TextAnalyzer.CountToken`, `Analyzer.TextAnalyzer.AnalyzeLine`, `Printer.OutputPrinter.AppendHeader` and `Printer.OutputPrinter.AppendEntries`. Their statements are those of the source.
- Analyzer.TextAnalyzer.AnalyzeText: the final values of the scratch fields `sentences`, `tempParagraph`, `prevSentenceIndex` and `currSentenceIndex` are not stated. `Analyzer.TextAnalyzer.AnalyzeLine` states them after each line, and nothing outside `sentenceSegmementation` reads them.
- `TextAnalyzer`'s `sentences` and `tempParagraph` start as `[]` and `""`, and `OutputPrinter`'s `output` starts as `""`, rather than `null`. Nothing reads them before they are first assigned (`output` is replaced by a new builder at `OutputPrinter.java:75`).
- `Analyzer.TextAnalyzer.CountToken`: the `typeCount.put(word, get + 1)` that is immediately overwritten by `put(word, 1)` is folded into the final effect. The contract states that effect.
- `PatternSyntaxException` and `IOException` cannot arise in the model, since the patterns are fixed and there is no I/O.

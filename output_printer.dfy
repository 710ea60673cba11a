/**
 * The report: four labelled counts, a separator line, and one line per word
 * with its frequency, the words ordered by frequency (highest first) and
 * equal frequencies by the word itself.
 */
module Printer {
  import opened Wrappers
  import opened JavaText
  import opened Structures

  /** A `Map.Entry<String, Integer>` of the word map. */
  datatype Entry = Entry(key: string, count: int)

  // ---------------------------------------------------------------- the ordering

  /**
   * `comparingByValue().reversed().thenComparing(getKey)`: `a` sorts before
   * `b` when its count is higher, or the counts are equal and its key is
   * smaller by `compareTo`.
   */
  predicate Precedes(a: Entry, b: Entry) {
    a.count > b.count || (a.count == b.count && StrLess(a.key, b.key))
  }

  lemma PrecedesIrreflexive(a: Entry)
    ensures !Precedes(a, a)
  {
    StrLessIrreflexive(a.key);
  }

  lemma PrecedesTransitive(a: Entry, b: Entry, c: Entry)
    requires Precedes(a, b) && Precedes(b, c)
    ensures Precedes(a, c)
  {
    if a.count == b.count == c.count {
      StrLessTransitive(a.key, b.key, c.key);
    }
  }

  /** Entries with different keys are ordered one way or the other, and never both. */
  lemma PrecedesTotal(a: Entry, b: Entry)
    requires a.key != b.key
    ensures Precedes(a, b) != Precedes(b, a)
  {
    StrLessTotal(a.key, b.key);
  }

  lemma PrecedesAsymmetric(a: Entry, b: Entry)
    requires Precedes(a, b)
    ensures !Precedes(b, a)
  {
    if a.count == b.count && StrLess(b.key, a.key) {
      StrLessTransitive(a.key, b.key, a.key);
      StrLessIrreflexive(a.key);
    }
  }

  /** Every entry sorts strictly before every later one. */
  predicate Sorted(es: seq<Entry>) {
    forall i, j :: 0 <= i < j < |es| ==> Precedes(es[i], es[j])
  }

  /** `es` lists the entries of `m`: each of its entries, and nothing else, in sorted order. */
  predicate SortedListOf(m: map<string, int>, es: seq<Entry>) {
    Sorted(es)
    && (forall k :: k in m ==> Entry(k, m[k]) in es)
    && (forall e :: e in es ==> e.key in m && e.count == m[e.key])
  }

  /** Two sorted lists with the same entries are the same list: the ordering leaves nothing to chance. */
  lemma {:induction false} SortedUnique(a: seq<Entry>, b: seq<Entry>)
    requires Sorted(a) && Sorted(b)
    requires forall e :: e in a <==> e in b
    ensures a == b
    decreases |a|
  {
    if a != [] && b != [] {
      if a[0] != b[0] {
        assert b[0] in a;
        var i :| 0 <= i < |a| && a[i] == b[0];
        assert a[0] in b;
        var j :| 0 <= j < |b| && b[j] == a[0];
        assert Precedes(a[0], a[i]) && Precedes(b[0], b[j]);
        PrecedesAsymmetric(a[0], b[0]);
      }
      forall e ensures e in a[1..] <==> e in b[1..] {
        if e in a[1..] {
          TailMember(a, e);
          HeadOrTail(b, e);
        }
        if e in b[1..] {
          TailMember(b, e);
          HeadOrTail(a, e);
        }
      }
      SortedUnique(a[1..], b[1..]);
      assert a == [a[0]] + a[1..] && b == [b[0]] + b[1..];
    } else if a != [] {
      HeadMember(a);
      assert false;
    } else if b != [] {
      HeadMember(b);
      assert false;
    }
  }

  lemma HeadMember(a: seq<Entry>)
    requires a != []
    ensures a[0] in a
  {
  }

  /** An entry after the head of a sorted list is in the list and is not its head. */
  lemma TailMember(a: seq<Entry>, e: Entry)
    requires Sorted(a) && a != [] && e in a[1..]
    ensures e in a && e != a[0]
  {
    var i :| 0 <= i < |a| - 1 && a[1..][i] == e;
    assert a[i + 1] == e;
    if e == a[0] {
      assert Precedes(a[0], a[i + 1]);
      PrecedesIrreflexive(e);
    }
  }

  lemma HeadOrTail(a: seq<Entry>, e: Entry)
    requires a != [] && e in a
    ensures e == a[0] || e in a[1..]
  {
    var i :| 0 <= i < |a| && a[i] == e;
    if i > 0 {
      assert a[1..][i - 1] == e;
    }
  }

  /** The sorted entries of a map are determined by the map. */
  lemma SortedListUnique(m: map<string, int>, a: seq<Entry>, b: seq<Entry>)
    requires SortedListOf(m, a) && SortedListOf(m, b)
    ensures a == b
  {
    forall e ensures e in a <==> e in b {
      if e in a || e in b {
        assert e == Entry(e.key, m[e.key]);
      }
    }
    SortedUnique(a, b);
  }

  /** Every key of the map appears in exactly one place of its sorted list. */
  lemma EachKeyOnce(m: map<string, int>, es: seq<Entry>, i: int, j: int)
    requires SortedListOf(m, es)
    requires 0 <= i < |es| && 0 <= j < |es| && es[i].key == es[j].key
    ensures i == j
  {
    assert es[i] in es && es[j] in es;
    assert es[i] == es[j];
    if i < j {
      PrecedesIrreflexive(es[i]);
    } else if j < i {
      PrecedesIrreflexive(es[j]);
    }
  }

  /** Inserts `e` at its place in a sorted list whose keys all differ from `e`'s. */
  function Insert(s: seq<Entry>, e: Entry): (r: seq<Entry>)
    requires Sorted(s)
    requires forall i :: 0 <= i < |s| ==> s[i].key != e.key
    ensures Sorted(r)
    ensures |r| == |s| + 1
    ensures forall x :: x in r <==> x in s || x == e
  {
    if s == [] then [e]
    else if Precedes(e, s[0]) then
      InsertFront(s, e);
      [e] + s
    else
      var rest := Insert(s[1..], e);
      InsertBehind(s, e, rest);
      [s[0]] + rest
  }

  lemma InsertFront(s: seq<Entry>, e: Entry)
    requires Sorted(s) && s != [] && Precedes(e, s[0])
    ensures Sorted([e] + s)
  {
    forall j | 0 < j < |s| ensures Precedes(e, s[j]) {
      PrecedesTransitive(e, s[0], s[j]);
    }
  }

  lemma InsertBehind(s: seq<Entry>, e: Entry, rest: seq<Entry>)
    requires Sorted(s) && s != [] && s[0].key != e.key && !Precedes(e, s[0])
    requires Sorted(rest) && forall x :: x in rest <==> x in s[1..] || x == e
    ensures Sorted([s[0]] + rest)
  {
    PrecedesTotal(e, s[0]);
    forall j | 0 <= j < |rest| ensures Precedes(s[0], rest[j]) {
      assert rest[j] in rest;
      if rest[j] != e {
        var k :| 0 <= k < |s[1..]| && s[1..][k] == rest[j];
        assert s[k + 1] == rest[j];
      }
    }
  }

  /** `entrySet().stream().sorted(...)`: the entries of the map, in the comparator's order. */
  method SortEntries(m: map<string, int>) returns (sorted: seq<Entry>)
    ensures SortedListOf(m, sorted)
  {
    sorted := [];
    var rest := m.Keys;
    while rest != {}
      invariant rest <= m.Keys
      invariant Sorted(sorted)
      invariant forall k :: k in m && k !in rest ==> Entry(k, m[k]) in sorted
      invariant forall e :: e in sorted ==> e.key in m && e.key !in rest && e.count == m[e.key]
      decreases rest
    {
      var k :| k in rest;
      assert forall i :: 0 <= i < |sorted| ==> sorted[i] in sorted;
      sorted := Insert(sorted, Entry(k, m[k]));
      rest := rest - {k};
    }
  }

  // ---------------------------------------------------------------- the report text

  /** The separator line: 32 '=' characters. */
  const Separator: string := "================================"

  /** `"# of " + name + " = " + n + "\n"`. */
  function CountLine(name: string, n: int): string {
    "# of " + name + " = " + IntToString(n) + "\n"
  }

  /** The four counts in their fixed order, then a line break and the separator. */
  function Header(paragraphs: int, sentences: int, tokens: int, types: int): string {
    CountLine("paragraphs", paragraphs) + CountLine("sentences", sentences)
      + CountLine("tokens", tokens) + CountLine("types", types) + "\n" + Separator
  }

  /** `entry.toString().replace('=', ' ') + "\n"`; `toString` writes `key=value`. */
  function EntryLine(e: Entry): string {
    ReplaceChar(e.key + "=" + IntToString(e.count), '=', ' ') + "\n"
  }

  /** The entry lines one after the other, in list order. */
  function EntryLines(es: seq<Entry>): string {
    if es == [] then "" else EntryLines(es[..|es| - 1]) + EntryLine(es[|es| - 1])
  }

  /** What is written to the output file: the header, a line break and the entry lines. */
  function Report(paragraphs: int, sentences: int, tokens: int, types: int, es: seq<Entry>): string {
    Header(paragraphs, sentences, tokens, types) + "\n" + EntryLines(es)
  }

  // ---------------------------------------------------------------- reading the report back

  /** The first index at or after `i` holding `c`, or `|s|` when there is none. */
  function IndexOf(s: string, c: char, i: nat): (r: nat)
    requires i <= |s|
    ensures i <= r <= |s|
    ensures forall j :: i <= j < r ==> s[j] != c
    ensures r == |s| || s[r] == c
    decreases |s| - i
  {
    if i == |s| || s[i] == c then i else IndexOf(s, c, i + 1)
  }

  /** The last index holding `c` before `n`, if any. */
  function LastIndexOf(s: string, c: char, n: nat): (r: Option<nat>)
    requires n <= |s|
    ensures r.Some? ==> r.value < n && s[r.value] == c && forall j :: r.value < j < n ==> s[j] != c
    ensures r.None? ==> forall j :: 0 <= j < n ==> s[j] != c
  {
    if n == 0 then None else if s[n - 1] == c then Some(n - 1) else LastIndexOf(s, c, n - 1)
  }

  /** The text of `Integer.toString`: an optional leading '-' and then digits. */
  predicate IsNumeral(s: string) {
    s != [] && forall i :: 0 <= i < |s| ==> IsDigit(s[i]) || (i == 0 && s[i] == '-')
  }

  /** Reads `# of <name> = <n>\n` from the front of `s`: the count and what follows. */
  function ReadCountLine(s: string, name: string): Option<(int, string)> {
    var pre := "# of " + name + " = ";
    if !LiteralAt(s, 0, pre) then None
    else
      var j := IndexOf(s, '\n', |pre|);
      if j == |s| || !IsNumeral(s[|pre|..j]) then None
      else Some((ParseInt(s[|pre|..j]), s[j + 1..]))
  }

  /** Reads the four counts of a header from the front of `s`, and what follows them. */
  function ReadCounts(s: string): Option<(int, int, int, int, string)> {
    match ReadCountLine(s, "paragraphs")
    case None => None
    case Some((p, r1)) =>
      match ReadCountLine(r1, "sentences")
      case None => None
      case Some((n, r2)) =>
        match ReadCountLine(r2, "tokens")
        case None => None
        case Some((t, r3)) =>
          match ReadCountLine(r3, "types")
          case None => None
          case Some((ty, r4)) => Some((p, n, t, ty, r4))
  }

  /** Splits an entry line at its last space: the key as printed and the count. */
  function ReadEntryLine(line: string): Option<(string, int)> {
    if line == [] || line[|line| - 1] != '\n' then None
    else
      match LastIndexOf(line, ' ', |line| - 1)
      case None => None
      case Some(i) =>
        if IsNumeral(line[i + 1..|line| - 1]) then Some((line[..i], ParseInt(line[i + 1..|line| - 1])))
        else None
  }

  lemma NumeralNoBreak(n: int)
    ensures IsNumeral(IntToString(n))
    ensures forall i :: 0 <= i < |IntToString(n)| ==> IntToString(n)[i] != '\n' && IntToString(n)[i] != ' '
  {
  }

  /** `# of <name> = `, a numeral and a line break read back as the numeral's value, leaving the rest. */
  lemma ReadCountParts(name: string, digits: string, rest: string)
    requires IsNumeral(digits) && forall i :: 0 <= i < |digits| ==> digits[i] != '\n'
    ensures ReadCountLine("# of " + name + " = " + digits + "\n" + rest, name) == Some((ParseInt(digits), rest))
  {
    var pre := "# of " + name + " = ";
    var s := pre + digits + "\n" + rest;
    assert s[..|pre|] == pre;
    assert forall j :: |pre| <= j < |pre| + |digits| ==> s[j] == digits[j - |pre|];
    assert s[|pre| + |digits|] == '\n';
    assert IndexOf(s, '\n', |pre|) == |pre| + |digits|;
    assert s[|pre|..|pre| + |digits|] == digits;
    assert s[|pre| + |digits| + 1..] == rest;
  }

  /** A count line reads back as its count, leaving the rest of the text. */
  lemma CountLineRoundTrip(name: string, n: int, rest: string)
    ensures ReadCountLine(CountLine(name, n) + rest, name) == Some((n, rest))
  {
    NumeralNoBreak(n);
    ReadCountParts(name, IntToString(n), rest);
    IntToStringRoundTrip(n);
  }

  /** The header reads back as its four counts, in order, followed by the separator line. */
  lemma HeaderRoundTrip(paragraphs: int, sentences: int, tokens: int, types: int, rest: string)
    ensures ReadCounts(Header(paragraphs, sentences, tokens, types) + rest)
         == Some((paragraphs, sentences, tokens, types, "\n" + Separator + rest))
  {
    var l1, l2 := CountLine("paragraphs", paragraphs), CountLine("sentences", sentences);
    var l3, l4 := CountLine("tokens", tokens), CountLine("types", types);
    var tail := "\n" + Separator + rest;
    AppendAssoc(l1 + l2 + l3 + l4 + "\n", Separator, rest);
    AppendAssoc(l1 + l2 + l3 + l4, "\n", Separator + rest);
    AppendAssoc("\n", Separator, rest);
    AppendAssoc(l1 + l2 + l3, l4, tail);
    AppendAssoc(l1 + l2, l3, l4 + tail);
    AppendAssoc(l1, l2, l3 + (l4 + tail));
    CountLineRoundTrip("paragraphs", paragraphs, l2 + (l3 + (l4 + tail)));
    CountLineRoundTrip("sentences", sentences, l3 + (l4 + tail));
    CountLineRoundTrip("tokens", tokens, l4 + tail);
    CountLineRoundTrip("types", types, tail);
  }

  /** Replacing '=' in `key=digits` turns the key's and the joining '=' into spaces and keeps the digits. */
  lemma ReplaceJoined(key: string, digits: string)
    requires forall i :: 0 <= i < |digits| ==> digits[i] != '='
    ensures ReplaceChar(key + "=" + digits, '=', ' ') == ReplaceChar(key, '=', ' ') + " " + digits
  {
    ReplaceCharAppend(key + "=", digits, '=', ' ');
    ReplaceCharAppend(key, "=", '=', ' ');
    assert ReplaceChar("=", '=', ' ') == " ";
    assert ReplaceChar(digits, '=', ' ') == digits;
  }

  /** An entry line is the key with every '=' turned into a space, a space, the count and a line break. */
  lemma EntryLineShape(e: Entry)
    ensures EntryLine(e) == ReplaceChar(e.key, '=', ' ') + " " + IntToString(e.count) + "\n"
  {
    NumeralNoBreak(e.count);
    ReplaceJoined(e.key, IntToString(e.count));
  }

  /** A line made of a key, a space, a numeral and a line break splits back into the key and the number. */
  lemma ReadEntryParts(key: string, digits: string)
    requires IsNumeral(digits) && forall i :: 0 <= i < |digits| ==> digits[i] != ' '
    ensures ReadEntryLine(key + " " + digits + "\n") == Some((key, ParseInt(digits)))
  {
    var line := key + " " + digits + "\n";
    var i := |key|;
    assert line[i] == ' ';
    assert forall j :: i < j < |line| - 1 ==> line[j] == digits[j - i - 1];
    assert LastIndexOf(line, ' ', |line| - 1) == Some(i);
    assert line[i + 1..|line| - 1] == digits;
    assert line[..i] == key;
  }

  /** No '=' is left in an entry line, and the count reads back from after its last space. */
  lemma EntryLineRoundTrip(e: Entry)
    ensures forall i :: 0 <= i < |EntryLine(e)| ==> EntryLine(e)[i] != '='
    ensures ReadEntryLine(EntryLine(e)) == Some((ReplaceChar(e.key, '=', ' '), e.count))
  {
    var r := ReplaceChar(e.key + "=" + IntToString(e.count), '=', ' ');
    assert EntryLine(e) == r + "\n";
    assert forall i :: 0 <= i < |r| ==> r[i] != '=';
    EntryLineShape(e);
    NumeralNoBreak(e.count);
    ReadEntryParts(ReplaceChar(e.key, '=', ' '), IntToString(e.count));
    IntToStringRoundTrip(e.count);
  }

  /** Writing one more entry line extends the text by exactly that line. */
  lemma EntryLinesStep(es: seq<Entry>, i: nat)
    requires i < |es|
    ensures EntryLines(es[..i + 1]) == EntryLines(es[..i]) + EntryLine(es[i])
  {
    assert es[..i + 1][..i] == es[..i];
  }

  // ---------------------------------------------------------------- the printer

  class OutputPrinter {
    /** The `StringBuilder` the report is assembled in. */
    var output: string

    constructor ()
      ensures output == ""
    {
      output := "";
    }

    /**
     * `printAnalysisToScreen`: the header, a line break, and a line per entry
     * of the record's word map in sorted order. The text returned is what is
     * handed to the file writer.
     */
    method PrintAnalysisToScreen(data: AnalyzedData) returns (fileText: string)
      modifies this
      ensures fileText == output
      ensures exists es :: (SortedListOf(data.types.contents, es)
        && output == Report(data.numberOfParagraphs, data.numberOfSentences, data.numberOfTokens,
                            data.numberOfTypes, es))
    {
      output := "";
      AppendHeader(data);
      ghost var header := Header(data.numberOfParagraphs, data.numberOfSentences, data.numberOfTokens,
                                 data.numberOfTypes);
      assert output == header;
      var sortedEntries := SortEntries(data.GetWords().contents);
      output := output + "\n";
      AppendEntries(sortedEntries);
      assert output == Report(data.numberOfParagraphs, data.numberOfSentences, data.numberOfTokens,
                              data.numberOfTypes, sortedEntries);
      fileText := output;
    }

    /** The four `append` calls of the counts and the one of the separator. */
    method AppendHeader(data: AnalyzedData)
      modifies this
      ensures output == old(output) + Header(data.numberOfParagraphs, data.numberOfSentences,
                                             data.numberOfTokens, data.numberOfTypes)
    {
      ghost var start := output;
      var l1 := CountLine("paragraphs", data.GetNumberOfParagraphs());
      var l2 := CountLine("sentences", data.GetNumberOfSentences());
      var l3 := CountLine("tokens", data.GetNumberOfTokens());
      var l4 := CountLine("types", data.GetNumberOfTypes());
      output := output + l1;
      output := output + l2;
      output := output + l3;
      output := output + l4;
      output := output + "\n" + Separator;
      AppendAssoc(start, l1, l2);
      AppendAssoc(start, l1 + l2, l3);
      AppendAssoc(start, l1 + l2 + l3, l4);
      AppendAssoc(start, l1 + l2 + l3 + l4, "\n");
      AppendAssoc(start, l1 + l2 + l3 + l4 + "\n", Separator);
    }

    /** The loop over the sorted entries: one line each, in order. */
    method AppendEntries(es: seq<Entry>)
      modifies this
      ensures output == old(output) + EntryLines(es)
    {
      ghost var start := output;
      for i := 0 to |es|
        invariant output == start + EntryLines(es[..i])
      {
        EntryLinesStep(es, i);
        AppendAssoc(start, EntryLines(es[..i]), EntryLine(es[i]));
        output := output + EntryLine(es[i]);
      }
      assert es[..|es|] == es;
    }
  }
}

/**
 * The analysis result record and the word-to-frequency map it shares with the
 * analyser. The map is an object (a Java `HashMap` is one), so handing it to
 * the record shares it rather than copying it.
 */
module Structures {
  import opened Wrappers

  /** A `HashMap<String, Integer>`: a mutable map referred to by reference. */
  class WordMap {
    var contents: map<string, int>

    constructor ()
      ensures contents == map[]
    {
      contents := map[];
    }

    /** `get`: the stored value, or None where Java returns null. */
    function Get(key: string): Option<int>
      reads this
    {
      if key in contents then Some(contents[key]) else None
    }

    /** `containsKey` (and `keySet().contains`). */
    predicate ContainsKey(key: string)
      reads this
    {
      key in contents
    }

    /** `put`: binds `key` to `value`, every other binding stays. */
    method Put(key: string, value: int)
      modifies this
      ensures contents == old(contents)[key := value]
      ensures Get(key) == Some(value)
    {
      contents := contents[key := value];
    }
  }

  /** Statistics of one analysis: four counts and the word-to-frequency map. */
  class AnalyzedData {
    var numberOfParagraphs: int
    var numberOfSentences: int
    var numberOfTokens: int
    var numberOfTypes: int
    var types: WordMap

    /** A fresh record: every count 0 and a map of its own with no entries. */
    constructor ()
      ensures numberOfParagraphs == 0 && numberOfSentences == 0
      ensures numberOfTokens == 0 && numberOfTypes == 0
      ensures fresh(types) && types.contents == map[]
    {
      numberOfParagraphs, numberOfSentences := 0, 0;
      numberOfTokens, numberOfTypes := 0, 0;
      types := new WordMap();
    }

    /** Stores the map itself, not a copy: later `put`s on `value` show through `GetWords`. */
    method SetWords(value: WordMap)
      modifies this
      ensures types == value && GetWords() == value
      ensures numberOfParagraphs == old(numberOfParagraphs) && numberOfSentences == old(numberOfSentences)
      ensures numberOfTokens == old(numberOfTokens) && numberOfTypes == old(numberOfTypes)
    {
      types := value;
    }

    method SetNumberOfParagraphs(value: int)
      modifies this
      ensures numberOfParagraphs == value && GetNumberOfParagraphs() == value
      ensures numberOfSentences == old(numberOfSentences) && numberOfTokens == old(numberOfTokens)
      ensures numberOfTypes == old(numberOfTypes) && types == old(types)
    {
      numberOfParagraphs := value;
    }

    method SetNumberOfSentences(value: int)
      modifies this
      ensures numberOfSentences == value && GetNumberOfSentences() == value
      ensures numberOfParagraphs == old(numberOfParagraphs) && numberOfTokens == old(numberOfTokens)
      ensures numberOfTypes == old(numberOfTypes) && types == old(types)
    {
      numberOfSentences := value;
    }

    method SetNumberOfTokens(value: int)
      modifies this
      ensures numberOfTokens == value && GetNumberOfTokens() == value
      ensures numberOfParagraphs == old(numberOfParagraphs) && numberOfSentences == old(numberOfSentences)
      ensures numberOfTypes == old(numberOfTypes) && types == old(types)
    {
      numberOfTokens := value;
    }

    method SetNumberOfTypes(value: int)
      modifies this
      ensures numberOfTypes == value && GetNumberOfTypes() == value
      ensures numberOfParagraphs == old(numberOfParagraphs) && numberOfSentences == old(numberOfSentences)
      ensures numberOfTokens == old(numberOfTokens) && types == old(types)
    {
      numberOfTypes := value;
    }

    function GetNumberOfSentences(): int reads this { numberOfSentences }
    function GetNumberOfParagraphs(): int reads this { numberOfParagraphs }
    function GetNumberOfTokens(): int reads this { numberOfTokens }
    function GetNumberOfTypes(): int reads this { numberOfTypes }
    function GetWords(): WordMap reads this { types }
  }

  // ---------------------------------------------------------------- frequency bookkeeping

  /** How often `k` has been counted in `m` (0 when absent). */
  function Freq(m: map<string, int>, k: string): int {
    if k in m then m[k] else 0
  }

  /** One token counted: `num = (num == null) ? 1 : ++num; put(word, num)`. */
  function Bump(m: map<string, int>, w: string): map<string, int> {
    m[w := if w in m then m[w] + 1 else 1]
  }

  /** The frequency map after counting `ws` one token at a time, left to right. */
  function Tally(m: map<string, int>, ws: seq<string>): map<string, int> {
    if ws == [] then m else Bump(Tally(m, ws[..|ws| - 1]), ws[|ws| - 1])
  }

  /**
   * Counting a list raises each token's frequency by its number of occurrences,
   * inserts the absent ones and leaves every other key alone.
   */
  lemma {:induction false} TallyCounts(m: map<string, int>, ws: seq<string>)
    ensures Tally(m, ws).Keys == m.Keys + set w | w in ws
    ensures forall k :: Freq(Tally(m, ws), k) == Freq(m, k) + multiset(ws)[k]
  {
    if ws != [] {
      var init, w := ws[..|ws| - 1], ws[|ws| - 1];
      assert ws == init + [w];
      TallyCounts(m, init);
      assert multiset(ws) == multiset(init) + multiset{w};
      assert (set x | x in ws) == (set x | x in init) + {w};
    }
  }

  /** Every stored count stays at least 1. */
  lemma TallyPositive(m: map<string, int>, ws: seq<string>)
    requires forall k :: k in m ==> m[k] >= 1
    ensures forall k :: k in Tally(m, ws) ==> Tally(m, ws)[k] >= 1
  {
    TallyCounts(m, ws);
    forall k | k in Tally(m, ws) ensures Tally(m, ws)[k] >= 1 {
      assert Freq(Tally(m, ws), k) == Freq(m, k) + multiset(ws)[k];
      if k !in m {
        assert k in set w | w in ws;
        var w :| w in ws && w == k;
        assert multiset(ws)[k] >= 1;
      }
    }
  }

  /** Counting the tokens of `a` and then of `b` is counting `a + b`. */
  lemma {:induction false} TallyAppend(m: map<string, int>, a: seq<string>, b: seq<string>)
    ensures Tally(m, a + b) == Tally(Tally(m, a), b)
    decreases |b|
  {
    if b == [] {
      assert a + b == a;
    } else {
      assert (a + b)[..|a + b| - 1] == a + b[..|b| - 1];
      TallyAppend(m, a, b[..|b| - 1]);
    }
  }

  /** The sum of the values of a map (the order of summation is immaterial, see SumValuesPick). */
  ghost function SumValues(m: map<string, int>): int
    decreases |m|
  {
    if m == map[] then 0
    else
      var k :| k in m;
      assert |m - {k}| < |m| by { assert (m - {k}).Keys == m.Keys - {k}; }
      m[k] + SumValues(m - {k})
  }

  /** Any key may be summed first. */
  lemma SumValuesPick(m: map<string, int>, k: string)
    requires k in m
    ensures SumValues(m) == m[k] + SumValues(m - {k})
    decreases |m|
  {
    var j :| j in m && SumValues(m) == m[j] + SumValues(m - {j});
    if j != k {
      assert (m - {j}).Keys == m.Keys - {j};
      assert (m - {k}).Keys == m.Keys - {k};
      SumValuesPick(m - {j}, k);
      SumValuesPick(m - {k}, j);
      assert m - {j} - {k} == m - {k} - {j};
    }
  }

  lemma SumValuesUpdate(m: map<string, int>, k: string, v: int)
    ensures SumValues(m[k := v]) == SumValues(m - {k}) + v
  {
    SumValuesPick(m[k := v], k);
    assert m[k := v] - {k} == m - {k};
  }

  /** A map whose every value is 1 sums to its number of keys. */
  lemma SumOfOnes(m: map<string, int>)
    requires forall k :: k in m ==> m[k] == 1
    ensures SumValues(m) == |m|
    decreases |m|
  {
    if m != map[] {
      var k :| k in m;
      SumValuesPick(m, k);
      assert (m - {k}).Keys == m.Keys - {k};
      SumOfOnes(m - {k});
    }
  }

  /** Counting `n` tokens raises the sum of all frequencies by exactly `n`. */
  lemma {:induction false} TallySum(m: map<string, int>, ws: seq<string>)
    ensures SumValues(Tally(m, ws)) == SumValues(m) + |ws|
  {
    if ws != [] {
      var t, w := Tally(m, ws[..|ws| - 1]), ws[|ws| - 1];
      TallySum(m, ws[..|ws| - 1]);
      SumValuesUpdate(t, w, if w in t then t[w] + 1 else 1);
      if w in t {
        SumValuesPick(t, w);
      } else {
        assert t - {w} == t;
      }
    }
  }

  /** `for (String s : m.keySet()) total += m.get(s);` */
  method SumOfValues(m: map<string, int>) returns (total: int)
    ensures total == SumValues(m)
  {
    total := 0;
    var rest := m;
    while rest != map[]
      invariant forall k :: k in rest ==> k in m && rest[k] == m[k]
      invariant total + SumValues(rest) == SumValues(m)
      decreases |rest|
    {
      var s :| s in rest;
      SumValuesPick(rest, s);
      total := total + m[s];
      assert (rest - {s}).Keys == rest.Keys - {s};
      rest := rest - {s};
    }
  }
}

/**
 * The contraction table of TextAnalyzer.tokenizeSentence and the rewrite each
 * entry performs: `sentence.replaceAll(key + "\\b", value)`, a global,
 * left-to-right, non-overlapping replacement. Each of the twelve patterns is
 * modelled as the concrete matcher it denotes (ASCII only), not through a
 * general regular-expression engine.
 */
module Contractions {
  import opened JavaText

  /** The twelve entries of the table, one constructor per key. */
  datatype Rule =
    | HeIs          // (^|[^a-zA-Z])([Hh]e)'s   ->  $2 is
    | SeIs          // (^|[^a-zA-Z])([Ss]e)'s   ->  $2 is
    | ItIs          // (^|[^a-zA-Z])([Ii]t)'s   ->  $2 is
    | ApostropheS   // 's   ->  " 's"
    | ApostropheD   // 'd   ->  " would"
    | ApostropheRe  // 're  ->  " are"
    | ApostropheLl  // 'll  ->  " will"
    | NegationNt    // n't  ->  " not"
    | ApostropheNt  // 'nt  ->  " not"
    | ApostropheVe  // 've  ->  " have"
    | ApostropheM   // 'm   ->  " am"
    | DigitsLetters // ([0-9]+)([a-zA-Z]+)  ->  $1 $2

  /** The entries in the order they are put into the table. */
  function Table(): seq<Rule> {
    [HeIs, SeIs, ItIs, ApostropheS, ApostropheD, ApostropheRe, ApostropheLl,
     NegationNt, ApostropheNt, ApostropheVe, ApostropheM, DigitsLetters]
  }

  /**
   * An order in which iterating the table may visit its keys: every entry
   * exactly once. (A HashMap fixes one such order; the model takes it as given.)
   */
  predicate IsTableOrder(order: seq<Rule>) {
    multiset(order) == multiset(Table())
  }

  predicate IsPronoun(r: Rule) {
    r.HeIs? || r.SeIs? || r.ItIs?
  }

  predicate IsLiteral(r: Rule) {
    !IsPronoun(r) && !r.DigitsLetters?
  }

  /** The text a literal key matches. */
  function Literal(r: Rule): (lit: string)
    requires IsLiteral(r)
  {
    match r
    case ApostropheS => "'s"
    case ApostropheD => "'d"
    case ApostropheRe => "'re"
    case ApostropheLl => "'ll"
    case NegationNt => "n't"
    case ApostropheNt => "'nt"
    case ApostropheVe => "'ve"
    case ApostropheM => "'m"
  }

  /** The replacement text of a literal key. */
  function LiteralValue(r: Rule): string
    requires IsLiteral(r)
  {
    match r
    case ApostropheS => " 's"
    case ApostropheD => " would"
    case ApostropheRe => " are"
    case ApostropheLl => " will"
    case NegationNt => " not"
    case ApostropheNt => " not"
    case ApostropheVe => " have"
    case ApostropheM => " am"
  }

  /** `[Xx]y` of a pronoun key: the two first-letter cases and the second letter. */
  function PronounLetters(r: Rule): (char, char, char)
    requires IsPronoun(r)
  {
    match r
    case HeIs => ('H', 'h', 'e')
    case SeIs => ('S', 's', 'e')
    case ItIs => ('I', 'i', 't')
  }

  /** `\b` at `j` right after a word character: `j` is the end or holds a non-word character. */
  predicate EndsWord(s: string, j: nat) {
    j == |s| || (j < |s| && !IsWordChar(s[j]))
  }

  /** `([Xx]y)'s\b` matches at `j`. */
  predicate PronounAt(s: string, j: nat, r: Rule)
    requires IsPronoun(r)
  {
    var (upper, lower, second) := PronounLetters(r);
    j + 4 <= |s| && (s[j] == upper || s[j] == lower) && s[j + 1] == second
    && s[j + 2] == '\'' && s[j + 3] == 's' && EndsWord(s, j + 4)
  }

  /**
   * Length of the match `find()` reports when it tries position `i`, 0 when the
   * pattern does not match there. `^` holds only at the start of the input, so
   * a pronoun key matches 4 characters at 0, or 5 (a non-letter then the
   * pronoun) anywhere. None of the patterns matches the empty string.
   */
  function MatchLen(r: Rule, s: string, i: nat): (n: nat)
    requires i <= |s|
    ensures i + n <= |s|
  {
    if IsPronoun(r) then
      if i == 0 && PronounAt(s, 0, r) then 4
      else if i < |s| && !IsLetter(s[i]) && PronounAt(s, i + 1, r) then 5
      else 0
    else if IsLiteral(r) then
      if LiteralAt(s, i, Literal(r)) && EndsWord(s, i + |Literal(r)|) then |Literal(r)| else 0
    else
      var d := RunLength(s, i, Digit);
      var l := RunLength(s, i + d, Letter);
      if d > 0 && l > 0 && EndsWord(s, i + d + l) then d + l else 0
  }

  /** What replaces the `n` matched characters at `i`: `$2 is`, the literal value, or `$1 $2`. */
  function Replacement(r: Rule, s: string, i: nat, n: nat): string
    requires n > 0 && i + n <= |s|
    requires n == MatchLen(r, s, i)
  {
    if IsPronoun(r) then s[i + n - 4..i + n - 2] + " is"
    else if IsLiteral(r) then LiteralValue(r)
    else
      var d := RunLength(s, i, Digit);
      s[i..i + d] + " " + s[i + d..i + n]
  }

  /** The output of `replaceAll` for the part of `s` from position `i` on. */
  function ReplaceFrom(r: Rule, s: string, i: nat): string
    requires i <= |s|
    decreases |s| - i
  {
    if i == |s| then []
    else
      var n := MatchLen(r, s, i);
      if n > 0 then Replacement(r, s, i, n) + ReplaceFrom(r, s, i + n)
      else [s[i]] + ReplaceFrom(r, s, i + 1)
  }

  /** `s.replaceAll(key + "\\b", value)` for the entry `r`. */
  function Apply(r: Rule, s: string): string {
    ReplaceFrom(r, s, 0)
  }

  /** The sentence after the rules of `order`, first to last, have each rewritten it. */
  function Expand(order: seq<Rule>, s: string): string {
    if order == [] then s else Apply(order[|order| - 1], Expand(order[..|order| - 1], s))
  }

  /** The loop `for (String key : contractions.keySet()) sentence = sentence.replaceAll(...)`. */
  method ExpandSentence(order: seq<Rule>, sentence: string) returns (expanded: string)
    ensures expanded == Expand(order, sentence)
  {
    expanded := sentence;
    for i := 0 to |order|
      invariant expanded == Expand(order[..i], sentence)
    {
      assert order[..i + 1][..i] == order[..i];
      expanded := Apply(order[i], expanded);
    }
    assert order[..|order|] == order;
  }

  // ---------------------------------------------------------------- the rewrite is a fold

  /** Expanding with `a` then with `b` is expanding with `a + b`. */
  lemma {:induction false} ExpandAppend(a: seq<Rule>, b: seq<Rule>, s: string)
    ensures Expand(a + b, s) == Expand(b, Expand(a, s))
    decreases |b|
  {
    if b == [] {
      assert a + b == a;
    } else {
      assert (a + b)[..|a + b| - 1] == a + b[..|b| - 1];
      ExpandAppend(a, b[..|b| - 1], s);
    }
  }

  // ---------------------------------------------------------------- a rule changes the text iff it matches

  /** The pattern of `r` occurs nowhere in `s`. */
  predicate NoMatch(r: Rule, s: string) {
    forall i :: 0 <= i < |s| ==> MatchLen(r, s, i) == 0
  }

  /** Characters other than the apostrophe: every replacement adds at least one. */
  function Weight(t: string): nat {
    if t == [] then 0 else (if t[0] == '\'' then 0 else 1) + Weight(t[1..])
  }

  lemma {:induction false} WeightAppend(a: string, b: string)
    ensures Weight(a + b) == Weight(a) + Weight(b)
  {
    if a == [] {
      assert a + b == b;
    } else {
      assert (a + b)[0] == a[0] && (a + b)[1..] == a[1..] + b;
      WeightAppend(a[1..], b);
    }
  }

  lemma {:induction false} WeightBound(t: string)
    ensures Weight(t) <= |t|
  {
    if t != [] { WeightBound(t[1..]); }
  }

  /** `$2 is` drops the apostrophe (and the preceding non-letter) of the match. */
  lemma PronounGains(r: Rule, s: string, i: nat, n: nat)
    requires IsPronoun(r) && n > 0 && i + n <= |s| && n == MatchLen(r, s, i)
    ensures Weight(Replacement(r, s, i, n)) > Weight(s[i..i + n])
  {
    var m := s[i..i + n];
    var p, q := s[i + n - 4], s[i + n - 3];
    assert n == 4 || n == 5;
    assert m == m[..n - 4] + [p, q] + "'s";
    WeightAppend(m[..n - 4] + [p, q], "'s");
    WeightAppend(m[..n - 4], [p, q]);
    WeightBound(m[..n - 4]);
    assert p != '\'' && q != '\'';
    assert Weight([p, q]) == 2 by { assert [p, q][1..] == [q]; assert [q][1..] == []; }
    assert Weight("'s") == 1;
    assert Weight(" is") == 3;
    assert Replacement(r, s, i, n) == [p, q] + " is";
    WeightAppend([p, q], " is");
  }

  lemma {:induction false} WeightOfPlainText(t: string)
    requires forall k :: 0 <= k < |t| ==> t[k] != '\''
    ensures Weight(t) == |t|
  {
    if t != [] { WeightOfPlainText(t[1..]); }
  }

  lemma {:induction false} WeightWithApostrophe(t: string, k: nat)
    requires k < |t| && t[k] == '\''
    ensures Weight(t) < |t|
  {
    WeightBound(t[1..]);
    if k > 0 { WeightWithApostrophe(t[1..], k - 1); }
  }

  /** Each literal value has more non-apostrophe characters than its key. */
  lemma LiteralGains(r: Rule)
    requires IsLiteral(r)
    ensures Weight(LiteralValue(r)) > Weight(Literal(r))
  {
    var lit, value := Literal(r), LiteralValue(r);
    if r == ApostropheS {
      assert value == " " + lit;
      WeightAppend(" ", lit);
    } else {
      assert |value| >= |lit|;
      assert forall k :: 0 <= k < |value| ==> IsLetter(value[k]) || value[k] == ' ';
      WeightOfPlainText(value);
      if lit[0] == '\'' { WeightWithApostrophe(lit, 0); } else { WeightWithApostrophe(lit, 1); }
    }
  }

  /** `$1 $2` adds a space between the digits and the letters. */
  lemma DigitsGains(s: string, i: nat, n: nat)
    requires n > 0 && i + n <= |s| && n == MatchLen(DigitsLetters, s, i)
    ensures Weight(Replacement(DigitsLetters, s, i, n)) > Weight(s[i..i + n])
  {
    var d := RunLength(s, i, Digit);
    var a, b := s[i..i + d], s[i + d..i + n];
    assert s[i..i + n] == a + b;
    assert Replacement(DigitsLetters, s, i, n) == a + [' '] + b;
    WeightAppend(a, b);
    WeightAppend(a + [' '], b);
    WeightAppend(a, [' ']);
  }

  lemma ReplacementGains(r: Rule, s: string, i: nat, n: nat)
    requires n > 0 && i + n <= |s| && n == MatchLen(r, s, i)
    ensures Weight(Replacement(r, s, i, n)) > Weight(s[i..i + n])
  {
    if IsPronoun(r) {
      PronounGains(r, s, i, n);
    } else if IsLiteral(r) {
      assert s[i..i + n] == Literal(r);
      LiteralGains(r);
    } else {
      DigitsGains(s, i, n);
    }
  }

  /** Rewriting never loses weight, and gains some as soon as the pattern occurs from `i` on. */
  lemma ReplaceFromGains(r: Rule, s: string, i: nat)
    requires i <= |s|
    ensures Weight(ReplaceFrom(r, s, i)) >= Weight(s[i..])
    ensures (exists j :: i <= j < |s| && MatchLen(r, s, j) > 0) ==> Weight(ReplaceFrom(r, s, i)) > Weight(s[i..])
  {
    ReplaceFromKeeps(r, s, i);
    if exists j :: i <= j < |s| && MatchLen(r, s, j) > 0 {
      var j :| i <= j < |s| && MatchLen(r, s, j) > 0;
      ReplaceFromGrows(r, s, i, j);
    }
  }

  lemma {:induction false} ReplaceFromKeeps(r: Rule, s: string, i: nat)
    requires i <= |s|
    ensures Weight(ReplaceFrom(r, s, i)) >= Weight(s[i..])
    decreases |s| - i
  {
    if i < |s| {
      var next := ReplaceStep(r, s, i);
      ReplaceFromKeeps(r, s, next);
    }
  }

  lemma {:induction false} ReplaceFromGrows(r: Rule, s: string, i: nat, j: nat)
    requires i <= j < |s| && MatchLen(r, s, j) > 0
    ensures Weight(ReplaceFrom(r, s, i)) > Weight(s[i..])
    decreases |s| - i
  {
    var next := ReplaceStep(r, s, i);
    if next <= j {
      ReplaceFromGrows(r, s, next, j);
    } else {
      assert j == i || next > i + 1;
      ReplaceFromKeeps(r, s, next);
    }
  }

  /**
   * One step of the scan at `i`: the gain of the rest from `next` on is at
   * most the gain from `i` on, and strictly less when the pattern matches at `i`.
   */
  lemma ReplaceStep(r: Rule, s: string, i: nat) returns (next: nat)
    requires i < |s|
    ensures i < next <= |s|
    ensures MatchLen(r, s, i) == 0 ==> next == i + 1
    ensures Weight(ReplaceFrom(r, s, i)) - Weight(s[i..])
         >= Weight(ReplaceFrom(r, s, next)) - Weight(s[next..]) + (if MatchLen(r, s, i) > 0 then 1 else 0)
  {
    if MatchLen(r, s, i) > 0 {
      next := MatchStep(r, s, i);
    } else {
      next := SkipStep(r, s, i);
    }
  }

  /** A match at `i` gains weight over the text it replaces. */
  lemma MatchStep(r: Rule, s: string, i: nat) returns (next: nat)
    requires i < |s| && MatchLen(r, s, i) > 0
    ensures next == i + MatchLen(r, s, i) && next <= |s|
    ensures Weight(ReplaceFrom(r, s, i)) - Weight(s[i..]) > Weight(ReplaceFrom(r, s, next)) - Weight(s[next..])
  {
    var n := MatchLen(r, s, i);
    next := i + n;
    var a, b, c, d := Replacement(r, s, i, n), ReplaceFrom(r, s, next), s[i..next], s[next..];
    assert ReplaceFrom(r, s, i) == a + b;
    assert s[i..] == c + d;
    ReplacementGains(r, s, i, n);
    WeightJoin(a, b, c, d);
  }

  /** A position where the pattern does not match is copied, weight and all. */
  lemma SkipStep(r: Rule, s: string, i: nat) returns (next: nat)
    requires i < |s| && MatchLen(r, s, i) == 0
    ensures next == i + 1
    ensures Weight(ReplaceFrom(r, s, i)) - Weight(s[i..]) == Weight(ReplaceFrom(r, s, next)) - Weight(s[next..])
  {
    next := i + 1;
    var b, d := ReplaceFrom(r, s, next), s[next..];
    assert ReplaceFrom(r, s, i) == [s[i]] + b;
    assert s[i..] == [s[i]] + d;
    WeightJoin([s[i]], b, [s[i]], d);
  }

  /** Weights add up over concatenation, so gains in both halves add up too. */
  lemma WeightJoin(a: string, b: string, c: string, d: string)
    ensures Weight(a + b) - Weight(c + d) == (Weight(a) - Weight(c)) + (Weight(b) - Weight(d))
  {
    WeightAppend(a, b);
    WeightAppend(c, d);
  }

  lemma {:induction false} ReplaceFromNoMatch(r: Rule, s: string, i: nat)
    requires i <= |s|
    requires forall j :: i <= j < |s| ==> MatchLen(r, s, j) == 0
    ensures ReplaceFrom(r, s, i) == s[i..]
    decreases |s| - i
  {
    if i < |s| {
      ReplaceFromNoMatch(r, s, i + 1);
      assert s[i..] == [s[i]] + s[i + 1..];
    }
  }

  /** A rule leaves a sentence unchanged exactly when its pattern occurs nowhere in it. */
  lemma ApplyUnchangedIff(r: Rule, s: string)
    ensures Apply(r, s) == s <==> NoMatch(r, s)
  {
    if NoMatch(r, s) {
      ReplaceFromNoMatch(r, s, 0);
    } else {
      ReplaceFromGains(r, s, 0);
      assert s[0..] == s;
    }
  }

  /** Rules that match nothing leave the sentence as it is, in any order. */
  lemma {:induction false} ExpandNoMatch(order: seq<Rule>, s: string)
    requires forall k :: 0 <= k < |order| ==> NoMatch(order[k], s)
    ensures Expand(order, s) == s
  {
    if order != [] {
      var init := order[..|order| - 1];
      ExpandNoMatch(init, s);
      ApplyUnchangedIff(order[|order| - 1], s);
    }
  }

  lemma LiteralMatchHasApostrophe(r: Rule, s: string, i: nat)
    requires IsLiteral(r)
    ensures LiteralAt(s, i, Literal(r)) ==> '\'' in s
  {
    var lit := Literal(r);
    if LiteralAt(s, i, lit) {
      var k := if lit[0] == '\'' then 0 else 1;
      assert s[i + k] == s[i..i + |lit|][k] == '\'';
    }
  }

  /** Every key but the digit rule needs an apostrophe, so text without one is left alone by them. */
  lemma NoApostropheNoMatch(r: Rule, s: string)
    requires r != DigitsLetters
    requires '\'' !in s
    ensures NoMatch(r, s)
  {
    forall i | 0 <= i < |s| ensures MatchLen(r, s, i) == 0 {
      if IsLiteral(r) {
        LiteralMatchHasApostrophe(r, s, i);
      }
    }
  }

  /** The digit rule needs a digit. */
  lemma NoDigitNoMatch(s: string)
    requires forall k :: 0 <= k < |s| ==> !IsDigit(s[k])
    ensures NoMatch(DigitsLetters, s)
  {
    forall i | 0 <= i < |s| ensures MatchLen(DigitsLetters, s, i) == 0 {
      assert RunLength(s, i, Digit) == 0;
    }
  }

  // ---------------------------------------------------------------- worked examples

  /** At the start of the input `^` stands in for the preceding character: "He's" becomes "He is". */
  lemma PronounAtStart()
    ensures Apply(HeIs, "He's") == "He is"
  {
    var s := "He's";
    assert MatchLen(HeIs, s, 0) == 4;
    assert Replacement(HeIs, s, 0, 4) == "He is";
    assert ReplaceFrom(HeIs, s, 4) == [];
  }

  /** Only group 2 is kept, so the non-letter before the pronoun disappears: "x he's" becomes "xhe is". */
  lemma PronounDropsPrecedingCharacter()
    ensures Apply(HeIs, "x he's") == "xhe is"
  {
    var s := "x he's";
    assert MatchLen(HeIs, s, 1) == 5;
    assert Replacement(HeIs, s, 1, 5) == "he is";
    assert ReplaceFrom(HeIs, s, 6) == [];
    assert ReplaceFrom(HeIs, s, 1) == "he is";
    assert MatchLen(HeIs, s, 0) == 0;
  }

  /** "'m" becomes " am" when a non-word character or the end follows, and not before a letter. */
  lemma ApostropheMNeedsBoundary()
    ensures Apply(ApostropheM, "I'm") == "I am"
    ensures Apply(ApostropheM, "'ma") == "'ma"
  {
    var s, t := "I'm", "'ma";
    assert MatchLen(ApostropheM, s, 1) == 2;
    assert ReplaceFrom(ApostropheM, s, 3) == [];
    assert ReplaceFrom(ApostropheM, s, 1) == " am";
    assert MatchLen(ApostropheM, s, 0) == 0;
    assert ReplaceFrom(ApostropheM, t, 3) == [];
    assert MatchLen(ApostropheM, t, 2) == 0;
    assert ReplaceFrom(ApostropheM, t, 2) == "a";
    assert MatchLen(ApostropheM, t, 1) == 0;
    assert ReplaceFrom(ApostropheM, t, 1) == "ma";
    assert MatchLen(ApostropheM, t, 0) == 0;
  }

  /** The possessive marker is split off: "dog's" becomes "dog 's". */
  lemma PossessiveSplit()
    ensures Apply(ApostropheS, "dog's") == "dog 's"
  {
    var s := "dog's";
    assert MatchLen(ApostropheS, s, 3) == 2;
    assert ReplaceFrom(ApostropheS, s, 5) == [];
    assert ReplaceFrom(ApostropheS, s, 3) == " 's";
    assert MatchLen(ApostropheS, s, 2) == 0;
    assert ReplaceFrom(ApostropheS, s, 2) == "g 's";
    assert MatchLen(ApostropheS, s, 1) == 0;
    assert ReplaceFrom(ApostropheS, s, 1) == "og 's";
    assert MatchLen(ApostropheS, s, 0) == 0;
  }

  lemma DigitsRun()
    ensures RunLength("1990s", 0, Digit) == 4 && RunLength("1990s", 4, Letter) == 1
  {
  }

  /** A number glued to letters is split: "1990s" becomes "1990 s". */
  lemma DigitsSplit()
    ensures Apply(DigitsLetters, "1990s") == "1990 s"
  {
    DigitsRun();
    assert MatchLen(DigitsLetters, "1990s", 0) == 5;
    assert Replacement(DigitsLetters, "1990s", 0, 5) == "1990 s";
  }

  /**
   * `[Ss]e` needs a non-letter (or the start) before the "s", so the pronoun
   * rule never matches "she's"; only the generic rule rewrites it, to "she 's".
   */
  lemma SheIsLeftToPossessive()
    ensures NoMatch(SeIs, "she's") && Apply(SeIs, "she's") == "she's"
    ensures Apply(ApostropheS, "she's") == "she 's"
  {
    var s := "she's";
    assert MatchLen(SeIs, s, 0) == 0;
    assert MatchLen(SeIs, s, 1) == 0;
    assert MatchLen(SeIs, s, 2) == 0;
    assert MatchLen(SeIs, s, 3) == 0;
    assert MatchLen(SeIs, s, 4) == 0;
    ApplyUnchangedIff(SeIs, s);
    SheIsPossessive();
  }

  lemma SheIsPossessive()
    ensures Apply(ApostropheS, "she's") == "she 's"
  {
    var s := "she's";
    assert MatchLen(ApostropheS, s, 3) == 2;
    assert ReplaceFrom(ApostropheS, s, 5) == [];
    assert ReplaceFrom(ApostropheS, s, 3) == " 's";
    assert MatchLen(ApostropheS, s, 2) == 0;
    assert ReplaceFrom(ApostropheS, s, 2) == "e 's";
    assert MatchLen(ApostropheS, s, 1) == 0;
    assert ReplaceFrom(ApostropheS, s, 1) == "he 's";
    assert MatchLen(ApostropheS, s, 0) == 0;
  }

  lemma PossessiveOnHeIs()
    ensures Apply(ApostropheS, "He is") == "He is"
  {
    NoApostropheNoMatch(ApostropheS, "He is");
    ApplyUnchangedIff(ApostropheS, "He is");
  }

  lemma PronounAfterPossessive()
    ensures Apply(ApostropheS, "He's") == "He 's" && Apply(HeIs, "He 's") == "He 's"
  {
    var s, t := "He's", "He 's";
    assert MatchLen(ApostropheS, s, 2) == 2;
    assert ReplaceFrom(ApostropheS, s, 4) == [];
    assert ReplaceFrom(ApostropheS, s, 2) == " 's";
    assert MatchLen(ApostropheS, s, 1) == 0;
    assert ReplaceFrom(ApostropheS, s, 1) == "e 's";
    assert MatchLen(ApostropheS, s, 0) == 0;
    assert ReplaceFrom(HeIs, t, 5) == [];
    assert MatchLen(HeIs, t, 4) == 0;
    assert ReplaceFrom(HeIs, t, 4) == "s";
    assert MatchLen(HeIs, t, 3) == 0;
    assert ReplaceFrom(HeIs, t, 3) == "'s";
    assert MatchLen(HeIs, t, 2) == 0;
    assert ReplaceFrom(HeIs, t, 2) == " 's";
    assert MatchLen(HeIs, t, 1) == 0;
    assert ReplaceFrom(HeIs, t, 1) == "e 's";
    assert MatchLen(HeIs, t, 0) == 0;
  }

  /** The ten entries other than the "he" pronoun rule and the generic "'s" rule, in table order. */
  function OtherRules(): seq<Rule> {
    [SeIs, ItIs, ApostropheD, ApostropheRe, ApostropheLl,
     NegationNt, ApostropheNt, ApostropheVe, ApostropheM, DigitsLetters]
  }

  /** "He is" holds no apostrophe and no digit, so no rule rewrites it. */
  lemma HeIsMissesAll(order: seq<Rule>)
    ensures forall k :: 0 <= k < |order| ==> NoMatch(order[k], "He is")
  {
    NoDigitNoMatch("He is");
    forall k | 0 <= k < |order| ensures NoMatch(order[k], "He is") {
      if order[k] != DigitsLetters {
        NoApostropheNoMatch(order[k], "He is");
      }
    }
  }

  /** In "He 's" the apostrophe is followed by "s" and the end, which only the "'s" and "he" rules could use. */
  lemma SplitPossessiveMissesLiteral(r: Rule)
    requires IsLiteral(r) && r != ApostropheS
    ensures NoMatch(r, "He 's")
  {
    var s := "He 's";
    var lit := Literal(r);
    assert |lit| >= 2 && (lit[0] == '\'' || lit[0] == 'n') && lit[1] != 's';
    forall i | 0 <= i < |s| ensures MatchLen(r, s, i) == 0 {
      if i + |lit| <= |s| {
        assert s[i..i + |lit|][0] == s[i] && s[i..i + |lit|][1] == s[i + 1];
      }
    }
  }

  lemma SplitPossessiveMissesPronoun(r: Rule)
    requires r == SeIs || r == ItIs
    ensures NoMatch(r, "He 's")
  {
    var s := "He 's";
    assert !PronounAt(s, 0, r) && !PronounAt(s, 1, r) && !PronounAt(s, 2, r);
    assert !PronounAt(s, 3, r) && !PronounAt(s, 4, r) && !PronounAt(s, 5, r);
  }

  lemma SplitPossessiveMissesOthers()
    ensures forall k :: 0 <= k < |OtherRules()| ==> NoMatch(OtherRules()[k], "He 's")
  {
    NoDigitNoMatch("He 's");
    forall k | 0 <= k < |OtherRules()| ensures NoMatch(OtherRules()[k], "He 's") {
      var r := OtherRules()[k];
      if r == SeIs || r == ItIs {
        SplitPossessiveMissesPronoun(r);
      } else if r != DigitsLetters {
        SplitPossessiveMissesLiteral(r);
      }
    }
  }

  /** The table in the order of the `put` calls expands "He's" to "He is". */
  lemma PronounFirstOrder()
    ensures IsTableOrder(Table()) && Expand(Table(), "He's") == "He is"
  {
    var rest := Table()[1..];
    assert Table() == [HeIs] + rest;
    ExpandAppend([HeIs], rest, "He's");
    PronounAtStart();
    assert Expand([HeIs], "He's") == Apply(HeIs, Expand([], "He's"));
    HeIsMissesAll(rest);
    ExpandNoMatch(rest, "He is");
  }

  /** A table order that visits the generic "'s" rule first expands "He's" to "He 's". */
  lemma PossessiveFirstOrder()
    ensures Expand([ApostropheS, HeIs] + OtherRules(), "He's") == "He 's"
  {
    ExpandAppend([ApostropheS, HeIs], OtherRules(), "He's");
    PronounAfterPossessive();
    assert [ApostropheS, HeIs][..1] == [ApostropheS];
    assert Expand([ApostropheS], "He's") == Apply(ApostropheS, Expand([], "He's"));
    SplitPossessiveMissesOthers();
    ExpandNoMatch(OtherRules(), "He 's");
  }

  lemma PossessiveFirstIsTableOrder()
    ensures IsTableOrder([ApostropheS, HeIs] + OtherRules())
  {
    var rest := OtherRules()[2..];
    assert Table() == [HeIs] + [SeIs, ItIs] + [ApostropheS] + rest;
    assert [ApostropheS, HeIs] + OtherRules() == [ApostropheS] + [HeIs] + [SeIs, ItIs] + rest;
    MovedToFront([HeIs], [SeIs, ItIs], [ApostropheS], rest);
  }

  /** Moving a block to the front permutes a sequence. */
  lemma MovedToFront<X>(a: seq<X>, b: seq<X>, c: seq<X>, d: seq<X>)
    ensures multiset(c + a + b + d) == multiset(a + b + c + d)
  {
  }

  /**
   * The order in which the table is iterated matters: in the order of the
   * `put` calls "He's" becomes "He is"; in a permutation that visits the
   * generic "'s" rule first it becomes "He 's", and the pronoun rule then
   * finds nothing.
   */
  lemma OrderSensitivity()
    ensures IsTableOrder(Table()) && Expand(Table(), "He's") == "He is"
    ensures IsTableOrder([ApostropheS, HeIs] + OtherRules())
    ensures Expand([ApostropheS, HeIs] + OtherRules(), "He's") == "He 's"
  {
    PronounFirstOrder();
    PossessiveFirstIsTableOrder();
    PossessiveFirstOrder();
  }
}

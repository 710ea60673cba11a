/**
 * TextAnalyzer.splitter: the tokens `Matcher.find()` reports, one after the
 * other, for the pattern `(\w+)|(\.{3})|(\'s)|[^\s]`, with `\w` and `\s`
 * the ASCII classes of JavaText.
 */
module Tokenizer {
  import opened JavaText
  import opened Wrappers

  /**
   * Length of the match when the pattern is tried at `i`, the alternatives in
   * order: a greedy word run, three dots, "'s", any other non-space character.
   * Only a whitespace character gives no match.
   */
  function TokenLenAt(s: string, i: nat): (n: nat)
    requires i < |s|
    ensures i + n <= |s|
    ensures n == 0 <==> IsSpace(s[i])
  {
    if IsWordChar(s[i]) then RunLength(s, i, Word)
    else if LiteralAt(s, i, "...") then 3
    else if LiteralAt(s, i, "'s") then 2
    else if !IsSpace(s[i]) then 1
    else 0
  }

  /** The region `[start, end)` of one match. */
  datatype Span = Span(start: nat, end: nat)

  /** `find()` when the matcher stands at `from`: the first match starting at or after it, if any. */
  function Find(s: string, from: nat): (m: Option<Span>)
    requires from <= |s|
    ensures m.Some? ==> from <= m.value.start < m.value.end <= |s|
    ensures m.Some? ==> m.value.end == m.value.start + TokenLenAt(s, m.value.start)
    ensures m.Some? ==> forall k :: from <= k < m.value.start ==> IsSpace(s[k])
    ensures m.None? <==> forall k :: from <= k < |s| ==> IsSpace(s[k])
    decreases |s| - from
  {
    if from == |s| then None
    else
      var n := TokenLenAt(s, from);
      if n > 0 then Some(Span(from, from + n)) else Find(s, from + 1)
  }

  /** The groups reported by the successive `find()` calls from `from` on. */
  function TokensFrom(s: string, from: nat): seq<string>
    requires from <= |s|
    decreases |s| - from
  {
    match Find(s, from)
    case None => []
    case Some(sp) => [s[sp.start..sp.end]] + TokensFrom(s, sp.end)
  }

  /** The token list of a sentence. */
  function Tokens(s: string): seq<string> {
    TokensFrom(s, 0)
  }

  /** `while (matcher.find()) { list.add(matcher.group()); }` */
  method Splitter(sentence: string) returns (list: seq<string>)
    ensures list == Tokens(sentence)
  {
    list := [];
    var pos := 0;
    var m := Find(sentence, pos);
    while m.Some?
      invariant pos <= |sentence| && m == Find(sentence, pos)
      invariant list + TokensFrom(sentence, pos) == Tokens(sentence)
      decreases |sentence| - pos
    {
      var group := sentence[m.value.start..m.value.end];
      list := list + [group];
      pos := m.value.end;
      m := Find(sentence, pos);
    }
  }

  // ---------------------------------------------------------------- where the tokens come from

  /** The regions of the successive matches from `from` on. */
  function SpansFrom(s: string, from: nat): seq<Span>
    requires from <= |s|
    decreases |s| - from
  {
    match Find(s, from)
    case None => []
    case Some(sp) => [sp] + SpansFrom(s, sp.end)
  }

  /** Each token is the text of its span, and each span is the match at its start. */
  predicate SpansMatch(s: string, from: nat, sps: seq<Span>, toks: seq<string>) {
    |sps| == |toks|
    && forall k :: 0 <= k < |sps| ==>
         from <= sps[k].start < sps[k].end <= |s|
         && sps[k].end == sps[k].start + TokenLenAt(s, sps[k].start)
         && toks[k] == s[sps[k].start..sps[k].end]
  }

  lemma {:induction false} SpansFromMatch(s: string, from: nat)
    requires from <= |s|
    ensures SpansMatch(s, from, SpansFrom(s, from), TokensFrom(s, from))
    decreases |s| - from
  {
    match Find(s, from)
    case None =>
    case Some(sp) =>
      SpansFromMatch(s, sp.end);
      var sps, toks := SpansFrom(s, from), TokensFrom(s, from);
      assert sps == [sp] + SpansFrom(s, sp.end);
      assert toks == [s[sp.start..sp.end]] + TokensFrom(s, sp.end);
  }

  /**
   * What stands just before each span: the position the scan started from, a
   * whitespace character it skipped, or the end of the previous span.
   */
  predicate PrecededProperly(s: string, from: nat, sps: seq<Span>) {
    forall k :: 0 <= k < |sps| ==>
      from <= sps[k].start < sps[k].end <= |s|
      && (k > 0 ==> sps[k - 1].end <= sps[k].start)
      && (sps[k].start == from || IsSpace(s[sps[k].start - 1])
          || (k > 0 && sps[k - 1].end == sps[k].start))
  }

  lemma {:induction false} SpansFromLeft(s: string, from: nat)
    requires from <= |s|
    ensures PrecededProperly(s, from, SpansFrom(s, from))
    decreases |s| - from
  {
    match Find(s, from)
    case None =>
    case Some(sp) =>
      SpansFromLeft(s, sp.end);
      PrecededCons(s, from, sp, SpansFrom(s, sp.end));
      assert SpansFrom(s, from) == [sp] + SpansFrom(s, sp.end);
  }

  /** A match found after skipping whitespace, put in front of spans that are preceded properly. */
  lemma PrecededCons(s: string, from: nat, sp: Span, rest: seq<Span>)
    requires from <= sp.start < sp.end <= |s|
    requires forall k :: from <= k < sp.start ==> IsSpace(s[k])
    requires PrecededProperly(s, sp.end, rest)
    ensures PrecededProperly(s, from, [sp] + rest)
  {
    var sps := [sp] + rest;
    forall k | 0 <= k < |sps|
      ensures from <= sps[k].start < sps[k].end <= |s|
      ensures k > 0 ==> sps[k - 1].end <= sps[k].start
      ensures sps[k].start == from || IsSpace(s[sps[k].start - 1])
              || (k > 0 && sps[k - 1].end == sps[k].start)
    {
      PrecededAt(s, from, sp, rest, sps, k);
    }
  }

  lemma PrecededAt(s: string, from: nat, sp: Span, rest: seq<Span>, sps: seq<Span>, k: nat)
    requires from <= sp.start < sp.end <= |s|
    requires forall j :: from <= j < sp.start ==> IsSpace(s[j])
    requires PrecededProperly(s, sp.end, rest)
    requires sps == [sp] + rest && k < |sps|
    ensures from <= sps[k].start < sps[k].end <= |s|
    ensures k > 0 ==> sps[k - 1].end <= sps[k].start
    ensures sps[k].start == from || IsSpace(s[sps[k].start - 1])
            || (k > 0 && sps[k - 1].end == sps[k].start)
  {
    if k == 0 {
      assert sps[0] == sp;
    } else {
      var t := rest[k - 1];
      assert sps[k] == t;
      assert sp.end <= t.start < t.end <= |s|;
      assert t.start == sp.end || IsSpace(s[t.start - 1]) || (k - 1 > 0 && rest[k - 2].end == t.start);
      if k == 1 {
        assert sps[0] == sp;
      } else {
        assert sps[k - 1] == rest[k - 2];
        assert rest[k - 2].end <= t.start;
      }
    }
  }

  // ---------------------------------------------------------------- coverage

  /** `s` with every `\s` character taken out. */
  function RemoveSpaces(s: string): string {
    if s == [] then [] else (if IsSpace(s[0]) then [] else [s[0]]) + RemoveSpaces(s[1..])
  }

  lemma {:induction false} RemoveSpacesAppend(a: string, b: string)
    ensures RemoveSpaces(a + b) == RemoveSpaces(a) + RemoveSpaces(b)
  {
    if a == [] {
      assert a + b == b;
    } else {
      assert (a + b)[0] == a[0] && (a + b)[1..] == a[1..] + b;
      RemoveSpacesAppend(a[1..], b);
    }
  }

  lemma {:induction false} RemoveSpacesOfSpaces(s: string)
    requires forall k :: 0 <= k < |s| ==> IsSpace(s[k])
    ensures RemoveSpaces(s) == []
  {
    if s != [] { RemoveSpacesOfSpaces(s[1..]); }
  }

  lemma {:induction false} RemoveSpacesOfToken(s: string)
    requires forall k :: 0 <= k < |s| ==> !IsSpace(s[k])
    ensures RemoveSpaces(s) == s
  {
    if s != [] { RemoveSpacesOfToken(s[1..]); }
  }

  /** A match contains no whitespace: each alternative consumes non-space characters only. */
  lemma MatchHasNoSpace(s: string, i: nat)
    requires i < |s|
    ensures forall k :: i <= k < i + TokenLenAt(s, i) ==> !IsSpace(s[k])
  {
    var n := TokenLenAt(s, i);
    if !IsWordChar(s[i]) && n > 1 {
      assert LiteralAt(s, i, "...") || LiteralAt(s, i, "'s");
      assert forall k :: i <= k < i + n ==> s[k] == s[i..i + n][k - i];
    }
  }

  lemma {:induction false} TokensFromCover(s: string, from: nat)
    requires from <= |s|
    ensures Concat(TokensFrom(s, from)) == RemoveSpaces(s[from..])
    decreases |s| - from
  {
    match Find(s, from)
    case None =>
      RemoveSpacesOfSpaces(s[from..]);
    case Some(sp) =>
      TokensFromCover(s, sp.end);
      MatchHasNoSpace(s, sp.start);
      CoverCons(s, from, sp, TokensFrom(s, sp.end));
      assert TokensFrom(s, from) == [s[sp.start..sp.end]] + TokensFrom(s, sp.end);
  }

  /** Skipped whitespace, then a match, then text the remaining tokens cover. */
  lemma CoverCons(s: string, from: nat, sp: Span, toks: seq<string>)
    requires from <= sp.start <= sp.end <= |s|
    requires forall k :: from <= k < sp.start ==> IsSpace(s[k])
    requires forall k :: sp.start <= k < sp.end ==> !IsSpace(s[k])
    requires Concat(toks) == RemoveSpaces(s[sp.end..])
    ensures Concat([s[sp.start..sp.end]] + toks) == RemoveSpaces(s[from..])
  {
    RemoveSpacesSkip(s, from, sp);
    ConcatCons(s[sp.start..sp.end], toks);
  }

  lemma ConcatCons(t: string, ts: seq<string>)
    ensures Concat([t] + ts) == t + Concat(ts)
  {
    assert ([t] + ts)[0] == t && ([t] + ts)[1..] == ts;
  }

  /** Dropping the whitespace of a gap, a token and the rest leaves the token followed by the rest's non-space text. */
  lemma RemoveSpacesSkip(s: string, from: nat, sp: Span)
    requires from <= sp.start <= sp.end <= |s|
    requires forall k :: from <= k < sp.start ==> IsSpace(s[k])
    requires forall k :: sp.start <= k < sp.end ==> !IsSpace(s[k])
    ensures RemoveSpaces(s[from..]) == s[sp.start..sp.end] + RemoveSpaces(s[sp.end..])
  {
    SpacesSliceRemoved(s, from, sp.start);
    TokenSliceKept(s, sp.start, sp.end);
    RemoveSpacesSplit(s, from, sp.start);
    RemoveSpacesSplit(s, sp.start, sp.end);
  }

  lemma SpacesSliceRemoved(s: string, i: nat, j: nat)
    requires i <= j <= |s| && forall k :: i <= k < j ==> IsSpace(s[k])
    ensures RemoveSpaces(s[i..j]) == []
  {
    var gap := s[i..j];
    assert forall k :: 0 <= k < |gap| ==> gap[k] == s[i + k];
    RemoveSpacesOfSpaces(gap);
  }

  lemma TokenSliceKept(s: string, i: nat, j: nat)
    requires i <= j <= |s| && forall k :: i <= k < j ==> !IsSpace(s[k])
    ensures RemoveSpaces(s[i..j]) == s[i..j]
  {
    var tok := s[i..j];
    assert forall k :: 0 <= k < |tok| ==> tok[k] == s[i + k];
    RemoveSpacesOfToken(tok);
  }

  lemma RemoveSpacesSplit(s: string, i: nat, j: nat)
    requires i <= j <= |s|
    ensures RemoveSpaces(s[i..]) == RemoveSpaces(s[i..j]) + RemoveSpaces(s[j..])
  {
    assert s[i..] == s[i..j] + s[j..];
    RemoveSpacesAppend(s[i..j], s[j..]);
  }

  /** Concatenating the tokens gives back the sentence without its whitespace. */
  lemma TokensCover(s: string)
    ensures Concat(Tokens(s)) == RemoveSpaces(s)
  {
    TokensFromCover(s, 0);
    assert s[0..] == s;
  }

  /** A sentence yields no token exactly when it is empty or all whitespace. */
  lemma NoTokensIffBlank(s: string)
    ensures Tokens(s) == [] <==> forall k :: 0 <= k < |s| ==> IsSpace(s[k])
  {
  }

  // ---------------------------------------------------------------- what a token can be

  predicate IsWordToken(t: string) {
    |t| > 0 && forall k :: 0 <= k < |t| ==> IsWordChar(t[k])
  }

  /** A token is non-empty, free of whitespace, and one of the four alternatives. */
  predicate IsTokenShape(t: string) {
    |t| > 0 && (forall k :: 0 <= k < |t| ==> !IsSpace(t[k]))
    && (IsWordToken(t) || t == "..." || t == "'s" || (|t| == 1 && !IsWordChar(t[0])))
  }

  /** Every token has one of the four shapes the pattern's alternatives allow. */
  lemma TokenShapes(s: string)
    ensures forall t :: t in Tokens(s) ==> IsTokenShape(t)
  {
    SpansFromMatch(s, 0);
    SpanShapes(s, SpansFrom(s, 0), Tokens(s));
  }

  lemma SpanShapes(s: string, sps: seq<Span>, toks: seq<string>)
    requires SpansMatch(s, 0, sps, toks)
    ensures forall i :: 0 <= i < |toks| ==> IsTokenShape(toks[i])
  {
    forall i | 0 <= i < |toks|
      ensures IsTokenShape(toks[i])
    {
      MatchShape(s, sps[i].start);
    }
  }

  /** The text of the match at `i` has the shape of one of the four alternatives. */
  lemma MatchShape(s: string, i: nat)
    requires i < |s| && TokenLenAt(s, i) > 0
    ensures IsTokenShape(s[i..i + TokenLenAt(s, i)])
  {
    MatchHasNoSpace(s, i);
    var t := s[i..i + TokenLenAt(s, i)];
    assert forall k :: 0 <= k < |t| ==> t[k] == s[i + k];
  }

  /**
   * A word token always extends as far right as the word characters go, and as
   * far left too unless it directly follows a "'s" token (whose final `s` is a
   * word character the word alternative never saw).
   */
  predicate WordSpansMaximal(s: string, sps: seq<Span>, toks: seq<string>)
    requires SpansMatch(s, 0, sps, toks)
  {
    forall k :: 0 <= k < |toks| && IsWordToken(toks[k]) ==>
      (sps[k].end == |s| || !IsWordChar(s[sps[k].end]))
      && (sps[k].start == 0 || !IsWordChar(s[sps[k].start - 1])
          || (k > 0 && toks[k - 1] == "'s" && sps[k - 1].end == sps[k].start))
  }

  lemma WordTokensMaximal(s: string)
    ensures SpansMatch(s, 0, SpansFrom(s, 0), Tokens(s))
    ensures WordSpansMaximal(s, SpansFrom(s, 0), Tokens(s))
  {
    SpansFromMatch(s, 0);
    SpansFromLeft(s, 0);
    WordSpansMaximalOf(s, SpansFrom(s, 0), Tokens(s));
  }

  lemma WordSpansMaximalOf(s: string, sps: seq<Span>, toks: seq<string>)
    requires SpansMatch(s, 0, sps, toks) && PrecededProperly(s, 0, sps)
    ensures WordSpansMaximal(s, sps, toks)
  {
    forall k | 0 <= k < |toks| && IsWordToken(toks[k])
      ensures sps[k].end == |s| || !IsWordChar(s[sps[k].end])
      ensures sps[k].start == 0 || !IsWordChar(s[sps[k].start - 1])
              || (k > 0 && toks[k - 1] == "'s" && sps[k - 1].end == sps[k].start)
    {
      WordSpanMaximal(s, sps, toks, k);
    }
  }

  lemma WordSpanMaximal(s: string, sps: seq<Span>, toks: seq<string>, k: nat)
    requires SpansMatch(s, 0, sps, toks) && PrecededProperly(s, 0, sps)
    requires k < |toks| && IsWordToken(toks[k])
    ensures sps[k].end == |s| || !IsWordChar(s[sps[k].end])
    ensures sps[k].start == 0 || !IsWordChar(s[sps[k].start - 1])
            || (k > 0 && toks[k - 1] == "'s" && sps[k - 1].end == sps[k].start)
  {
    var a := sps[k].start;
    assert s[a] == toks[k][0];
    WordMatchEnd(s, a);
    if a > 0 && !IsSpace(s[a - 1]) && IsWordChar(s[a - 1]) {
      assert k > 0 && sps[k - 1].end == a;
      PreviousMatchEnd(s, sps[k - 1].start, a);
    }
  }

  /** A word match runs to the end of the word characters. */
  lemma WordMatchEnd(s: string, a: nat)
    requires a < |s| && IsWordChar(s[a])
    ensures a + TokenLenAt(s, a) == |s| || !IsWordChar(s[a + TokenLenAt(s, a)])
  {
  }

  /** The last character of a match is a word character only for a word run or "'s". */
  lemma PreviousMatchEnd(s: string, p: nat, a: nat)
    requires p < a < |s| && a == p + TokenLenAt(s, p) && IsWordChar(s[a])
    ensures !IsWordChar(s[a - 1]) || s[p..a] == "'s"
  {
    if !IsWordChar(s[p]) && LiteralAt(s, p, "...") {
      assert s[a - 1] == s[p..p + 3][2] == '.';
    }
  }

  // ---------------------------------------------------------------- worked examples

  lemma WaitFinds()
    ensures Find("Wait... really?", 0) == Some(Span(0, 4))
    ensures Find("Wait... really?", 4) == Some(Span(4, 7))
  {
    var s := "Wait... really?";
    assert s[4] == '.' && !IsWordChar(s[4]);
    assert RunLength(s, 4, Word) == 0;
    assert RunLength(s, 3, Word) == 1;
    assert RunLength(s, 2, Word) == 2;
    assert RunLength(s, 1, Word) == 3;
    assert RunLength(s, 0, Word) == 4;
    assert TokenLenAt(s, 0) == 4;
    assert s[4..7] == "...";
    assert TokenLenAt(s, 4) == 3;
  }

  lemma ReallyFinds()
    ensures Find("Wait... really?", 7) == Some(Span(8, 14))
    ensures Find("Wait... really?", 14) == Some(Span(14, 15))
    ensures Find("Wait... really?", 15) == None
  {
    var s := "Wait... really?";
    assert s[14] == '?' && !IsWordChar(s[14]);
    assert RunLength(s, 14, Word) == 0;
    assert RunLength(s, 13, Word) == 1;
    assert RunLength(s, 12, Word) == 2;
    assert RunLength(s, 11, Word) == 3;
    assert RunLength(s, 10, Word) == 4;
    assert RunLength(s, 9, Word) == 5;
    assert RunLength(s, 8, Word) == 6;
    assert TokenLenAt(s, 8) == 6;
    assert s[7] == ' ' && TokenLenAt(s, 7) == 0;
    assert Find(s, 8) == Some(Span(8, 14));
    assert !LiteralAt(s, 14, "...") && !LiteralAt(s, 14, "'s");
    assert TokenLenAt(s, 14) == 1;
  }

  /** A successful `find()` contributes its group, and the scan resumes at the end of the match. */
  lemma FoundToken(s: string, from: nat, sp: Span, token: string)
    requires from <= |s| && Find(s, from) == Some(sp)
    requires sp.end <= |s| && s[sp.start..sp.end] == token
    ensures TokensFrom(s, from) == [token] + TokensFrom(s, sp.end)
  {
  }

  lemma WaitSlices()
    ensures "Wait... really?"[0..4] == "Wait" && "Wait... really?"[4..7] == "..."
    ensures "Wait... really?"[8..14] == "really" && "Wait... really?"[14..15] == "?"
  {
  }

  lemma ReallyTokens()
    ensures TokensFrom("Wait... really?", 7) == ["really", "?"]
  {
    var s := "Wait... really?";
    ReallyFinds();
    WaitSlices();
    FoundToken(s, 14, Span(14, 15), "?");
    FoundToken(s, 7, Span(8, 14), "really");
    assert TokensFrom(s, 15) == [];
  }

  lemma WaitTokens()
    ensures TokensFrom("Wait... really?", 0)
         == ["Wait"] + (["..."] + TokensFrom("Wait... really?", 7))
  {
    var s := "Wait... really?";
    WaitFinds();
    WaitSlices();
    FoundToken(s, 4, Span(4, 7), "...");
    FoundToken(s, 0, Span(0, 4), "Wait");
  }

  /** "Wait... really?" gives Wait, ..., really, ?. */
  lemma WaitReally()
    ensures Tokens("Wait... really?") == ["Wait", "...", "really", "?"]
  {
    WaitTokens();
    ReallyTokens();
    JoinTokens(TokensFrom("Wait... really?", 0), TokensFrom("Wait... really?", 7), "Wait", "...", "really", "?");
  }

  lemma JoinTokens(all: seq<string>, rest: seq<string>, a: string, b: string, c: string, d: string)
    requires rest == [c, d] && all == [a] + ([b] + rest)
    ensures all == [a, b, c, d]
  {
  }

  lemma FourDotsFinds()
    ensures Find("....", 0) == Some(Span(0, 3)) && Find("....", 3) == Some(Span(3, 4))
  {
    assert LiteralAt("....", 0, "...");
  }

  /** Three dots come first: "...." gives ..., then a single dot. */
  lemma FourDots()
    ensures Tokens("....") == ["...", "."]
  {
    FourDotsFinds();
    assert TokensFrom("....", 4) == [];
    assert "...."[3..4] == "." && "...."[0..3] == "...";
    assert TokensFrom("....", 3) == ["."];
  }

  lemma PossessiveFinds()
    ensures Find("dog 's", 0) == Some(Span(0, 3)) && Find("dog 's", 3) == Some(Span(4, 6))
  {
    assert RunLength("dog 's", 0, Word) == 3;
    assert LiteralAt("dog 's", 4, "'s");
  }

  /** The possessive marker the "'s" rule splits off is one token. */
  lemma PossessiveToken()
    ensures Tokens("dog 's") == ["dog", "'s"]
  {
    PossessiveFinds();
    assert TokensFrom("dog 's", 6) == [];
    assert "dog 's"[0..3] == "dog" && "dog 's"[4..6] == "'s";
    assert TokensFrom("dog 's", 3) == ["'s"];
  }

  lemma PossessiveThenWordFinds()
    ensures Find("'sab", 0) == Some(Span(0, 2)) && Find("'sab", 2) == Some(Span(2, 4))
    ensures Find("'sab", 4) == None
  {
    var s := "'sab";
    assert !IsWordChar(s[0]) && !LiteralAt(s, 0, "...") && LiteralAt(s, 0, "'s");
    assert RunLength(s, 4, Word) == 0;
    assert RunLength(s, 3, Word) == 1;
    assert RunLength(s, 2, Word) == 2;
  }

  /**
   * The one way a word token is not maximal on the left: "'sab" gives 's and
   * then ab, although the character before ab is the word character s.
   */
  lemma PossessiveThenWord()
    ensures Tokens("'sab") == ["'s", "ab"] && IsWordChar("'sab"[1])
  {
    var s := "'sab";
    PossessiveThenWordFinds();
    assert s[0..2] == "'s" && s[2..4] == "ab";
    FoundToken(s, 2, Span(2, 4), "ab");
    FoundToken(s, 0, Span(0, 2), "'s");
    assert TokensFrom(s, 4) == [];
  }
}

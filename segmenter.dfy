/**
 * Sentence segmentation of one paragraph line. The boundaries that
 * `java.text.BreakIterator.getSentenceInstance(Locale.US)` reports are an
 * input: a strictly increasing list from 0 to the length of the text.
 */
module Segmenter {
  import opened JavaText

  /** `BreakIterator.DONE`. */
  const DONE: int := -1

  /** The boundaries a sentence iterator may report for `text`: 0 first, `|text|` last, strictly increasing. */
  predicate IsBoundaryList(text: string, b: seq<nat>) {
    |b| >= 1 && b[0] == 0 && b[|b| - 1] == |text|
    && forall i, j :: 0 <= i < j < |b| ==> b[i] < b[j]
  }

  /**
   * A `BreakIterator` over a fixed text with fixed boundaries: `index` is the
   * position of `current()` in the boundary list.
   */
  class SentenceBreaker {
    const text: string
    const bounds: seq<nat>
    var index: nat

    ghost predicate Valid()
      reads this
    {
      IsBoundaryList(text, bounds) && index < |bounds|
    }

    /** `getSentenceInstance` followed by `setText`: the iterator stands at the first boundary. */
    constructor (text: string, bounds: seq<nat>)
      requires IsBoundaryList(text, bounds)
      ensures Valid() && this.text == text && this.bounds == bounds && index == 0
    {
      this.text, this.bounds := text, bounds;
      index := 0;
    }

    /** `current()`: the boundary the iterator stands at. */
    function Current(): (b: nat)
      requires Valid()
      reads this
      ensures b <= |text|
    {
      BoundOf(text, bounds, index)
    }

    /** `first()`: moves to boundary 0 and returns it. */
    method First() returns (b: int)
      requires Valid()
      modifies this
      ensures Valid() && index == 0 && b == 0 == Current()
    {
      index := 0;
      b := bounds[0];
    }

    /**
     * `next()`: moves to the following boundary and returns it; at the last
     * boundary it returns DONE and stays where it is.
     */
    method Next() returns (b: int)
      requires Valid()
      modifies this
      ensures Valid()
      ensures old(index) + 1 < |bounds| ==> index == old(index) + 1 && b == Current()
      ensures old(index) + 1 == |bounds| ==> index == old(index) && b == DONE
    {
      if index + 1 < |bounds| {
        index := index + 1;
        b := bounds[index];
      } else {
        b := DONE;
      }
    }
  }

  /** The `i`-th boundary, which lies within the text. */
  function BoundOf(text: string, b: seq<nat>, i: nat): (r: nat)
    requires IsBoundaryList(text, b) && i < |b|
    ensures r <= |text|
  {
    if i == 0 then b[0] else assert b[0] < b[i]; b[i]
  }

  /** The `i`-th piece the segmentation loop collects: between two boundaries, or "" after the last. */
  function Piece(text: string, b: seq<nat>, i: nat): string
    requires IsBoundaryList(text, b) && i < |b|
  {
    if i + 1 < |b| then
      assert b[i] < b[i + 1] <= |text| by { if i + 1 < |b| - 1 { assert b[i + 1] < b[|b| - 1]; } }
      text[b[i]..b[i + 1]]
    else ""
  }

  /** All the pieces: one per boundary, the last being the empty string. */
  function Pieces(text: string, b: seq<nat>): seq<string>
    requires IsBoundaryList(text, b)
  {
    seq(|b|, i requires 0 <= i < |b| => Piece(text, b, i))
  }

  /**
   * The collected list has one entry per boundary: the sentences between
   * consecutive boundaries, each non-empty, followed by one empty string.
   */
  lemma PiecesShape(text: string, b: seq<nat>)
    requires IsBoundaryList(text, b)
    ensures |Pieces(text, b)| == |b| && Pieces(text, b)[|b| - 1] == ""
    ensures forall i :: 0 <= i < |b| - 1 ==> |Pieces(text, b)[i]| == b[i + 1] - b[i] > 0
  {
  }

  /** The pieces, written one after the other, give back the line. */
  lemma PiecesConcat(text: string, b: seq<nat>)
    requires IsBoundaryList(text, b)
    ensures Concat(Pieces(text, b)) == text
  {
    var ps := Pieces(text, b);
    PiecesPrefix(text, b, |b| - 1);
    assert ps == ps[..|b| - 1] + [""];
    ConcatAppend(ps[..|b| - 1], [""]);
    assert Concat([""]) == "" + Concat([]);
  }

  /** The first `j` pieces cover the text up to boundary `j`. */
  lemma {:induction false} PiecesPrefix(text: string, b: seq<nat>, j: nat)
    requires IsBoundaryList(text, b) && j < |b|
    ensures Concat(Pieces(text, b)[..j]) == text[..BoundOf(text, b, j)]
  {
    var ps := Pieces(text, b);
    if j == 0 {
      assert ps[..0] == [];
    } else {
      PiecesPrefix(text, b, j - 1);
      assert ps[..j] == ps[..j - 1] + [ps[j - 1]];
      ConcatAppend(ps[..j - 1], [ps[j - 1]]);
      assert Concat([ps[j - 1]]) == ps[j - 1] + Concat([]);
      var lo, hi := BoundOf(text, b, j - 1), BoundOf(text, b, j);
      assert ps[j - 1] == text[lo..hi];
      assert text[..lo] + text[lo..hi] == text[..hi];
    }
  }
}

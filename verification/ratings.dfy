/** The fixed rating-to-symbol table (`LanguageProfile.EmojiPairs`). */
module Ratings {
  import opened Wrappers
  import opened OrderedMaps

  /** Thumbs down, thumbs up, heart, tongue out, couple. */
  const EmojiPairs: Entries<int, string> := [
    (-1, "\U{1F44E}"),
    (0, "\U{1F44D}"),
    (1, "\U{2665}"),
    (2, "\U{1F61B}"),
    (3, "\U{1F491}")
  ]

  /** A rating the table knows. */
  predicate IsRating(rating: int) {
    -1 <= rating <= 3
  }

  /**
    `EmojiPairs[rating]`: defined exactly on the five ratings, each symbol one
    character that is neither a space nor a newline (so it can head a display
    line); any other rating has no symbol.
   */
  function Symbol(rating: int): (s: Option<string>)
    ensures s.Some? <==> IsRating(rating)
    ensures s.Some? ==> |s.value| == 1 && ' ' !in s.value && '\n' !in s.value
  {
    assert Keys(EmojiPairs) == [-1, 0, 1, 2, 3];
    Lookup(EmojiPairs, rating)
  }

  /** The reverse reading of the table: the rating a symbol stands for. */
  function RatingOf(symbol: string): (r: Option<int>)
    ensures r.Some? ==> IsRating(r.value)
  {
    assert Keys(EmojiPairs) == [-1, 0, 1, 2, 3];
    FirstKeyOf(EmojiPairs, symbol)
  }

  /** The table's keys are the five ratings, and no two entries share a symbol. */
  lemma TableShape()
    ensures Keys(EmojiPairs) == [-1, 0, 1, 2, 3]
    ensures DistinctKeys(EmojiPairs)
    ensures Distinct(Values(EmojiPairs))
  {
    var vs := Values(EmojiPairs);
    assert vs == ["\U{1F44E}", "\U{1F44D}", "\U{2665}", "\U{1F61B}", "\U{1F491}"];
    assert forall i :: 0 <= i < 5 ==> |vs[i]| == 1;
    assert vs[0][0] != vs[1][0] && vs[0][0] != vs[2][0] && vs[0][0] != vs[3][0] && vs[0][0] != vs[4][0];
    assert vs[1][0] != vs[2][0] && vs[1][0] != vs[3][0] && vs[1][0] != vs[4][0];
    assert vs[2][0] != vs[3][0] && vs[2][0] != vs[4][0] && vs[3][0] != vs[4][0];
  }

  /** Distinct ratings have distinct symbols. */
  lemma SymbolInjective(a: int, b: int)
    requires Symbol(a).Some? && Symbol(a) == Symbol(b)
    ensures a == b
  {
    TableShape();
    var i :| 0 <= i < |EmojiPairs| && EmojiPairs[i].0 == a && EmojiPairs[i].1 == Symbol(a).value;
    var j :| 0 <= j < |EmojiPairs| && EmojiPairs[j].0 == b && EmojiPairs[j].1 == Symbol(b).value;
    assert Values(EmojiPairs)[i] == Values(EmojiPairs)[j];
  }

  /** `RatingOf` inverts `Symbol` in both directions. */
  lemma SymbolRoundTrip(rating: int, symbol: string)
    ensures Symbol(rating) == Some(symbol) <==> RatingOf(symbol) == Some(rating)
  {
    TableShape();
    if Symbol(rating) == Some(symbol) {
      var i :| 0 <= i < |EmojiPairs| && EmojiPairs[i].0 == rating && EmojiPairs[i].1 == symbol;
      FirstKeyOfDistinct(EmojiPairs, i);
    }
    if RatingOf(symbol) == Some(rating) {
      var i :| 0 <= i < |EmojiPairs| && EmojiPairs[i].0 == rating && EmojiPairs[i].1 == symbol;
      LookupDistinct(EmojiPairs, i);
    }
  }
}

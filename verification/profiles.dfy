/**
  The profile records (`LanguageProfile`, `GlobalProfile`) and the static
  display helpers of `LanguageProfile`: the rating serializer, `GetAllItems`
  and both `StringToListItems` overloads.
 */
module Profiles {
  import opened Wrappers
  import opened OrderedMaps
  import opened Text
  import opened Ratings

  /** A rating map: label to rating, in declaration order. */
  type RatingMap = Entries<string, int>

  /**
    One language variant of a profile. The fields the display code checks for
    null (`links`, `flags`, `customFlags`, `words`) are `Option`s.
   */
  datatype LanguageProfile = LanguageProfile(
    names: RatingMap,
    pronouns: RatingMap,
    description: Option<string>,
    age: Option<int>,
    links: Option<seq<string>>,
    flags: Option<seq<string>>,
    customFlags: Option<Entries<string, string>>,
    words: Option<seq<RatingMap>>
  )

  /** The fetched record: user name, avatar URL and language variants in order. */
  datatype GlobalProfile = GlobalProfile(
    username: string,
    avatar: string,
    profiles: Option<Entries<string, LanguageProfile>>
  )

  /** The ways the display pipeline can fail. */
  datatype Error =
    | UnknownRating(rating: int)      // `EmojiPairs[rating]` has no entry
    | DuplicateKey(key: string)       // `Dictionary.Add` of a key already present
    | ProfileNotFound                 // `profiles.First()` on a null or empty map
    | MissingCustomFlags              // `First(pred)` on a null `customFlags`
    | NoMatchingFlag(flagText: string) // `First(pred)` with no entry matching

  /** A list-view row: its text and its tooltip. */
  datatype ListItem = ListItem(text: string, tooltip: string)

  /** The texts of a list of rows, in order. */
  function Texts(items: seq<ListItem>): (ts: seq<string>)
    ensures |ts| == |items|
    ensures forall i :: 0 <= i < |items| ==> ts[i] == items[i].text
  {
    seq(|items|, i requires 0 <= i < |items| => items[i].text)
  }

  /** Every rating of the map has a symbol. */
  predicate AllRated(dict: RatingMap) {
    forall i :: 0 <= i < |dict| ==> IsRating(dict[i].1)
  }

  /** The position of the first entry without a symbol; `|dict|` when there is none. */
  function FirstUnrated(dict: RatingMap): (i: nat)
    ensures i <= |dict|
    ensures i < |dict| ==> !IsRating(dict[i].1)
    ensures forall j :: 0 <= j < i ==> IsRating(dict[j].1)
  {
    if |dict| == 0 || !IsRating(dict[0].1) then 0 else 1 + FirstUnrated(dict[1..])
  }

  /** The display line of one entry: its symbol, a space, its label. */
  function Line(entry: (string, int)): string
    requires IsRating(entry.1)
  {
    Symbol(entry.1).value + " " + entry.0
  }

  /** The display lines of a fully rated map, one per entry, in order. */
  function Lines(dict: RatingMap): (ls: seq<string>)
    requires AllRated(dict)
    ensures |ls| == |dict|
    ensures forall i :: 0 <= i < |dict| ==> ls[i] == Line(dict[i])
  {
    if |dict| == 0 then [] else [Line(dict[0])] + Lines(dict[1..])
  }

  /**
    `SerializeDictionary`: one `"<symbol> <label>\n"` line per entry, in order
    (written head first; string concatenation is associative, so this is the
    text the source's left-to-right `+=` loop builds). It stops at the first
    entry whose rating has no symbol, and succeeds exactly when every rating
    has one, with the lines of the map, each newline-terminated.
   */
  function SerializeDictionary(dict: RatingMap): (r: Result<string, Error>)
    ensures r.Success? <==> AllRated(dict)
    ensures r.Success? ==> r.value == Terminated(Lines(dict))
    ensures r.Failure? ==> r.error.UnknownRating?
  {
    if |dict| == 0 then Success("")
    else
      var rating := dict[0].1;
      var ratingStr := Symbol(rating);
      if ratingStr.None? then Failure(UnknownRating(rating))
      else
        var rest := SerializeDictionary(dict[1..]);
        var tail := dict[1..];
        if rest.Failure? then rest
        else
          assert AllRated(dict) by {
            assert forall i :: 1 <= i < |dict| ==> dict[i] == tail[i - 1];
          }
          Success(ratingStr.value + " " + dict[0].0 + "\n" + rest.value)
  }

  /** A failed serialization reports the rating of the first entry that has no symbol. */
  lemma {:induction false} SerializeError(dict: RatingMap)
    ensures SerializeDictionary(dict).Failure? ==>
      FirstUnrated(dict) < |dict| && SerializeDictionary(dict).error == UnknownRating(dict[FirstUnrated(dict)].1)
  {
    if |dict| > 0 && IsRating(dict[0].1) {
      var tail := dict[1..];
      SerializeError(tail);
      if SerializeDictionary(tail).Failure? {
        assert FirstUnrated(dict) == 1 + FirstUnrated(tail);
        assert tail[FirstUnrated(tail)] == dict[FirstUnrated(dict)];
      }
    }
  }

  /** The lines of a concatenation are the lines of each part, in order. */
  lemma LinesAppend(a: RatingMap, b: RatingMap)
    requires AllRated(a) && AllRated(b)
    ensures AllRated(a + b) && Lines(a + b) == Lines(a) + Lines(b)
  {
    assert AllRated(a + b);
  }

  /** The first unrated entry of a concatenation is the first of `a`, or else the first of `b`. */
  lemma {:induction false} FirstUnratedAppend(a: RatingMap, b: RatingMap)
    ensures FirstUnrated(a + b) == if FirstUnrated(a) < |a| then FirstUnrated(a) else |a| + FirstUnrated(b)
  {
    if |a| > 0 {
      FirstUnratedAppend(a[1..], b);
      assert (a + b)[0] == a[0];
      assert (a + b)[1..] == a[1..] + b;
    } else {
      assert a + b == b;
    }
  }

  /**
    Serializing a concatenation of maps: it succeeds when both succeed, with
    the two texts one after the other, and otherwise fails with the error of
    the first map that fails.
   */
  lemma {:induction false} SerializeAppend(a: RatingMap, b: RatingMap)
    ensures SerializeDictionary(a + b).Success? <==> SerializeDictionary(a).Success? && SerializeDictionary(b).Success?
    ensures SerializeDictionary(a + b).Success? ==>
      SerializeDictionary(a + b).value == SerializeDictionary(a).value + SerializeDictionary(b).value
    ensures SerializeDictionary(a).Failure? ==> SerializeDictionary(a + b) == SerializeDictionary(a)
    ensures SerializeDictionary(a).Success? && SerializeDictionary(b).Failure? ==>
      SerializeDictionary(a + b) == SerializeDictionary(b)
  {
    if AllRated(a) && AllRated(b) {
      assert AllRated(a + b);
      LinesAppend(a, b);
      TerminatedAppend(Lines(a), Lines(b));
    } else if AllRated(a) {
      SerializeAppendSecondFails(a, b);
    } else {
      SerializeAppendFirstFails(a, b);
    }
  }

  /** When the first map fails, its error is the error of the concatenation. */
  lemma SerializeAppendFirstFails(a: RatingMap, b: RatingMap)
    requires !AllRated(a)
    ensures SerializeDictionary(a + b) == SerializeDictionary(a)
  {
    FirstUnratedAppend(a, b);
    SerializeError(a);
    var i := FirstUnrated(a);
    assert (a + b)[i] == a[i];
    assert !AllRated(a + b);
    SerializeError(a + b);
  }

  /** When only the second map fails, its error is the error of the concatenation. */
  lemma SerializeAppendSecondFails(a: RatingMap, b: RatingMap)
    requires AllRated(a) && !AllRated(b)
    ensures SerializeDictionary(a + b) == SerializeDictionary(b)
  {
    FirstUnratedAppend(a, b);
    SerializeError(b);
    var i := FirstUnrated(b);
    assert (a + b)[|a| + i] == b[i];
    assert !AllRated(a + b);
    SerializeError(a + b);
  }

  /** Nothing in the map's labels is a newline. */
  predicate SingleLineLabels(dict: RatingMap) {
    forall i :: 0 <= i < |dict| ==> '\n' !in dict[i].0
  }

  /** `GetAllItems`: the values of the map in order; none for a null map. */
  function GetAllItems<K>(dict: Option<Entries<K, string>>): (vs: seq<string>)
    ensures dict.None? ==> vs == []
    ensures dict.Some? ==> |vs| == |dict.value|
    ensures dict.Some? ==> forall i :: 0 <= i < |vs| ==> vs[i] == dict.value[i].1
  {
    if dict.None? || |dict.value| == 0 then [] else Values(dict.value)
  }

  /**
    `StringToListItems(string[], tooltip)`: one row per string, in order, each
    with the tooltip; a null array gives no rows.
   */
  function StringsToListItems(input: Option<seq<string>>, tooltip: string): (items: seq<ListItem>)
    ensures input.None? ==> items == []
    ensures input.Some? ==> |items| == |input.value|
    ensures input.Some? ==> forall i :: 0 <= i < |items| ==> items[i] == ListItem(input.value[i], tooltip)
  {
    if input.None? then []
    else ItemsOf(input.value, tooltip)
  }

  /** The `foreach` of `StringToListItems`: rows appended one string at a time. */
  function ItemsOf(strs: seq<string>, tooltip: string): (items: seq<ListItem>)
    ensures |items| == |strs|
    ensures forall i :: 0 <= i < |items| ==> items[i] == ListItem(strs[i], tooltip)
  {
    if |strs| == 0 then []
    else ItemsOf(strs[..|strs| - 1], tooltip) + [ListItem(strs[|strs| - 1], tooltip)]
  }

  /**
    `StringToListItems(string, delimiter, tooltip)`: the pieces of the string
    split on the delimiter, as rows with the tooltip. There is one more row
    than there are delimiters, no row holds the delimiter, and joining the
    rows' texts back with the delimiter restores the input.
   */
  function StringToListItems(input: string, delimiter: char, tooltip: string): (items: seq<ListItem>)
    ensures |items| == Count(input, delimiter) + 1
    ensures forall i :: 0 <= i < |items| ==> delimiter !in items[i].text && items[i].tooltip == tooltip
    ensures Join(Texts(items), delimiter) == input
  {
    JoinSplit(input, delimiter);
    var items := StringsToListItems(Some(Split(input, delimiter)), tooltip);
    assert Texts(items) == Split(input, delimiter);
    items
  }

  /**
    The list built from a serialized map: one row per entry holding that
    entry's line, then one empty row from the final newline. An empty map
    therefore gives the single row `""`.
   */
  lemma {:induction false} SerializedRows(dict: RatingMap, tooltip: string)
    requires AllRated(dict)
    ensures var items := StringToListItems(SerializeDictionary(dict).value, '\n', tooltip);
      SingleLineLabels(dict) ==> Texts(items) == Lines(dict) + [""]
  {
    if !SingleLineLabels(dict) { return; }
    var ls := Lines(dict);
    forall i | 0 <= i < |ls|
      ensures '\n' !in ls[i]
    {
      assert ls[i] == Symbol(dict[i].1).value + (" " + dict[i].0);
    }
    SplitTerminated(ls);
  }

  /**
    Whatever its labels hold, the list built from a serialized map ends with
    an empty row, from the final newline.
   */
  lemma SerializedLastRowEmpty(dict: RatingMap, tooltip: string)
    requires AllRated(dict)
    ensures var items := StringToListItems(SerializeDictionary(dict).value, '\n', tooltip);
      items[|items| - 1].text == ""
  {
    TerminatedLastEmpty(Lines(dict));
  }

  /**
    The inverse of one display line: the symbol up to the first space, the
    label after it. Absent when there is no space or the symbol is unknown.
   */
  function ParseLine(line: string): (entry: Option<(string, int)>)
    ensures entry.Some? ==> IsRating(entry.value.1)
  {
    var k := IndexOf(line, ' ');
    if k == -1 then None
    else
      match RatingOf(line[..k])
      case None => None
      case Some(rating) => Some((line[k + 1..], rating))
  }

  /** Reads display lines back into entries, failing on the first unreadable one. */
  function ParseLines(lines: seq<string>): (r: Option<RatingMap>)
    ensures r.Some? ==> |r.value| == |lines|
  {
    if |lines| == 0 then Some([])
    else
      var entry :- ParseLine(lines[0]);
      var rest :- ParseLines(lines[1..]);
      Some([entry] + rest)
  }

  /** Reading a serialized map back: split on newlines, drop the empty tail, parse each line. */
  function ReadBack(text: string): Option<RatingMap> {
    var pieces := Split(text, '\n');
    if pieces[|pieces| - 1] != "" then None else ParseLines(pieces[..|pieces| - 1])
  }

  /** Each display line reads back as the entry it came from. */
  lemma {:induction false} LineRoundTrip(entry: (string, int))
    requires IsRating(entry.1)
    ensures ParseLine(Line(entry)) == Some(entry)
  {
    var symbol := Symbol(entry.1).value;
    IndexOfAfterPrefix(symbol, ' ', entry.0);
    assert symbol + " " + entry.0 == symbol + [' '] + entry.0;
    var line := Line(entry);
    assert line[..|symbol|] == symbol && line[|symbol| + 1..] == entry.0;
    SymbolRoundTrip(entry.1, symbol);
  }

  /** Parsing the lines of a map gives the map back. */
  lemma {:induction false} LinesRoundTrip(dict: RatingMap)
    requires AllRated(dict)
    ensures ParseLines(Lines(dict)) == Some(dict)
  {
    if |dict| > 0 {
      var lines := Lines(dict);
      LineRoundTrip(dict[0]);
      assert ParseLine(lines[0]) == Some(dict[0]);
      LinesRoundTrip(dict[1..]);
      assert lines[1..] == Lines(dict[1..]);
      assert ParseLines(lines) == Some([dict[0]] + dict[1..]);
      assert dict == [dict[0]] + dict[1..];
    }
  }

  /**
    The serialized text of a map whose labels are single lines reads back as
    exactly that map: labels and ratings, in order.
   */
  lemma {:induction false} SerializeRoundTrip(dict: RatingMap)
    requires SingleLineLabels(dict)
    ensures SerializeDictionary(dict).Success? ==> ReadBack(SerializeDictionary(dict).value) == Some(dict)
  {
    if AllRated(dict) {
      SerializedRows(dict, "");
      var pieces := Split(SerializeDictionary(dict).value, '\n');
      assert pieces[..|pieces| - 1] == Lines(dict);
      LinesRoundTrip(dict);
    }
  }
}

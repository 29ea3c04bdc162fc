/**
  The display logic of the `Profile` form: noun-pronoun expansion, primary
  profile selection, flag and word list assembly, the pure part of
  `FetchUserBase`, and the links opened when a flag or link row is activated.
 */
module ProfileForm {
  import opened Wrappers
  import opened OrderedMaps
  import opened Text
  import opened Ratings
  import opened Profiles

  const TerminologyBase := "https://en.pronouns.page/dictionary/terminology#"
  const CustomFlagTooltip := "This is a custom flag set by the owner of this profile."
  const NonCustomFlagTooltip := "This is a LGBTQ flag. To see more about it double-click on this item. (Internet required!)"
  const ImageCdn := "https://dclu0bpcdglik.cloudfront.net/images/"
  const FlagEnd := "-flag.png"

  /** The marker that introduces a noun pronoun, as in `:kit`. */
  predicate IsNounPronoun(key: string) {
    |key| > 0 && key[0] == ':'
  }

  /**
    `":" + b` becomes `b + "/" + b + "'s"`; every other key is kept. An
    expansion is one character more than twice its key's length and starts
    with the key's base, so the base can be read back from it.
   */
  function ExpandPronoun(key: string): (r: string)
    ensures !IsNounPronoun(key) ==> r == key
    ensures IsNounPronoun(key) ==>
      && |r| == 2 * |key| + 1
      && r[..|key| - 1] == key[1..]
      && r[|key| - 1] == '/'
      && r[|r| - 2..] == "'s"
  {
    if !IsNounPronoun(key) then key
    else
      var base := key[1..];
      base + "/" + base + "'s"
  }

  /** The entries with their keys expanded, ratings and order kept. */
  function ExpandedEntries(dict: RatingMap): (es: RatingMap)
    ensures |es| == |dict|
    ensures forall i :: 0 <= i < |dict| ==> es[i] == (ExpandPronoun(dict[i].0), dict[i].1)
  {
    seq(|dict|, i requires 0 <= i < |dict| => (ExpandPronoun(dict[i].0), dict[i].1))
  }

  /** The keys of the map after expansion, in order. */
  function ExpandedKeys(dict: RatingMap): seq<string> {
    Keys(ExpandedEntries(dict))
  }

  /**
    `ParseNounPronouns`: copies the entries in order into a new dictionary,
    expanding each noun-pronoun key and keeping its rating. It succeeds exactly
    when no two expanded keys coincide, and then has one entry per input
    entry; otherwise the first `Add` that meets an equal earlier expanded key
    fails, reporting that key.
   */
  function ParseNounPronouns(dict: RatingMap): (r: Result<RatingMap, Error>)
    ensures r.Success? <==> Distinct(ExpandedKeys(dict))
    ensures r.Success? ==> |r.value| == |dict|
    ensures r.Success? ==> forall i :: 0 <= i < |dict| ==> r.value[i] == (ExpandPronoun(dict[i].0), dict[i].1)
    ensures r.Failure? ==> r.error.DuplicateKey? && FirstRepeat(ExpandedKeys(dict), r.error.key)
  {
    match FromEntries(ExpandedEntries(dict))
    case Success(copy) => Success(copy)
    case Failure(key) => Failure(DuplicateKey(key))
  }

  /** The two shapes of key: `":" + b` becomes `b/b's`, a key without the marker is kept. */
  lemma ExpandPronounForms(base: string, key: string)
    ensures ExpandPronoun(":" + base) == base + "/" + base + "'s"
    ensures !IsNounPronoun(key) ==> ExpandPronoun(key) == key
  {
    assert (":" + base)[1..] == base;
  }

  /** Two noun pronouns expand to the same key only if they are the same key. */
  lemma ExpandInjectiveOnNouns(a: string, b: string)
    requires IsNounPronoun(a) && IsNounPronoun(b)
    requires ExpandPronoun(a) == ExpandPronoun(b)
    ensures a == b
  {
    var x, y := a[1..], b[1..];
    assert a == [':'] + x && b == [':'] + y;
  }

  /** A plain key that some noun pronoun of the map expands to. */
  predicate Clash(dict: RatingMap, i: int, j: int) {
    0 <= i < |dict| && 0 <= j < |dict| && !IsNounPronoun(dict[i].0) && IsNounPronoun(dict[j].0)
    && dict[i].0 == ExpandPronoun(dict[j].0)
  }

  /**
    For a dictionary (distinct keys), the expansion fails exactly when a plain
    pronoun equals the expansion of a noun pronoun of the same map, such as
    `kit/kit's` next to `:kit`.
   */
  lemma {:induction false} ParseNounPronounsFailsIff(dict: RatingMap)
    requires DistinctKeys(dict)
    ensures ParseNounPronouns(dict).Failure? <==> exists i, j :: Clash(dict, i, j)
  {
    var ks := ExpandedKeys(dict);
    if !Distinct(ks) {
      var i, j :| 0 <= i < j < |ks| && ks[i] == ks[j];
      assert Keys(dict)[i] != Keys(dict)[j];
      if IsNounPronoun(dict[i].0) && IsNounPronoun(dict[j].0) {
        ExpandInjectiveOnNouns(dict[i].0, dict[j].0);
      } else if IsNounPronoun(dict[i].0) {
        assert Clash(dict, j, i);
      } else {
        assert Clash(dict, i, j);
      }
    }
    if exists i, j :: Clash(dict, i, j) {
      var i, j :| Clash(dict, i, j);
      assert i != j && ks[i] == ks[j];
      if i < j { assert ks[i] == ks[j]; } else { assert ks[j] == ks[i]; }
    }
  }

  /**
    `profiles.First().Value`: the first language variant in the record's
    order. A null or empty map fails, which `FetchUserBase` reports as
    "User not found!" and answers `false`.
   */
  function SelectPrimary(profiles: Option<Entries<string, LanguageProfile>>): (r: Result<LanguageProfile, Error>)
    ensures r.Failure? <==> profiles.None? || |profiles.value| == 0
    ensures r.Failure? ==> r.error == ProfileNotFound
    ensures r.Success? ==> r.value == Values(profiles.value)[0]
  {
    if profiles.None? || |profiles.value| == 0 then Failure(ProfileNotFound)
    else Success(profiles.value[0].1)
  }

  /**
    The flag list: the standard flags with the standard tooltip, then the
    custom flags' labels with the custom tooltip, each group in its order.
   */
  function FlagItems(flags: Option<seq<string>>, customFlags: Option<Entries<string, string>>): (items: seq<ListItem>)
    ensures |items| == |StandardFlags(flags)| + |GetAllItems(customFlags)|
    ensures forall i :: 0 <= i < |StandardFlags(flags)| ==> items[i] == ListItem(StandardFlags(flags)[i], NonCustomFlagTooltip)
    ensures forall j :: 0 <= j < |GetAllItems(customFlags)| ==>
      items[|StandardFlags(flags)| + j] == ListItem(customFlags.value[j].1, CustomFlagTooltip)
  {
    var flagList := StringsToListItems(flags, NonCustomFlagTooltip);
    var customFlagList := StringsToListItems(Some(GetAllItems(customFlags)), CustomFlagTooltip);
    assert |flagList| == |StandardFlags(flags)|;
    flagList + customFlagList
  }

  /** The standard flag identifiers; none for a null array. */
  function StandardFlags(flags: Option<seq<string>>): seq<string> {
    if flags.None? then [] else flags.value
  }

  /**
    The words loop of `FetchUserBase`: the serializations of the categories
    appended in order, which is the serialization of all their entries taken
    together.
   */
  function CompileWords(words: seq<RatingMap>): (r: Result<string, Error>)
    ensures r == SerializeDictionary(Flatten(words))
  {
    if |words| == 0 then Success("")
    else
      var n := |words| - 1;
      var compiled := CompileWords(words[..n]);
      SerializeAppend(Flatten(words[..n]), words[n]);
      if compiled.Failure? then compiled
      else
        var next := SerializeDictionary(words[n]);
        if next.Failure? then next else Success(compiled.value + next.value)
  }

  /** All entries of the categories, category by category. */
  function Flatten(words: seq<RatingMap>): RatingMap {
    if |words| == 0 then [] else Flatten(words[..|words| - 1]) + words[|words| - 1]
  }

  /** What `FetchUserBase` puts in the form's lists. `words` is `None` when the list is left as it was. */
  datatype Display = Display(
    names: seq<ListItem>,
    pronouns: seq<ListItem>,
    links: seq<ListItem>,
    flags: seq<ListItem>,
    words: Option<seq<ListItem>>
  )

  /**
    The word rows: untouched (`None`) when the profile has no word list,
    otherwise the compiled categories split into lines.
   */
  function WordItems(words: Option<seq<RatingMap>>): (r: Result<Option<seq<ListItem>>, Error>)
    ensures words.None? ==> r == Success(None)
    ensures words.Some? ==> (r.Success? <==> AllRated(Flatten(words.value)))
    ensures r.Success? && words.Some? ==> r.value.Some?
  {
    if words.None? then Success(None)
    else
      var compiledWords :- CompileWords(words.value);
      Success(Some(StringToListItems(compiledWords, '\n', "")))
  }

  /**
    The primary profile can be shown: names, pronouns and words all carry known
    ratings, and no two pronouns coincide after expansion.
   */
  predicate Displayable(p: LanguageProfile) {
    && AllRated(p.names) && AllRated(p.pronouns) && Distinct(ExpandedKeys(p.pronouns))
    && (p.words.Some? ==> AllRated(Flatten(p.words.value)))
  }

  /**
    What the form shows for profile `p`: names and words (for single-line
    labels) as one row per entry and a final empty row, the profile's links
    with an empty tooltip (none for a null array), its flags, and a word list
    left alone exactly when the profile has no words.
   */
  predicate ShowsProfile(p: LanguageProfile, d: Display)
    requires Displayable(p)
  {
    && (SingleLineLabels(p.names) ==> Texts(d.names) == Lines(p.names) + [""])
    && (p.links.None? ==> d.links == [])
    && (p.links.Some? ==> Texts(d.links) == p.links.value)
    && (forall i :: 0 <= i < |d.links| ==> d.links[i].tooltip == "")
    && d.flags == FlagItems(p.flags, p.customFlags)
    && (d.words.None? <==> p.words.None?)
    && (p.words.Some? && SingleLineLabels(Flatten(p.words.value)) ==>
          d.words.Some? && Texts(d.words.value) == Lines(Flatten(p.words.value)) + [""])
  }

  /**
    The part of `FetchUserBase` after the primary profile is chosen: the names,
    pronouns, links, flags and words lists, in that order. It fails with an
    unknown rating or a repeated expanded pronoun, the exceptions those steps
    raise.
   */
  function ProfileDisplay(p: LanguageProfile): (r: Result<Display, Error>)
    ensures r.Success? <==> Displayable(p)
    ensures r.Failure? ==> r.error.UnknownRating? || r.error.DuplicateKey?
    ensures r.Success? ==> Displayable(p) && ShowsProfile(p, r.value)
  {
    var serializedNames :- SerializeDictionary(p.names);
    var namesToList := StringToListItems(serializedNames, '\n', "");
    var parsedPronouns :- ParseNounPronouns(p.pronouns);
    assert AllRated(parsedPronouns) <==> AllRated(p.pronouns);
    var serializedPronouns :- SerializeDictionary(parsedPronouns);
    var pronounsToList := StringToListItems(serializedPronouns, '\n', "");
    var linkList := StringsToListItems(p.links, "");
    var flagList := FlagItems(p.flags, p.customFlags);
    var wordsToList :- WordItems(p.words);
    var display := Display(namesToList, pronounsToList, linkList, flagList, wordsToList);
    SerializedRows(p.names, "");
    if p.words.None? then Success(display)
    else
      SerializedRows(Flatten(p.words.value), "");
      Success(display)
  }

  /**
    `FetchUserBase`: answers `false` (`ProfileNotFound`) exactly when there is
    no primary profile; otherwise it shows that profile, and any other failure
    is an exception from an unknown rating or a repeated expanded pronoun.
   */
  function FetchUserBase(global: GlobalProfile): (r: Result<Display, Error>)
    ensures SelectPrimary(global.profiles).Failure? ==> r == Failure(ProfileNotFound)
    ensures SelectPrimary(global.profiles).Success? ==>
      var p := SelectPrimary(global.profiles).value;
      && (r.Success? <==> Displayable(p))
      && (r.Failure? ==> r.error.UnknownRating? || r.error.DuplicateKey?)
      && (r.Success? ==> Displayable(p) && ShowsProfile(p, r.value))
  {
    var primary :- SelectPrimary(global.profiles);
    ProfileDisplay(primary)
  }

  /**
    Which exception escapes `FetchUserBase` once a primary profile exists: the
    first failing step in the order the code runs them. An unknown name rating
    comes first, then a pronoun collision after expansion, then an unknown
    pronoun rating, then an unknown word rating; each unknown rating is the one
    of the first unrated entry.
   */
  lemma {:induction false} FetchUserBaseFailure(global: GlobalProfile)
    ensures SelectPrimary(global.profiles).Success? && FetchUserBase(global).Failure? ==>
      var p := SelectPrimary(global.profiles).value;
      var e := FetchUserBase(global).error;
      if !AllRated(p.names) then
        FirstUnrated(p.names) < |p.names| && e == UnknownRating(p.names[FirstUnrated(p.names)].1)
      else if !Distinct(ExpandedKeys(p.pronouns)) then
        e.DuplicateKey? && FirstRepeat(ExpandedKeys(p.pronouns), e.key)
      else if !AllRated(p.pronouns) then
        FirstUnrated(p.pronouns) < |p.pronouns| && e == UnknownRating(p.pronouns[FirstUnrated(p.pronouns)].1)
      else
        && p.words.Some?
        && var all := Flatten(p.words.value);
        FirstUnrated(all) < |all| && e == UnknownRating(all[FirstUnrated(all)].1)
  {
    if SelectPrimary(global.profiles).Failure? || FetchUserBase(global).Success? { return; }
    var p := SelectPrimary(global.profiles).value;
    SerializeError(p.names);
    if !AllRated(p.names) || !Distinct(ExpandedKeys(p.pronouns)) { return; }
    var parsed := ParseNounPronouns(p.pronouns).value;
    SerializeError(parsed);
    if !AllRated(p.pronouns) {
      assert FirstUnrated(parsed) == FirstUnrated(p.pronouns);
      return;
    }
    SerializeError(Flatten(p.words.value));
  }

  /** Expanding a single-line key gives a single-line key. */
  lemma ExpandSingleLine(key: string)
    requires '\n' !in key
    ensures '\n' !in ExpandPronoun(key)
  {
    if IsNounPronoun(key) {
      var base := key[1..];
      assert forall c :: c in base ==> c in key;
      assert forall c :: c in ExpandPronoun(key) ==> c in base || c in "/'s";
    }
  }

  /**
    The pronoun rows of a successful display, for single-line pronouns: one
    per pronoun, in order, each showing the pronoun's symbol and its expanded
    key, then a final empty row.
   */
  lemma {:induction false} PronounRows(global: GlobalProfile)
    ensures FetchUserBase(global).Success? ==>
      var p := SelectPrimary(global.profiles).value;
      var rows := Texts(FetchUserBase(global).value.pronouns);
      SingleLineLabels(p.pronouns) ==>
        && |rows| == |p.pronouns| + 1
        && rows[|p.pronouns|] == ""
        && forall i :: 0 <= i < |p.pronouns| ==>
             rows[i] == Symbol(p.pronouns[i].1).value + " " + ExpandPronoun(p.pronouns[i].0)
  {
    if FetchUserBase(global).Failure? { return; }
    var p := SelectPrimary(global.profiles).value;
    var parsed := ParseNounPronouns(p.pronouns).value;
    assert AllRated(parsed);
    if SingleLineLabels(p.pronouns) {
      forall i | 0 <= i < |parsed|
        ensures '\n' !in parsed[i].0
      {
        ExpandSingleLine(p.pronouns[i].0);
      }
      SerializedRows(parsed, "");
    }
  }

  /**
    `flags_ItemActivate`: a row with the custom tooltip opens the CDN image of
    the first custom flag whose label is the row's text (failing when the map
    is null or no label matches); any other row opens the terminology page
    anchored at the row's text, unescaped.
   */
  function FlagLink(item: ListItem, customFlags: Option<Entries<string, string>>): (r: Result<string, Error>)
    ensures item.tooltip != CustomFlagTooltip ==> r == Success(TerminologyBase + item.text)
    ensures item.tooltip == CustomFlagTooltip ==>
      (r.Success? <==> customFlags.Some? && item.text in Values(customFlags.value))
    ensures item.tooltip == CustomFlagTooltip && r.Success? ==>
      exists i :: 0 <= i < |customFlags.value| && customFlags.value[i].1 == item.text
        && (forall j :: 0 <= j < i ==> customFlags.value[j].1 != item.text)
        && r.value == ImageCdn + customFlags.value[i].0 + FlagEnd
  {
    if item.tooltip == CustomFlagTooltip then
      if customFlags.None? then Failure(MissingCustomFlags)
      else
        var key := FirstKeyOf(customFlags.value, item.text);
        if key.None? then Failure(NoMatchingFlag(item.text))
        else Success(ImageCdn + key.value + FlagEnd)
    else
      Success(TerminologyBase + item.text)
  }

  /** `links_ItemActivate`: a link row opens its own text, with nothing added or escaped. */
  function LinkTarget(item: ListItem): (url: string)
    ensures url == item.text
  {
    item.text
  }

  /**
    A standard-flag row links to the terminology page of its identifier: its
    tooltip is not the custom one, whatever the custom flags are.
   */
  lemma StandardFlagResolves(flags: Option<seq<string>>, customFlags: Option<Entries<string, string>>, i: nat)
    requires i < |StandardFlags(flags)|
    ensures FlagLink(FlagItems(flags, customFlags)[i], customFlags) == Success(TerminologyBase + StandardFlags(flags)[i])
  {
    assert |NonCustomFlagTooltip| != |CustomFlagTooltip|;
  }

  /**
    A row showing the label of custom entry `j` with the custom tooltip always
    resolves, since the label is in the map; when labels are distinct it links
    to the image of entry `j`'s own key.
   */
  lemma CustomLabelResolves(customFlags: Entries<string, string>, j: nat)
    requires j < |customFlags|
    ensures var link := FlagLink(ListItem(customFlags[j].1, CustomFlagTooltip), Some(customFlags));
      && link.Success?
      && (Distinct(Values(customFlags)) ==> link.value == ImageCdn + customFlags[j].0 + FlagEnd)
  {
    assert Values(customFlags)[j] == customFlags[j].1;
    if Distinct(Values(customFlags)) {
      FirstKeyOfDistinct(customFlags, j);
    }
  }

  /**
    The row `FlagItems` builds for custom entry `j`, after the standard flags,
    always resolves; when labels are distinct it links to the image of entry
    `j`'s own key.
   */
  lemma CustomFlagResolves(flags: Option<seq<string>>, customFlags: Entries<string, string>, j: nat)
    requires j < |customFlags|
    ensures var link := FlagLink(FlagItems(flags, Some(customFlags))[|StandardFlags(flags)| + j], Some(customFlags));
      && link.Success?
      && (Distinct(Values(customFlags)) ==> link.value == ImageCdn + customFlags[j].0 + FlagEnd)
  {
    var item := FlagItems(flags, Some(customFlags))[|StandardFlags(flags)| + j];
    assert item == ListItem(customFlags[j].1, CustomFlagTooltip);
    CustomLabelResolves(customFlags, j);
  }

  /** Every row of the link list opens the profile link it shows. */
  lemma LinkItemsResolve(links: Option<seq<string>>, i: nat)
    requires i < |StringsToListItems(links, "")|
    ensures links.Some? && LinkTarget(StringsToListItems(links, "")[i]) == links.value[i]
  {
  }

  /**
    Standard flags `lesbian` and `bi` with one custom flag `abc123` labelled
    `My Flag`: three rows in that order, resolving to the terminology page,
    and to the CDN image of `abc123`.
   */
  lemma FlagListExample()
    ensures var custom := Some([("abc123", "My Flag")]);
      var items := FlagItems(Some(["lesbian", "bi"]), custom);
      && Texts(items) == ["lesbian", "bi", "My Flag"]
      && FlagLink(items[0], custom) == Success(TerminologyBase + "lesbian")
      && FlagLink(items[2], custom) == Success(ImageCdn + "abc123" + FlagEnd)
  {
    var custom := Some([("abc123", "My Flag")]);
    var items := FlagItems(Some(["lesbian", "bi"]), custom);
    assert |NonCustomFlagTooltip| != |CustomFlagTooltip|;
    FirstKeyOfDistinct(custom.value, 0);
  }

  /**
    Copying `a, b, a, b` fails at the third `Add`, on `a`, although `b` is
    repeated too.
   */
  lemma DuplicateKeyExample()
    ensures FromEntries([("a", 1), ("b", 2), ("a", 3), ("b", 4)]) == Failure("a")
  {
    var es := [("a", 1), ("b", 2), ("a", 3), ("b", 4)];
    var r := FromEntries(es);
    assert Keys(es) == ["a", "b", "a", "b"];
    assert FirstRepeat(Keys(es), "a") by {
      assert Keys(es)[..2] == ["a", "b"];
    }
    FirstRepeatUnique(Keys(es), r.error, "a");
  }

  /** A rating outside the table stops serialization instead of printing a default symbol. */
  lemma UnknownRatingExample()
    ensures SerializeDictionary([("they/them", 0), ("it/its", 99)]) == Failure(UnknownRating(99))
  {
    assert !IsRating(99);
  }
}

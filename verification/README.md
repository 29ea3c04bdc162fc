# PronounViewer profile display, modelled in Dafny

PronounViewer is a WinForms viewer for pronouns.page profiles. A fetched
`GlobalProfile` holds one or more `LanguageProfile`s. The `Profile` form
takes the first of them and fills its list views. Each rating map (names,
pronouns, word categories) becomes rows of the form `"<symbol> <label>"`,
using the fixed five-entry rating table. Noun pronouns such as `:kit`
are expanded to `kit/kit's`. Standard flags and custom flags go into one
list, each group marked by its own tooltip. Activating a flag row opens
a terminology page or a CDN image.

This project models that display logic as pure functions over immutable
values:

- A C# `Dictionary` is a sequence of `(key, value)` entries in insertion
  order (`OrderedMaps`). The code only ever adds to these dictionaries,
  so insertion order is also enumeration order.
- A `ListViewItem` is a `(text, tooltip)` pair (`Profiles.ListItem`).
- Exceptions and null references become `Option` and `Result` values.

The modules follow the source:

- `Wrappers`: `Option` and `Result`.
- `OrderedMaps`: `Add`, the indexer, and `First(predicate)`.
- `Text`: .NET `Split`, with `Join` as its inverse, and newline-terminated
  layout.
- `Ratings`: the `EmojiPairs` table.
- `Profiles`: the `LanguageProfile` and `GlobalProfile` records and the static
  helpers of `LanguageProfile`.
- `ProfileForm`: the form's pronoun expansion, profile selection, flag and
  word lists, the pure part of `FetchUserBase`, and the two `ItemActivate`
  handlers.

Behaviour of the code worth noting:

- The primary profile is the first entry in the record's order, not one
  chosen by a language priority.
- A custom-flag row resolves through the first entry whose label matches.
  Two flags that share a label are not reported as ambiguous.
- Flag links concatenate the row text with no URL escaping.
- The serializer produces one newline-terminated string, not a list of
  pairs. The names, pronouns and words lists therefore always end with one
  empty row, from the final newline, whatever the labels hold
  (`Profiles.SerializedLastRowEmpty`). For single-line labels,
  `Profiles.SerializedRows` shows the rows are exactly the lines followed by
  that empty row. The links and flags lists are built from arrays and have
  no such row.

`FetchUserBase` can fail in two ways:

- Answering `false`: only when there is no primary profile
  (`ProfileNotFound`).
- Throwing an exception: an unknown rating (`UnknownRating`) or a repeated
  key after pronoun expansion (`DuplicateKey`). The first failing step wins:
  names, then pronoun expansion, then pronoun ratings, then words.

Activating a custom-flag row (`FlagLink`) fails when the profile's
`customFlags` is null (`MissingCustomFlags`) or when no custom flag carries
the row's label, an empty map included (`NoMatchingFlag`); both are
exceptions in the code.

## Model

| member | source | states |
|---|---|---|
| OrderedMaps.Lookup | Viewer/Viewer/Profile.cs:44 | the dictionary indexer yields a value exactly when the key is present, and that value is stored under the key; a missing key is a failure |
| OrderedMaps.Add | Viewer/Viewer/Profile.cs:130-136 | `Dictionary.Add` succeeds exactly when the key is new, appends the entry at the end, leaves earlier entries alone and keeps keys distinct |
| OrderedMaps.FromEntries | Viewer/Viewer/Profile.cs:121-139 | filling a new dictionary with one `Add` per entry reproduces the entries exactly when their keys are distinct, and otherwise fails with the key of the first entry whose `Add` meets an equal earlier key |
| OrderedMaps.FirstRepeatUnique | Viewer/Viewer/Profile.cs:130-136 | only one key can be the first repetition, so the key a failed copy reports is determined by the entries |
| OrderedMaps.FirstIndexFrom | Viewer/Viewer/Profile.cs:305 | the scan behind `First(pred)`: the position of the first matching entry, none exactly when nothing matches |
| OrderedMaps.FirstKeyOf | Viewer/Viewer/Profile.cs:305 | `First(x => x.Value == v).Key` fails exactly when no value is `v`; otherwise it is the key of an entry holding `v` with no earlier entry holding `v` |
| OrderedMaps.FirstKeyOfDistinct | Viewer/Viewer/Profile.cs:305 | when labels are distinct, the label-to-key lookup returns the key the label was stored under |
| Text.Split | Viewer/Viewer/Profile.cs:68 | `Split(char)` gives one more piece than there are delimiters, and no piece contains the delimiter |
| Text.JoinSplit | Viewer/Viewer/Profile.cs:68 | joining the pieces of a split with the delimiter gives back the input |
| Text.SplitJoin | Viewer/Viewer/Profile.cs:68 | splitting a join of delimiter-free pieces gives back exactly those pieces |
| Text.TerminatedAppend | Viewer/Viewer/Profile.cs:215-219 | the newline-terminated layout of two line lists is the concatenation of their layouts |
| Text.SplitLastEmpty | Viewer/Viewer/Profile.cs:68 | a string ending with the delimiter splits into at least two pieces, the last one empty |
| Text.TerminatedLastEmpty | Viewer/Viewer/Profile.cs:66-70 | newline-terminated text splits on `'\n'` into pieces ending with an empty one, whatever the lines hold |
| Text.SplitTerminated | Viewer/Viewer/Profile.cs:66-70 | splitting newline-terminated single-line lines on `'\n'` yields the lines and then one empty piece |
| Ratings.Symbol | Viewer/Viewer/Profile.cs:25-32 | the rating table is defined exactly on -1, 0, 1, 2, 3, and each symbol is one character, neither space nor newline |
| Ratings.SymbolInjective | Viewer/Viewer/Profile.cs:25-32 | distinct ratings have distinct symbols |
| Ratings.SymbolRoundTrip | Viewer/Viewer/Profile.cs:25-32 | reading the table backwards gives the rating of a symbol, in both directions |
| Profiles.SerializeDictionary | Viewer/Viewer/Profile.cs:34-51 | the serializer succeeds exactly when every rating is in the table. Its text is then the in-order, newline-terminated `symbol + " " + label` lines, and an empty map gives `""` |
| Profiles.SerializeError | Viewer/Viewer/Profile.cs:37-44 | a failed serialization reports the rating of the first entry, in map order, that has no symbol |
| Profiles.SerializeAppend | Viewer/Viewer/Profile.cs:34-51 | serializing a concatenation of maps is the concatenation of their serializations, and fails with the first map's error first |
| Profiles.SerializeAppendFirstFails | Viewer/Viewer/Profile.cs:37-44 | when the first map has an unknown rating, serializing the concatenation fails with the first map's error |
| Profiles.SerializeAppendSecondFails | Viewer/Viewer/Profile.cs:37-44 | when only the second map has an unknown rating, serializing the concatenation fails with the second map's error |
| Profiles.GetAllItems | Viewer/Viewer/Profile.cs:53-64 | `GetAllItems` lists the map's values in order; a null map gives none |
| Profiles.StringsToListItems | Viewer/Viewer/Profile.cs:72-85 | one row per input string, texts equal to the strings in order, every tooltip the given one; a null array gives no rows |
| Profiles.ItemsOf | Viewer/Viewer/Profile.cs:77-82 | the `foreach` appending rows keeps texts in input order with the given tooltip |
| Profiles.StringToListItems | Viewer/Viewer/Profile.cs:66-70 | splitting text into rows yields one more row than there are delimiters. No row contains the delimiter, every row has the tooltip, and the rows joined back give the text |
| Profiles.SerializedRows | Viewer/Viewer/Profile.cs:66-70 | a serialized map with single-line labels splits into exactly its lines plus one empty row, so n entries give n + 1 rows |
| Profiles.SerializedLastRowEmpty | Viewer/Viewer/Profile.cs:34-51 | the rows built from any serialized map end with an empty row, for labels with or without newlines |
| Profiles.LineRoundTrip | Viewer/Viewer/Profile.cs:47 | a display line reads back as the `(label, rating)` it was written from |
| Profiles.LinesRoundTrip | Viewer/Viewer/Profile.cs:47 | the display lines of a map read back as the map, in order |
| Profiles.SerializeRoundTrip | Viewer/Viewer/Profile.cs:34-51 | the serialized text of a map with single-line labels reads back as exactly that map |
| ProfileForm.ParseNounPronouns | Viewer/Viewer/Profile.cs:118-140 | pronoun expansion keeps entry order and ratings and rewrites each key. It succeeds exactly when no two rewritten keys coincide, and then has the input's size. Otherwise it fails with the rewritten key of the first entry that collides with an earlier one |
| ProfileForm.ExpandPronounForms | Viewer/Viewer/Profile.cs:129-134 | `":" + b` becomes `b/b's`; a key not starting with `:` is copied unchanged |
| ProfileForm.ExpandPronoun | Viewer/Viewer/Profile.cs:129-134 | a key not starting with `:` is kept; a noun pronoun `:b` becomes a key of length `2·|b| + 3` that starts with `b/` and ends with `'s`, so `b` can be read back from it |
| ProfileForm.ExpandInjectiveOnNouns | Viewer/Viewer/Profile.cs:133-134 | two noun pronouns never expand to the same key |
| ProfileForm.ParseNounPronounsFailsIff | Viewer/Viewer/Profile.cs:118-140 | for a dictionary, expansion fails exactly when a plain pronoun equals the expansion of a noun pronoun in the same map |
| ProfileForm.ExpandSingleLine | Viewer/Viewer/Profile.cs:133-134 | expansion never introduces a newline |
| ProfileForm.SelectPrimary | Viewer/Viewer/Profile.cs:154-162 | selection fails with `ProfileNotFound` exactly when the profile map is null or empty; otherwise it yields the first entry's value |
| ProfileForm.FlagItems | Viewer/Viewer/Profile.cs:204-209 | the flag list is the standard flags in order with the standard tooltip, then the custom labels in map order with the custom tooltip; null parts contribute nothing |
| ProfileForm.CompileWords | Viewer/Viewer/Profile.cs:212-219 | the compiled words are the serialization of all categories' entries taken together, in category order |
| ProfileForm.WordItems | Viewer/Viewer/Profile.cs:212-224 | a null word list leaves the list alone; otherwise the words are shown exactly when every word rating is in the table |
| ProfileForm.ProfileDisplay | Viewer/Viewer/Profile.cs:168-226 | the lists after profile selection are built exactly when names, pronouns and words are all rated and expansion has no collision; any failure is an unknown rating or a repeated key. On success names and words with single-line labels show one row per entry plus an empty row, links (none when null, empty tooltips) and flags are the profile's own, and words stay untouched exactly when absent |
| ProfileForm.FetchUserBase | Viewer/Viewer/Profile.cs:142-227 | the call answers `false` (`ProfileNotFound`) exactly when there is no primary profile; otherwise it succeeds exactly when that profile can be shown, shows it as `ProfileDisplay` promises, and fails only with an unknown rating or a repeated key |
| ProfileForm.FetchUserBaseFailure | Viewer/Viewer/Profile.cs:168-219 | the exception that escapes is the first failing step in code order: the first unrated name, then a pronoun collision (the first rewritten key that meets an earlier one), then the first unrated pronoun, then the first unrated word |
| ProfileForm.PronounRows | Viewer/Viewer/Profile.cs:180-190 | for single-line pronouns, the pronoun list holds each pronoun's symbol and expanded key in order, then one empty row |
| ProfileForm.FlagLink | Viewer/Viewer/Profile.cs:298-314 | a non-custom row links to the terminology base plus its raw text. A custom row resolves exactly when the custom map holds its text, and then links to the CDN image of the first key carrying that label |
| ProfileForm.StandardFlagResolves | Viewer/Viewer/Profile.cs:308-311 | a standard-flag row links to the terminology page of its identifier, because the two tooltips differ |
| ProfileForm.CustomLabelResolves | Viewer/Viewer/Profile.cs:302-307 | a row showing custom entry j's label with the custom tooltip always resolves; when labels are distinct it links to the image of entry j's own key |
| ProfileForm.CustomFlagResolves | Viewer/Viewer/Profile.cs:302-307 | the row `FlagItems` builds for custom entry j always resolves; when labels are distinct it links to the image of entry j's own key |
| ProfileForm.LinkTarget | Viewer/Viewer/Profile.cs:316-319 | activating a link row opens the row's text as is, with no prefix and no escaping |
| ProfileForm.LinkItemsResolve | Viewer/Viewer/Profile.cs:316-319 | activating a link row opens the profile link it shows |
| ProfileForm.FlagListExample | Viewer/Viewer/Profile.cs:204-209 | standard flags `lesbian`, `bi` and custom `abc123: My Flag` give three rows in that order, linking to `terminology#lesbian` and the `abc123` CDN image |
| ProfileForm.DuplicateKeyExample | Viewer/Viewer/Profile.cs:130-136 | copying keys `a, b, a, b` fails on `a`, the third `Add`, although `b` repeats too |
| ProfileForm.UnknownRatingExample | Viewer/Viewer/Profile.cs:44 | a rating of 99 stops serialization with `UnknownRating(99)` rather than printing a default |

## Left out

- Network and file input: `FetchUser(string user)` builds the API URL and rejects an empty user name, then downloads the JSON and avatar. The local-load overload reads a file and hides the save button. Both are I/O. The model starts from an already-built `GlobalProfile`.
- JSON deserialization (`JsonConvert`) is a library call. A record that fails to parse is out of scope.
- Image decoding and the profile picture (`ImageUtils.ToImage`, `profilePicture`) are calls into image code.
- UI side effects are left out: setting `Text`, the user name, age and description labels, `Items.Clear`/`AddRange`, `MessageBox.Show` and `Process.Start`. The model returns the row sequences and the URL to open instead.
- When an exception escapes `FetchUserBase` part-way, the lists filled before it stay on screen. The model returns only the failure, not that partial state.
- Saving (`saveProfile_Click`, `HomeMenu.SaveProfile`) is persistence in a file that is not part of this model.
- The `globalProfile`/`primaryProfile` form fields are explicit inputs: `FetchUserBase` takes the record, and `FlagLink` takes the primary profile's custom flags.
- Age and description formatting are only copied into labels, so the model leaves them out.
- `names` and `pronouns` are taken as present. A null `names` would raise `NullReferenceException` in the serializer's `foreach`; a null `pronouns` would raise it earlier, in the `foreach` of `ParseNounPronouns`. Null elements inside `links`, `flags` or `words`, and null values in `customFlags` (whose `ToString()` in `GetAllItems` would throw inside `FetchUserBase`), are not modelled either.
- ProfileForm.IsNounPronoun models `StartsWith(":")` as an ordinal test of the first character. It does not model .NET's culture-sensitive comparison, which ignores zero-width characters.
- Profiles.GetAllItems is modelled for string values only, the one instantiation the form uses. The general `ToString()` conversion is out of scope.
- Strings are sequences of Unicode scalar values, not .NET UTF-16 code units. No length or index of the emoji symbols is observed by the source, so no behaviour depends on the difference.

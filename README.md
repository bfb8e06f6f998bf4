# Mood-tagged music catalog builder, in Dafny

This project models the catalog builder of a music-recommendation app, from
`Content-Recommendation-system_project/train_model.py`. The builder works in
these steps:

- For every supported language, every mood of the emoji table and every
  search phrase the term resolver gives for that (mood, language), it asks
  the track-search service for results.
- It drops each result whose lower-cased `title artist album` text contains
  a global disqualifying word or one of the mood's own negative keywords.
- It labels each survivor with the mood's emoji, the mood label and the
  language, and appends it to `all_tracks`.
- At the end it keeps the first row of each track id.
- `main` stops before writing anything when that table is empty.

## Files and modules

| file | module | contents |
|---|---|---|
| `wrappers.dfy` | `Wrappers` | `Option` (with `GetOr`, for `dict.get(key, default)`) and `Result` |
| `text.dfy` | `Text` | the Python string built-ins the builder uses: `sub in s`, `any(...)`, `str.lower()`, `str.replace`, `str()` of an optional integer |
| `records.dfy` | `Records` | a search result (`Item`), a mood (`Mood`), a catalog row (`Track`); the filter text, the artwork upsizing, the labelling step |
| `search_terms.dfy` | `SearchTerms` | `EMOJI_MAPPING`, `LOCALIZED_TERMS`, `DEFAULT_TERMS`, `LANGUAGES` as constants; `get_search_terms` |
| `dedup.dfy` | `Dedup` | `drop_duplicates(subset=['id'])`, keeping the first row of each id |
| `catalog.dfy` | `Builder` | `build_dataset` as an imperative method with four nested loops, proved equal to the functional specification `Catalog`; the mood filter loop `IsBadMatch`; `main`'s decision to stop or save |
| `catalog_properties.dfy` | `CatalogProperties` | provenance, completeness, order, failure and emptiness of the build, and first-wins de-duplication |
| `scenarios.dfy` | `Scenarios` | concrete runs: a title carrying another mood's keyword, a title that passes, and a network outage |

The builder is specified level by level. `ItemsFrom`, `TermsFrom`,
`MoodsFrom` and `LangsFrom` each continue the build from a loop position
with the rows appended so far. Each loop of `BuildDataset` keeps the
invariant "continuing from here gives the same result as the whole loop".
The method's postcondition is `r == Catalog(fetch, resolve, langs, moods)`.
All properties are then proved about `Catalog` and `Collect`, the value
`all_tracks` has before de-duplication.

Three things enter the model as parameters:

- **The search service** is a function `Fetch` from a phrase to the list of
  results. `fetch_from_itunes` returns `[]` on any failure, so a failed
  request is a phrase that maps to `[]`. As a function, `Fetch` gives the
  same results every time the same phrase is searched. Over the configured
  tables no phrase is searched twice, so this changes nothing there. For
  other resolvers, languages or mood tables, it is an assumption: the live
  service could answer a repeated phrase differently.
- **The resolver** is a parameter of `BuildDataset`. `RunMain` passes
  `ResolverOf(Tables)`, which is `get_search_terms` over the configured
  tables.
- **The language list and mood table** are parameters too. `RunMain`
  passes `Languages` and `EmojiMapping`.

### Behaviour choices

- **Missing artwork URL.** The code calls `.replace` on
  `item.get('artworkUrl100')` without a check (`train_model.py:162`). So a
  result that passes both filters but has no artwork URL raises, and the
  exception ends `build_dataset` and `main`. The model does the same:
  `Catalog` is then `Failure(MissingArtwork(item))` and `RunMain` ends in
  `Aborted`. `CatalogFailsExactly` states when this happens. The model does
  not skip such a result or give it a placeholder image.
- **Track ids.** The id is `str(item.get('trackId'))`
  (`train_model.py:158`), so a result without a `trackId` gets the id
  `"None"`. `IdString` models this.

## Model

| member | source | states |
|---|---|---|
| `Text.ContainsOccurs` | Content-Recommendation-system_project/train_model.py:146 | `neg in full_text` (the recursive `Contains`) holds exactly when some window of the text equals the keyword |
| `Text.ContainsAny` | Content-Recommendation-system_project/train_model.py:139 | `any(bad in full_text for bad in GLOBAL_NEGATIVE)` is true exactly when some listed word occurs in the text |
| `Text.LowerChars` | Content-Recommendation-system_project/train_model.py:136 | `.lower()` maps every character on its own through the lower-case mapping, and its result has no upper-case letter |
| `Text.LowerIdempotent` | Content-Recommendation-system_project/train_model.py:136 | lower-casing the filter text a second time changes nothing |
| `Text.LowerOfLower` | Content-Recommendation-system_project/train_model.py:136 | lower-casing text that is already lower case changes nothing |
| `Text.ReplaceAllLength` | Content-Recommendation-system_project/train_model.py:162 | replacing a pattern by one of the same length keeps the string's length |
| `Text.ReplaceAllAbsent` | Content-Recommendation-system_project/train_model.py:162 | `replace` leaves a string without the pattern unchanged |
| `Text.ReplaceAllRemoves` | Content-Recommendation-system_project/train_model.py:162 | after a left-to-right, non-overlapping `replace`, the pattern occurs nowhere, provided neither string's first character occurs in the other (true of `100x100` and `600x600`) |
| `Text.IntToString` | Content-Recommendation-system_project/train_model.py:158 | `str()` of an integer is a non-empty string that starts with `-` exactly for negative numbers |
| `Text.ParseNatToString` | Content-Recommendation-system_project/train_model.py:158 | reading back the decimal form of a natural number gives the number |
| `Text.IdStringInjective` | Content-Recommendation-system_project/train_model.py:158 | `str(item.get('trackId'))` gives different strings for different track ids (and for a missing id), so de-duplicating by `id` is de-duplicating by `trackId` |
| `Records.SearchTextIsLower` | Content-Recommendation-system_project/train_model.py:133-136 | the text every filter looks at is lower case, one character per character of song, artist and album plus the two separating spaces |
| `Records.UpsizeRemovesThumbnail` | Content-Recommendation-system_project/train_model.py:162 | the upsized artwork URL has the same length and contains `100x100` nowhere |
| `Records.UpsizeKeepsOtherUrls` | Content-Recommendation-system_project/train_model.py:162 | an artwork URL without `100x100` is stored as it is |
| `Records.MakeTrackFaithful` | Content-Recommendation-system_project/train_model.py:157-168 | a row carries the emoji, mood label and language of its iteration; its id is `str(trackId)`; its title, artist, album and preview link are the item's own (so it has the item's filter text); its image URL is the upsized artwork, of the same length and without the thumbnail size; two rows have the same id exactly when their items have the same `trackId` |
| `SearchTerms.LocalizedTermsUsed` | Content-Recommendation-system_project/train_model.py:107-108 | with a localized entry for the (label, language) pair, the resolver returns exactly that list, in order |
| `SearchTerms.FallbackTerms` | Content-Recommendation-system_project/train_model.py:110-114 | with no localized entry, the result has the length of the base list (`DEFAULT_TERMS[label]`, or `[label.lower()]`): it is that list for English, and element i is `base[i] + " " + lang` otherwise |
| `SearchTerms.Suffixed` | Content-Recommendation-system_project/train_model.py:114 | the comprehension keeps the number of phrases and appends `" " + lang` to each |
| `SearchTerms.SuffixedStrip` | Content-Recommendation-system_project/train_model.py:114 | each suffixed phrase splits back into the phrase and `" " + lang` |
| `SearchTerms.TablesNonEmpty` | Content-Recommendation-system_project/train_model.py:28-82 | no list in either phrase table is empty |
| `SearchTerms.SearchTermsNonEmpty` | Content-Recommendation-system_project/train_model.py:106-114 | over tables without an empty list, the resolver never returns an empty list |
| `SearchTerms.CoolInSpanish` | Content-Recommendation-system_project/train_model.py:79 | `("Cool", "Spanish")` resolves to `["cool Spanish", "jazz Spanish", "smooth Spanish"]` |
| `SearchTerms.UnmappedLabel` | Content-Recommendation-system_project/train_model.py:110-114 | for any tables and language, a label in neither table searches for its lower-cased self alone: unchanged in English, followed by `" " + lang` in any other language |
| `SearchTerms.ChillUnmapped` | Content-Recommendation-system_project/train_model.py:111 | over the configured tables, the unmapped label "Chill" gives `["chill"]` in English and `["chill Hindi"]` in Hindi |
| `SearchTerms.EveryMoodHasTerms` | Content-Recommendation-system_project/train_model.py:10-82 | every mood label of the emoji table is in one of the two phrase tables, and every localized mood has phrases for all five languages |
| `SearchTerms.EmojisDistinct` | Content-Recommendation-system_project/train_model.py:10-24 | the emoji keys of the mood table are distinct |
| `Dedup.FirstIndex` | Content-Recommendation-system_project/train_model.py:172 | the first position of the table that carries a given id |
| `Dedup.DedupIds` | Content-Recommendation-system_project/train_model.py:172 | de-duplication keeps exactly the set of ids of its input |
| `Dedup.DedupDistinct` | Content-Recommendation-system_project/train_model.py:172 | the ids of the de-duplicated table are pairwise distinct |
| `Dedup.DedupKeepsFirst` | Content-Recommendation-system_project/train_model.py:172 | each kept row is the first row of the input with its id |
| `Dedup.DedupKeepsOrder` | Content-Recommendation-system_project/train_model.py:172 | kept rows appear in the order of their first occurrences in the input |
| `Dedup.DedupMembership` | Content-Recommendation-system_project/train_model.py:172 | a row is in the output exactly when it is in the input and is the first row with its id |
| `Dedup.DedupEmpty` | Content-Recommendation-system_project/train_model.py:172 | the output is empty exactly when the input is |
| `Dedup.DedupConstant` | Content-Recommendation-system_project/train_model.py:172 | a table that repeats one row is reduced to that row |
| `Builder.IsBadMatch` | Content-Recommendation-system_project/train_model.py:143-149 | the flag loop with its early `break` sets `is_bad_match` exactly when one of the mood's keywords occurs in the text |
| `Builder.BuildDataset` | Content-Recommendation-system_project/train_model.py:116-173 | the four nested loops (languages, moods, phrases, results) with both filters, the labelling and the final de-duplication compute `Catalog`; a kept result without artwork ends the build with `MissingArtwork` |
| `Builder.RunMain` | Content-Recommendation-system_project/train_model.py:197-209 | over the configured tables: a build that raises ends the run with its error; an empty catalog stops it before anything is saved; a non-empty catalog is always saved, and it is the de-duplicated table the build returned |
| `CatalogProperties.ItemsFromSound` | Content-Recommendation-system_project/train_model.py:132-168 | each row appended while scanning one search's results comes from a result of that search that passed both filters, and carries that iteration's labels |
| `CatalogProperties.TermsFromSound` | Content-Recommendation-system_project/train_model.py:129-168 | the same, over the phrases of one mood in one language |
| `CatalogProperties.MoodsFromSound` | Content-Recommendation-system_project/train_model.py:125-168 | the same, over the moods of one language |
| `CatalogProperties.LangsFromSound` | Content-Recommendation-system_project/train_model.py:123-168 | the same, over all languages |
| `CatalogProperties.ItemsFromGrows` | Content-Recommendation-system_project/train_model.py:168 | scanning results only appends: the rows before it stay a prefix |
| `CatalogProperties.TermsFromGrows` | Content-Recommendation-system_project/train_model.py:129-168 | the same, over phrases |
| `CatalogProperties.MoodsFromGrows` | Content-Recommendation-system_project/train_model.py:125-168 | the same, over moods |
| `CatalogProperties.LangsFromGrows` | Content-Recommendation-system_project/train_model.py:123-168 | the same, over languages |
| `CatalogProperties.ItemsFromComplete` | Content-Recommendation-system_project/train_model.py:132-168 | if the scan goes through, every remaining result that passes both filters has artwork and its labelled row is appended |
| `CatalogProperties.TermsFromComplete` | Content-Recommendation-system_project/train_model.py:129-168 | the same, over the remaining phrases |
| `CatalogProperties.MoodsFromComplete` | Content-Recommendation-system_project/train_model.py:125-168 | the same, over the remaining moods |
| `CatalogProperties.LangsFromComplete` | Content-Recommendation-system_project/train_model.py:123-168 | the same, over the remaining languages |
| `CatalogProperties.ItemsFromFails` | Content-Recommendation-system_project/train_model.py:162 | a scan stops only on a remaining result that passed both filters and has no artwork, and the error names it |
| `CatalogProperties.TermsFromFails` | Content-Recommendation-system_project/train_model.py:129-162 | the same, over the remaining phrases |
| `CatalogProperties.MoodsFromFails` | Content-Recommendation-system_project/train_model.py:125-162 | the same, over the remaining moods |
| `CatalogProperties.LangsFromFails` | Content-Recommendation-system_project/train_model.py:123-162 | the same, over the remaining languages |
| `CatalogProperties.ItemsFromOrder` | Content-Recommendation-system_project/train_model.py:132-168 | a scan appends the kept results of one search in the order the service returned them |
| `CatalogProperties.TermsFromOrder` | Content-Recommendation-system_project/train_model.py:129-168 | the phrases of a mood contribute their rows phrase after phrase |
| `CatalogProperties.MoodsFromOrder` | Content-Recommendation-system_project/train_model.py:125-168 | the moods of a language contribute their rows mood after mood |
| `CatalogProperties.LangsFromOrder` | Content-Recommendation-system_project/train_model.py:123-168 | the languages contribute their rows language after language |
| `CatalogProperties.CollectOrder` | Content-Recommendation-system_project/train_model.py:123-168 | unless the build stops, `all_tracks` is the concatenation, language-major, then by mood, then by phrase, then in result order, of the labelled results that pass both filters |
| `CatalogProperties.FailedSearchSkipped` | Content-Recommendation-system_project/train_model.py:98-104 | a search that failed (no results) adds no rows, and the build goes on with the next phrase |
| `CatalogProperties.CatalogRowsPassFilters` | Content-Recommendation-system_project/train_model.py:121-172 | every catalog row comes from a search result of the build. Its text contains no global disqualifying word. It carries a searched language. Some mood of the table has its emoji and label, and its text contains none of that mood's keywords |
| `CatalogProperties.CatalogComplete` | Content-Recommendation-system_project/train_model.py:123-172 | unless the build stops, every result that passes both filters under a mood has artwork, its labelled row is in `all_tracks`, and its id is in the catalog |
| `CatalogProperties.CatalogFailsExactly` | Content-Recommendation-system_project/train_model.py:162 | the build stops exactly when some result that passes both filters has no artwork URL, and the error names such a result |
| `CatalogProperties.CatalogEmptyExactly` | Content-Recommendation-system_project/train_model.py:139-172 | the catalog is empty exactly when no result of any search passes both filters of its mood |
| `CatalogProperties.NoResultsNoCatalog` | Content-Recommendation-system_project/train_model.py:198-202 | when every search comes back empty, the catalog is empty, so `main` stops before saving |
| `CatalogProperties.CatalogFirstWins` | Content-Recommendation-system_project/train_model.py:172 | the catalog's ids are distinct, it has exactly the ids of `all_tracks`, and its row for an id is the first row of `all_tracks` with that id |
| `Scenarios.HappyAndSadConfigured` | Content-Recommendation-system_project/train_model.py:11-12 | the first two moods of the table are Happy and Sad with their keyword lists |
| `Scenarios.SadRejectsHappyHit` | Content-Recommendation-system_project/train_model.py:133-154 | a result titled "Happy" is dropped under Sad: its lower-cased text contains Sad's keyword "happy" |
| `Scenarios.SadKeepsBlueHit` | Content-Recommendation-system_project/train_model.py:139-168 | a result titled "Blue" passes both filters under Sad and is labelled Sad, in English, with the Sad emoji, its id the decimal text of its track id |
| `Scenarios.HappyKeepsHappyHit` | Content-Recommendation-system_project/train_model.py:139-154 | the same "Happy" passes both filters under Happy: another mood's keyword does not exclude it |
| `Scenarios.SadBuild` | Content-Recommendation-system_project/train_model.py:123-172 | building Sad in English, with every phrase finding both "Happy" and "Blue", gives exactly one row, the labelled "Blue", although every phrase found it |
| `Scenarios.OutageBuildsNothing` | Content-Recommendation-system_project/train_model.py:98-104 | with every request failing, the configured build gives an empty catalog |

## Left out

- The HTTP request in `fetch_from_itunes` is left out: the URL, the query
  parameters, the 10-second timeout, the status check, JSON decoding and
  the error message (`train_model.py:87-104`). It is network I/O. Its
  result, including `[]` on any failure, is the `Fetch` parameter. The
  result limit of 12 belongs to that request too.
- `time.sleep(0.1)` between searches (`train_model.py:169`) is throttling
  only. It has no effect on the result.
- The `print` progress messages are left out.
- `train_and_save_pipeline`, `os.makedirs`, the CSV export and the
  `joblib` dump are file persistence (`train_model.py:175-209`). They are
  left out. `RunMain` reports the table it would save as `Saved(catalog)`.
  The `RandomForestClassifier` import is never used.
- The pandas `DataFrame` is modelled as a sequence of `Track` rows, and
  `drop_duplicates` as first-wins de-duplication. Column types and index
  handling are not modelled.
- `Content-Recommendation-system_project/app.py` is not part of this
  model. It holds the Streamlit display, the liked-songs file, video lookup
  and random sampling of recommendations.
- `Text.Lower`: `str.lower()` is modelled for ASCII letters only. Python
  also lower-cases other scripts (and a few characters change length),
  which the model does not capture.
- Null fields: a field that is present but null in the service's
  JSON is modelled like a missing field (the empty string). Python would
  give `None`, and the f-string would then put the text `none` in the
  filter text.
- Configuration as parameters: the language list, the mood table and the
  resolver are parameters of `BuildDataset`. Only `RunMain` fixes them to the configured tables. Over
  the configured tables, the general lemmas apply with
  `resolve := ResolverOf(Tables)`.
- `Text.IntToString`: the contract states that the result is non-empty and
  where the sign goes. Injectivity is proved for the id as a whole
  (`IdStringInjective`). It is not proved that the result is exactly
  Python's decimal text for every integer.

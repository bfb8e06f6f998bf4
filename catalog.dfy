/**
 * The catalog builder: for every language, every mood and every search phrase,
 * search the track service, drop the candidates a filter rejects, label the
 * rest with the mood and language, and finally keep the first row of each id.
 */
module Builder {
  import opened Wrappers
  import opened Text
  import opened Records
  import opened SearchTerms
  import opened Dedup

  /** Words that disqualify a candidate under every mood. */
  const GlobalNegative: seq<string> := ["karaoke", "tribute", "cover", "ringtone", "podcast", "commentary"]

  /**
   * The track-search service, queried with a phrase and a limit of 12 results.
   * A request that fails (network error, timeout, status other than 200)
   * answers with no results.
   */
  type Fetch = string -> seq<Item>

  /** The search-term resolver, as a function of mood label and language. */
  type Resolver = (string, string) -> seq<string>

  /** `get_search_terms` over the given phrase tables. */
  function ResolverOf(tables: TermTables): Resolver {
    (moodLabel: string, lang: string) => GetSearchTerms(tables, moodLabel, lang)
  }

  /**
   * The only way a build stops early: a candidate that passed the filters has
   * no artwork URL, and upsizing it fails.
   */
  datatype BuildError = MissingArtwork(item: Item)

  /** A candidate is kept under `mood` when neither the global nor the mood's own keywords occur in its text. */
  predicate Accept(item: Item, mood: Mood) {
    var text := FullText(item);
    !ContainsAny(text, GlobalNegative) && !ContainsAny(text, mood.negative)
  }

  /** The mood filter: scan the mood's keywords and stop at the first one found in `fullText`. */
  method IsBadMatch(fullText: string, negative: seq<string>) returns (isBadMatch: bool)
    ensures isBadMatch <==> exists neg :: neg in negative && Contains(fullText, neg)
  {
    isBadMatch := false;
    var k := 0;
    while k < |negative|
      invariant 0 <= k <= |negative|
      invariant forall q :: 0 <= q < k ==> !Contains(fullText, negative[q])
    {
      if Contains(fullText, negative[k]) {
        assert negative[k] in negative;
        isBadMatch := true;
        break;
      }
      k := k + 1;
    }
  }

  // ---------------------------------------------------------------------
  // The build, level by level. Each function continues the build from a
  // position with the rows `acc` appended so far, exactly as the loop at
  // that level does.
  // ---------------------------------------------------------------------

  /** Scanning the results `items[l..]` of one search. */
  function ItemsFrom(items: seq<Item>, l: nat, mood: Mood, lang: string, acc: seq<Track>): Result<seq<Track>, BuildError>
    requires l <= |items|
    decreases |items| - l
  {
    if l == |items| then Success(acc)
    else
      var item := items[l];
      if !Accept(item, mood) then ItemsFrom(items, l + 1, mood, lang, acc)
      else if item.artworkUrl100.None? then Failure(MissingArtwork(item))
      else ItemsFrom(items, l + 1, mood, lang, acc + [MakeTrack(item, mood, lang)])
  }

  /** Searching the phrases `terms[k..]` of one mood in one language. */
  function TermsFrom(fetch: Fetch, terms: seq<string>, k: nat, mood: Mood, lang: string, acc: seq<Track>): Result<seq<Track>, BuildError>
    requires k <= |terms|
    decreases |terms| - k
  {
    if k == |terms| then Success(acc)
    else
      match ItemsFrom(fetch(terms[k]), 0, mood, lang, acc)
      case Failure(e) => Failure(e)
      case Success(acc') => TermsFrom(fetch, terms, k + 1, mood, lang, acc')
  }

  /** Visiting the moods `moods[j..]` in one language. */
  function MoodsFrom(fetch: Fetch, resolve: Resolver, moods: seq<Mood>, j: nat, lang: string, acc: seq<Track>): Result<seq<Track>, BuildError>
    requires j <= |moods|
    decreases |moods| - j
  {
    if j == |moods| then Success(acc)
    else
      match TermsFrom(fetch, resolve(moods[j].moodLabel, lang), 0, moods[j], lang, acc)
      case Failure(e) => Failure(e)
      case Success(acc') => MoodsFrom(fetch, resolve, moods, j + 1, lang, acc')
  }

  /** Visiting the languages `langs[i..]`. */
  function LangsFrom(fetch: Fetch, resolve: Resolver, langs: seq<string>, moods: seq<Mood>, i: nat, acc: seq<Track>): Result<seq<Track>, BuildError>
    requires i <= |langs|
    decreases |langs| - i
  {
    if i == |langs| then Success(acc)
    else
      match MoodsFrom(fetch, resolve, moods, 0, langs[i], acc)
      case Failure(e) => Failure(e)
      case Success(acc') => LangsFrom(fetch, resolve, langs, moods, i + 1, acc')
  }

  /** `all_tracks` at the end of the three loops. */
  function Collect(fetch: Fetch, resolve: Resolver, langs: seq<string>, moods: seq<Mood>): Result<seq<Track>, BuildError> {
    LangsFrom(fetch, resolve, langs, moods, 0, [])
  }

  /** What `build_dataset()` returns: the de-duplicated table, or the error that ended it. */
  function Catalog(fetch: Fetch, resolve: Resolver, langs: seq<string>, moods: seq<Mood>): Result<seq<Track>, BuildError> {
    match Collect(fetch, resolve, langs, moods)
    case Failure(e) => Failure(e)
    case Success(all) => Success(DedupFirst(all))
  }

  /** `build_dataset()`, over the resolver, language list and mood table it is given. */
  method BuildDataset(fetch: Fetch, resolve: Resolver, langs: seq<string>, moods: seq<Mood>)
    returns (r: Result<seq<Track>, BuildError>)
    ensures r == Catalog(fetch, resolve, langs, moods)
  {
    var allTracks: seq<Track> := [];
    var i := 0;
    while i < |langs|
      invariant 0 <= i <= |langs|
      invariant Collect(fetch, resolve, langs, moods) == LangsFrom(fetch, resolve, langs, moods, i, allTracks)
    {
      var lang := langs[i];
      ghost var atLang := allTracks;
      var j := 0;
      while j < |moods|
        invariant 0 <= j <= |moods|
        invariant MoodsFrom(fetch, resolve, moods, 0, lang, atLang) == MoodsFrom(fetch, resolve, moods, j, lang, allTracks)
      {
        var mood := moods[j];
        var terms := resolve(mood.moodLabel, lang);
        ghost var atMood := allTracks;
        var k := 0;
        while k < |terms|
          invariant 0 <= k <= |terms|
          invariant TermsFrom(fetch, terms, 0, mood, lang, atMood) == TermsFrom(fetch, terms, k, mood, lang, allTracks)
        {
          var results := fetch(terms[k]);
          ghost var atTerm := allTracks;
          var l := 0;
          while l < |results|
            invariant 0 <= l <= |results|
            invariant ItemsFrom(results, 0, mood, lang, atTerm) == ItemsFrom(results, l, mood, lang, allTracks)
          {
            var item := results[l];
            var fullText := FullText(item);
            if ContainsAny(fullText, GlobalNegative) {
              assert !Accept(item, mood);
            } else {
              var isBadMatch := IsBadMatch(fullText, mood.negative);
              if isBadMatch {
                assert !Accept(item, mood);
              } else {
                assert Accept(item, mood);
                if item.artworkUrl100.None? {
                  // Upsizing the missing URL raises, and nothing catches it.
                  var e := MissingArtwork(item);
                  assert ItemsFrom(results, 0, mood, lang, atTerm) == Failure(e);
                  assert TermsFrom(fetch, terms, 0, mood, lang, atMood) == Failure(e);
                  assert MoodsFrom(fetch, resolve, moods, 0, lang, atLang) == Failure(e);
                  assert Collect(fetch, resolve, langs, moods) == Failure(e);
                  return Failure(e);
                }
                allTracks := allTracks + [MakeTrack(item, mood, lang)];
              }
            }
            l := l + 1;
          }
          k := k + 1;
        }
        j := j + 1;
      }
      i := i + 1;
    }
    r := Success(DedupFirst(allTracks));
  }

  /** How a run of the training script ends. */
  datatype RunOutcome =
    | Aborted(error: BuildError)    // the build raised
    | NoTracks                      // nothing was found: the script stops before writing anything
    | Saved(catalog: seq<Track>)    // the table handed to the CSV export and the model bundle

  /** `main()`: build the catalog over the configured tables and decide whether to persist it. */
  method RunMain(fetch: Fetch) returns (outcome: RunOutcome)
    ensures outcome == match Catalog(fetch, ResolverOf(Tables), Languages, EmojiMapping)
      case Failure(e) => Aborted(e)
      case Success(c) => if c == [] then NoTracks else Saved(c)
    ensures outcome.Saved? <==>
      (Catalog(fetch, ResolverOf(Tables), Languages, EmojiMapping).Success? &&
       Catalog(fetch, ResolverOf(Tables), Languages, EmojiMapping).value != [])
  {
    var built := BuildDataset(fetch, ResolverOf(Tables), Languages, EmojiMapping);
    match built
    case Failure(e) =>
      outcome := Aborted(e);
    case Success(df) =>
      if df == [] {
        outcome := NoTracks;
      } else {
        outcome := Saved(df);
      }
  }
}

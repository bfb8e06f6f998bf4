/**
 * What the catalog builder guarantees: every row comes from a search result
 * that passed both filters and carries the labels of the iteration that found
 * it; every such result is labelled unless the build stopped; the build stops
 * exactly when such a result has no artwork URL; and the final table keeps the
 * first row of each id.
 */
module CatalogProperties {
  import opened Wrappers
  import opened Text
  import opened Records
  import opened Dedup
  import opened Builder

  /** `t` is the row the builder makes for `item` under `mood` in `lang`. */
  ghost predicate Labels(item: Item, mood: Mood, lang: string, t: Track) {
    Accept(item, mood) && item.artworkUrl100.Some? && t == MakeTrack(item, mood, lang)
  }

  /** The builder looks at `item` under `mood` in `lang` because a search for `term` returned it. */
  ghost predicate Candidate(fetch: Fetch, resolve: Resolver, langs: seq<string>, moods: seq<Mood>,
                            lang: string, mood: Mood, term: string, item: Item) {
    lang in langs && mood in moods && term in resolve(mood.moodLabel, lang) && item in fetch(term)
  }

  /** Some candidate of the build yields the row `t`. */
  ghost predicate Produced(fetch: Fetch, resolve: Resolver, langs: seq<string>, moods: seq<Mood>, t: Track) {
    exists lang, mood, term, item :: Candidate(fetch, resolve, langs, moods, lang, mood, term, item) && Labels(item, mood, lang, t)
  }

  lemma PrefixMembers(a: seq<Track>, b: seq<Track>)
    requires a <= b
    ensures forall t :: t in a ==> t in b
  {
    forall t | t in a ensures t in b {
      var i :| 0 <= i < |a| && a[i] == t;
      assert b[i] == t;
    }
  }

  // ---------------------------------------------------------------------
  // Soundness: a row is either already there or labels a candidate.
  // ---------------------------------------------------------------------

  lemma {:induction false} ItemsFromSound(items: seq<Item>, l: nat, mood: Mood, lang: string, acc: seq<Track>)
    requires l <= |items|
    ensures ItemsFrom(items, l, mood, lang, acc).Success? ==>
      forall t :: t in ItemsFrom(items, l, mood, lang, acc).value ==>
        t in acc || exists item :: item in items && Labels(item, mood, lang, t)
    decreases |items| - l
  {
    if l < |items| {
      var item := items[l];
      if !Accept(item, mood) {
        ItemsFromSound(items, l + 1, mood, lang, acc);
      } else if item.artworkUrl100.Some? {
        var row := MakeTrack(item, mood, lang);
        ItemsFromSound(items, l + 1, mood, lang, acc + [row]);
        assert Labels(item, mood, lang, row);
      }
    }
  }

  lemma {:induction false} TermsFromSound(fetch: Fetch, terms: seq<string>, k: nat, mood: Mood, lang: string, acc: seq<Track>)
    requires k <= |terms|
    ensures TermsFrom(fetch, terms, k, mood, lang, acc).Success? ==>
      forall t :: t in TermsFrom(fetch, terms, k, mood, lang, acc).value ==>
        t in acc || exists term, item :: term in terms && item in fetch(term) && Labels(item, mood, lang, t)
    decreases |terms| - k
  {
    if k < |terms| {
      var items := fetch(terms[k]);
      ItemsFromSound(items, 0, mood, lang, acc);
      match ItemsFrom(items, 0, mood, lang, acc)
      case Failure(_) =>
      case Success(acc') =>
        TermsFromSound(fetch, terms, k + 1, mood, lang, acc');
        assert terms[k] in terms;
    }
  }

  lemma {:induction false} MoodsFromSound(fetch: Fetch, resolve: Resolver, moods: seq<Mood>, j: nat, lang: string, acc: seq<Track>)
    requires j <= |moods|
    ensures MoodsFrom(fetch, resolve, moods, j, lang, acc).Success? ==>
      forall t :: t in MoodsFrom(fetch, resolve, moods, j, lang, acc).value ==>
        t in acc || exists mood, term, item :: (mood in moods && term in resolve(mood.moodLabel, lang)
          && item in fetch(term) && Labels(item, mood, lang, t))
    decreases |moods| - j
  {
    if j < |moods| {
      var mood := moods[j];
      TermsFromSound(fetch, resolve(mood.moodLabel, lang), 0, mood, lang, acc);
      match TermsFrom(fetch, resolve(mood.moodLabel, lang), 0, mood, lang, acc)
      case Failure(_) =>
      case Success(acc') =>
        MoodsFromSound(fetch, resolve, moods, j + 1, lang, acc');
        assert mood in moods;
    }
  }

  lemma {:induction false} LangsFromSound(fetch: Fetch, resolve: Resolver, langs: seq<string>, moods: seq<Mood>, i: nat, acc: seq<Track>)
    requires i <= |langs|
    ensures LangsFrom(fetch, resolve, langs, moods, i, acc).Success? ==>
      forall t :: t in LangsFrom(fetch, resolve, langs, moods, i, acc).value ==> t in acc || Produced(fetch, resolve, langs, moods, t)
    decreases |langs| - i
  {
    if i < |langs| {
      var lang := langs[i];
      MoodsFromSound(fetch, resolve, moods, 0, lang, acc);
      match MoodsFrom(fetch, resolve, moods, 0, lang, acc)
      case Failure(_) =>
      case Success(acc') =>
        LangsFromSound(fetch, resolve, langs, moods, i + 1, acc');
        var out := LangsFrom(fetch, resolve, langs, moods, i, acc);
        if out.Success? {
          forall t | t in out.value && t !in acc && t in acc' ensures Produced(fetch, resolve, langs, moods, t) {
            var mood, term, item :| mood in moods && term in resolve(mood.moodLabel, lang)
              && item in fetch(term) && Labels(item, mood, lang, t);
            assert Candidate(fetch, resolve, langs, moods, lang, mood, term, item);
          }
        }
    }
  }

  // ---------------------------------------------------------------------
  // Completeness: when the build goes through, the rows already appended
  // stay in front, and every candidate that passes the filters is labelled.
  // ---------------------------------------------------------------------

  lemma {:induction false} ItemsFromGrows(items: seq<Item>, l: nat, mood: Mood, lang: string, acc: seq<Track>)
    requires l <= |items|
    ensures ItemsFrom(items, l, mood, lang, acc).Success? ==> acc <= ItemsFrom(items, l, mood, lang, acc).value
    decreases |items| - l
  {
    if l < |items| {
      var item := items[l];
      var acc' := if Accept(item, mood) && item.artworkUrl100.Some? then acc + [MakeTrack(item, mood, lang)] else acc;
      ItemsFromGrows(items, l + 1, mood, lang, acc');
    }
  }

  lemma {:induction false} TermsFromGrows(fetch: Fetch, terms: seq<string>, k: nat, mood: Mood, lang: string, acc: seq<Track>)
    requires k <= |terms|
    ensures TermsFrom(fetch, terms, k, mood, lang, acc).Success? ==> acc <= TermsFrom(fetch, terms, k, mood, lang, acc).value
    decreases |terms| - k
  {
    if k < |terms| {
      ItemsFromGrows(fetch(terms[k]), 0, mood, lang, acc);
      match ItemsFrom(fetch(terms[k]), 0, mood, lang, acc)
      case Failure(_) =>
      case Success(acc') => TermsFromGrows(fetch, terms, k + 1, mood, lang, acc');
    }
  }

  lemma {:induction false} MoodsFromGrows(fetch: Fetch, resolve: Resolver, moods: seq<Mood>, j: nat, lang: string, acc: seq<Track>)
    requires j <= |moods|
    ensures MoodsFrom(fetch, resolve, moods, j, lang, acc).Success? ==> acc <= MoodsFrom(fetch, resolve, moods, j, lang, acc).value
    decreases |moods| - j
  {
    if j < |moods| {
      var terms := resolve(moods[j].moodLabel, lang);
      TermsFromGrows(fetch, terms, 0, moods[j], lang, acc);
      match TermsFrom(fetch, terms, 0, moods[j], lang, acc)
      case Failure(_) =>
      case Success(acc') => MoodsFromGrows(fetch, resolve, moods, j + 1, lang, acc');
    }
  }

  lemma {:induction false} LangsFromGrows(fetch: Fetch, resolve: Resolver, langs: seq<string>, moods: seq<Mood>, i: nat, acc: seq<Track>)
    requires i <= |langs|
    ensures LangsFrom(fetch, resolve, langs, moods, i, acc).Success? ==> acc <= LangsFrom(fetch, resolve, langs, moods, i, acc).value
    decreases |langs| - i
  {
    if i < |langs| {
      MoodsFromGrows(fetch, resolve, moods, 0, langs[i], acc);
      match MoodsFrom(fetch, resolve, moods, 0, langs[i], acc)
      case Failure(_) =>
      case Success(acc') => LangsFromGrows(fetch, resolve, langs, moods, i + 1, acc');
    }
  }

  lemma {:induction false} ItemsFromComplete(items: seq<Item>, l: nat, mood: Mood, lang: string, acc: seq<Track>)
    requires l <= |items|
    ensures var r := ItemsFrom(items, l, mood, lang, acc);
      r.Success? ==> forall item :: item in items[l..] && Accept(item, mood) ==>
        item.artworkUrl100.Some? && MakeTrack(item, mood, lang) in r.value
    decreases |items| - l
  {
    if l < |items| {
      var item := items[l];
      var acc' := if Accept(item, mood) && item.artworkUrl100.Some? then acc + [MakeTrack(item, mood, lang)] else acc;
      ItemsFromComplete(items, l + 1, mood, lang, acc');
      ItemsFromGrows(items, l + 1, mood, lang, acc');
      assert items[l..] == [item] + items[l + 1..];
      var r := ItemsFrom(items, l, mood, lang, acc);
      if r.Success? && Accept(item, mood) {
        PrefixMembers(acc', r.value);
        assert MakeTrack(item, mood, lang) in acc';
      }
    }
  }

  lemma {:induction false} TermsFromComplete(fetch: Fetch, terms: seq<string>, k: nat, mood: Mood, lang: string, acc: seq<Track>)
    requires k <= |terms|
    ensures var r := TermsFrom(fetch, terms, k, mood, lang, acc);
      r.Success? ==> forall term, item :: term in terms[k..] && item in fetch(term) && Accept(item, mood) ==>
        item.artworkUrl100.Some? && MakeTrack(item, mood, lang) in r.value
    decreases |terms| - k
  {
    if k < |terms| {
      var items := fetch(terms[k]);
      ItemsFromComplete(items, 0, mood, lang, acc);
      match ItemsFrom(items, 0, mood, lang, acc)
      case Failure(_) =>
      case Success(acc') =>
        TermsFromComplete(fetch, terms, k + 1, mood, lang, acc');
        TermsFromGrows(fetch, terms, k + 1, mood, lang, acc');
        var r := TermsFrom(fetch, terms, k, mood, lang, acc);
        if r.Success? {
          PrefixMembers(acc', r.value);
          forall term, item | term in terms[k..] && item in fetch(term) && Accept(item, mood)
            ensures item.artworkUrl100.Some? && MakeTrack(item, mood, lang) in r.value
          {
            if term == terms[k] {
              assert item in items[0..];
            } else {
              assert term in terms[k + 1..];
            }
          }
        }
    }
  }

  lemma {:induction false} MoodsFromComplete(fetch: Fetch, resolve: Resolver, moods: seq<Mood>, j: nat, lang: string, acc: seq<Track>)
    requires j <= |moods|
    ensures var r := MoodsFrom(fetch, resolve, moods, j, lang, acc);
      r.Success? ==> forall mood, term, item ::
        mood in moods[j..] && term in resolve(mood.moodLabel, lang) && item in fetch(term) && Accept(item, mood) ==>
          item.artworkUrl100.Some? && MakeTrack(item, mood, lang) in r.value
    decreases |moods| - j
  {
    if j < |moods| {
      var mood0 := moods[j];
      var terms := resolve(mood0.moodLabel, lang);
      TermsFromComplete(fetch, terms, 0, mood0, lang, acc);
      match TermsFrom(fetch, terms, 0, mood0, lang, acc)
      case Failure(_) =>
      case Success(acc') =>
        MoodsFromComplete(fetch, resolve, moods, j + 1, lang, acc');
        MoodsFromGrows(fetch, resolve, moods, j + 1, lang, acc');
        var r := MoodsFrom(fetch, resolve, moods, j, lang, acc);
        assert r == MoodsFrom(fetch, resolve, moods, j + 1, lang, acc');
        if r.Success? {
          PrefixMembers(acc', r.value);
          forall mood, term, item |
            mood in moods[j..] && term in resolve(mood.moodLabel, lang) && item in fetch(term) && Accept(item, mood)
            ensures item.artworkUrl100.Some? && MakeTrack(item, mood, lang) in r.value
          {
            if mood == mood0 {
              assert term in terms[0..];
              assert MakeTrack(item, mood, lang) in acc';
            } else {
              assert mood in moods[j + 1..];
            }
          }
        }
    }
  }

  lemma {:induction false} LangsFromComplete(fetch: Fetch, resolve: Resolver, langs: seq<string>, moods: seq<Mood>, i: nat, acc: seq<Track>)
    requires i <= |langs|
    ensures var r := LangsFrom(fetch, resolve, langs, moods, i, acc);
      r.Success? ==> forall lang, mood, term, item ::
        lang in langs[i..] && Candidate(fetch, resolve, langs, moods, lang, mood, term, item) && Accept(item, mood) ==>
          item.artworkUrl100.Some? && MakeTrack(item, mood, lang) in r.value
    decreases |langs| - i
  {
    if i < |langs| {
      var lang0 := langs[i];
      MoodsFromComplete(fetch, resolve, moods, 0, lang0, acc);
      match MoodsFrom(fetch, resolve, moods, 0, lang0, acc)
      case Failure(_) =>
      case Success(acc') =>
        LangsFromComplete(fetch, resolve, langs, moods, i + 1, acc');
        LangsFromGrows(fetch, resolve, langs, moods, i + 1, acc');
        var r := LangsFrom(fetch, resolve, langs, moods, i, acc);
        assert r == LangsFrom(fetch, resolve, langs, moods, i + 1, acc');
        if r.Success? {
          PrefixMembers(acc', r.value);
          forall lang, mood, term, item |
            lang in langs[i..] && Candidate(fetch, resolve, langs, moods, lang, mood, term, item) && Accept(item, mood)
            ensures item.artworkUrl100.Some? && MakeTrack(item, mood, lang) in r.value
          {
            if lang == lang0 {
              assert mood in moods[0..];
              assert MakeTrack(item, mood, lang) in acc';
            } else {
              assert lang in langs[i + 1..];
            }
          }
        }
    }
  }

  // ---------------------------------------------------------------------
  // Failure: the build stops only on a candidate that passed the filters
  // and has no artwork URL.
  // ---------------------------------------------------------------------

  lemma {:induction false} ItemsFromFails(items: seq<Item>, l: nat, mood: Mood, lang: string, acc: seq<Track>)
    requires l <= |items|
    ensures var r := ItemsFrom(items, l, mood, lang, acc);
      r.Failure? ==> r.error.item in items[l..] && Accept(r.error.item, mood) && r.error.item.artworkUrl100.None?
    decreases |items| - l
  {
    if l < |items| {
      var item := items[l];
      var acc' := if Accept(item, mood) && item.artworkUrl100.Some? then acc + [MakeTrack(item, mood, lang)] else acc;
      ItemsFromFails(items, l + 1, mood, lang, acc');
      assert items[l..] == [item] + items[l + 1..];
    }
  }

  lemma {:induction false} TermsFromFails(fetch: Fetch, terms: seq<string>, k: nat, mood: Mood, lang: string, acc: seq<Track>)
    requires k <= |terms|
    ensures var r := TermsFrom(fetch, terms, k, mood, lang, acc);
      r.Failure? ==> exists term :: (term in terms[k..] && r.error.item in fetch(term)
        && Accept(r.error.item, mood) && r.error.item.artworkUrl100.None?)
    decreases |terms| - k
  {
    if k < |terms| {
      var items := fetch(terms[k]);
      ItemsFromFails(items, 0, mood, lang, acc);
      assert items[0..] == items;
      assert terms[k..] == [terms[k]] + terms[k + 1..];
      match ItemsFrom(items, 0, mood, lang, acc)
      case Failure(_) =>
      case Success(acc') =>
        TermsFromFails(fetch, terms, k + 1, mood, lang, acc');
    }
  }

  lemma {:induction false} MoodsFromFails(fetch: Fetch, resolve: Resolver, moods: seq<Mood>, j: nat, lang: string, acc: seq<Track>)
    requires j <= |moods|
    ensures var r := MoodsFrom(fetch, resolve, moods, j, lang, acc);
      r.Failure? ==> exists mood, term :: (mood in moods[j..] && term in resolve(mood.moodLabel, lang)
        && r.error.item in fetch(term) && Accept(r.error.item, mood) && r.error.item.artworkUrl100.None?)
    decreases |moods| - j
  {
    if j < |moods| {
      var mood := moods[j];
      var terms := resolve(mood.moodLabel, lang);
      TermsFromFails(fetch, terms, 0, mood, lang, acc);
      assert terms[0..] == terms;
      assert moods[j..] == [mood] + moods[j + 1..];
      match TermsFrom(fetch, terms, 0, mood, lang, acc)
      case Failure(_) =>
      case Success(acc') =>
        MoodsFromFails(fetch, resolve, moods, j + 1, lang, acc');
    }
  }

  lemma {:induction false} LangsFromFails(fetch: Fetch, resolve: Resolver, langs: seq<string>, moods: seq<Mood>, i: nat, acc: seq<Track>)
    requires i <= |langs|
    ensures var r := LangsFrom(fetch, resolve, langs, moods, i, acc);
      r.Failure? ==> exists lang, mood, term :: (lang in langs[i..]
        && Candidate(fetch, resolve, langs, moods, lang, mood, term, r.error.item)
        && Accept(r.error.item, mood) && r.error.item.artworkUrl100.None?)
    decreases |langs| - i
  {
    if i < |langs| {
      var lang := langs[i];
      MoodsFromFails(fetch, resolve, moods, 0, lang, acc);
      assert moods[0..] == moods;
      assert langs[i..] == [lang] + langs[i + 1..];
      match MoodsFrom(fetch, resolve, moods, 0, lang, acc)
      case Failure(e) =>
        var mood, term :| mood in moods && term in resolve(mood.moodLabel, lang)
          && e.item in fetch(term) && Accept(e.item, mood) && e.item.artworkUrl100.None?;
        assert Candidate(fetch, resolve, langs, moods, lang, mood, term, e.item);
      case Success(acc') =>
        LangsFromFails(fetch, resolve, langs, moods, i + 1, acc');
    }
  }

  // ---------------------------------------------------------------------
  // Order: the rows, when the build goes through, are the kept results
  // language by language, mood by mood, phrase by phrase, in result order.
  // ---------------------------------------------------------------------

  /** The rows one search contributes: its results that pass the filters, labelled, in order. */
  function KeptRows(items: seq<Item>, mood: Mood, lang: string): seq<Track> {
    if items == [] then []
    else
      var item := items[0];
      (if Accept(item, mood) && item.artworkUrl100.Some? then [MakeTrack(item, mood, lang)] else [])
        + KeptRows(items[1..], mood, lang)
  }

  function TermRows(fetch: Fetch, terms: seq<string>, mood: Mood, lang: string): seq<Track> {
    if terms == [] then [] else KeptRows(fetch(terms[0]), mood, lang) + TermRows(fetch, terms[1..], mood, lang)
  }

  function MoodRows(fetch: Fetch, resolve: Resolver, moods: seq<Mood>, lang: string): seq<Track> {
    if moods == [] then []
    else TermRows(fetch, resolve(moods[0].moodLabel, lang), moods[0], lang) + MoodRows(fetch, resolve, moods[1..], lang)
  }

  function LangRows(fetch: Fetch, resolve: Resolver, langs: seq<string>, moods: seq<Mood>): seq<Track> {
    if langs == [] then [] else MoodRows(fetch, resolve, moods, langs[0]) + LangRows(fetch, resolve, langs[1..], moods)
  }

  lemma {:induction false} ItemsFromOrder(items: seq<Item>, l: nat, mood: Mood, lang: string, acc: seq<Track>)
    requires l <= |items|
    ensures var r := ItemsFrom(items, l, mood, lang, acc);
      r.Success? ==> r.value == acc + KeptRows(items[l..], mood, lang)
    decreases |items| - l
  {
    if l < |items| {
      var item := items[l];
      var acc' := if Accept(item, mood) && item.artworkUrl100.Some? then acc + [MakeTrack(item, mood, lang)] else acc;
      ItemsFromOrder(items, l + 1, mood, lang, acc');
      assert items[l..][1..] == items[l + 1..];
    }
  }

  lemma {:induction false} TermsFromOrder(fetch: Fetch, terms: seq<string>, k: nat, mood: Mood, lang: string, acc: seq<Track>)
    requires k <= |terms|
    ensures var r := TermsFrom(fetch, terms, k, mood, lang, acc);
      r.Success? ==> r.value == acc + TermRows(fetch, terms[k..], mood, lang)
    decreases |terms| - k
  {
    if k < |terms| {
      ItemsFromOrder(fetch(terms[k]), 0, mood, lang, acc);
      assert fetch(terms[k])[0..] == fetch(terms[k]);
      assert terms[k..][1..] == terms[k + 1..];
      match ItemsFrom(fetch(terms[k]), 0, mood, lang, acc)
      case Failure(_) =>
      case Success(acc') => TermsFromOrder(fetch, terms, k + 1, mood, lang, acc');
    }
  }

  lemma {:induction false} MoodsFromOrder(fetch: Fetch, resolve: Resolver, moods: seq<Mood>, j: nat, lang: string, acc: seq<Track>)
    requires j <= |moods|
    ensures var r := MoodsFrom(fetch, resolve, moods, j, lang, acc);
      r.Success? ==> r.value == acc + MoodRows(fetch, resolve, moods[j..], lang)
    decreases |moods| - j
  {
    if j < |moods| {
      var terms := resolve(moods[j].moodLabel, lang);
      TermsFromOrder(fetch, terms, 0, moods[j], lang, acc);
      assert terms[0..] == terms;
      assert moods[j..][1..] == moods[j + 1..];
      match TermsFrom(fetch, terms, 0, moods[j], lang, acc)
      case Failure(_) =>
      case Success(acc') => MoodsFromOrder(fetch, resolve, moods, j + 1, lang, acc');
    }
  }

  lemma {:induction false} LangsFromOrder(fetch: Fetch, resolve: Resolver, langs: seq<string>, moods: seq<Mood>, i: nat, acc: seq<Track>)
    requires i <= |langs|
    ensures var r := LangsFrom(fetch, resolve, langs, moods, i, acc);
      r.Success? ==> r.value == acc + LangRows(fetch, resolve, langs[i..], moods)
    decreases |langs| - i
  {
    if i < |langs| {
      MoodsFromOrder(fetch, resolve, moods, 0, langs[i], acc);
      assert moods[0..] == moods;
      assert langs[i..][1..] == langs[i + 1..];
      match MoodsFrom(fetch, resolve, moods, 0, langs[i], acc)
      case Failure(_) =>
      case Success(acc') => LangsFromOrder(fetch, resolve, langs, moods, i + 1, acc');
    }
  }

  /** A search that fails (and so returns no results) adds nothing, and the build moves on to the next phrase. */
  lemma FailedSearchSkipped(fetch: Fetch, terms: seq<string>, k: nat, mood: Mood, lang: string, acc: seq<Track>)
    requires k < |terms| && fetch(terms[k]) == []
    ensures TermsFrom(fetch, terms, k, mood, lang, acc) == TermsFrom(fetch, terms, k + 1, mood, lang, acc)
    ensures KeptRows(fetch(terms[k]), mood, lang) == []
  {
  }

  // ---------------------------------------------------------------------
  // The build as a whole.
  // ---------------------------------------------------------------------

  /**
   * Unless the build stops, `all_tracks` is the concatenation, language-major,
   * then by mood, then by phrase, of the labelled results that pass the filters,
   * each search's results in the order the service returned them.
   */
  lemma CollectOrder(fetch: Fetch, resolve: Resolver, langs: seq<string>, moods: seq<Mood>)
    ensures Collect(fetch, resolve, langs, moods).Success? ==>
      Collect(fetch, resolve, langs, moods).value == LangRows(fetch, resolve, langs, moods)
  {
    LangsFromOrder(fetch, resolve, langs, moods, 0, []);
    assert langs[0..] == langs;
  }

  /**
   * Every catalog row labels a candidate of the build: the item it came from
   * contains neither a global keyword nor a keyword of the mood it is tagged
   * with, and the row's emoji, mood label and language are those of that
   * mood and of a searched language.
   */
  lemma CatalogRowsPassFilters(fetch: Fetch, resolve: Resolver, langs: seq<string>, moods: seq<Mood>, t: Track)
    requires Catalog(fetch, resolve, langs, moods).Success?
    requires t in Catalog(fetch, resolve, langs, moods).value
    ensures Produced(fetch, resolve, langs, moods, t)
    ensures t.language in langs
    ensures !ContainsAny(TrackText(t), GlobalNegative)
    ensures exists mood :: (mood in moods && mood.emoji == t.predictedEmoji && mood.moodLabel == t.moodLabel
      && !ContainsAny(TrackText(t), mood.negative))
  {
    var all := Collect(fetch, resolve, langs, moods).value;
    DedupMembership(all, t);
    LangsFromSound(fetch, resolve, langs, moods, 0, []);
    var lang, mood, term, item :| Candidate(fetch, resolve, langs, moods, lang, mood, term, item) && Labels(item, mood, lang, t);
    MakeTrackFaithful(item, mood, lang, item);
  }

  /**
   * Unless the build stops, every candidate that passes both filters has an
   * artwork URL, its row is in `all_tracks`, and its id is in the catalog.
   */
  lemma CatalogComplete(fetch: Fetch, resolve: Resolver, langs: seq<string>, moods: seq<Mood>,
                        lang: string, mood: Mood, term: string, item: Item)
    requires Catalog(fetch, resolve, langs, moods).Success?
    requires Candidate(fetch, resolve, langs, moods, lang, mood, term, item) && Accept(item, mood)
    ensures item.artworkUrl100.Some?
    ensures MakeTrack(item, mood, lang) in Collect(fetch, resolve, langs, moods).value
    ensures MakeTrack(item, mood, lang).id in Ids(Catalog(fetch, resolve, langs, moods).value)
  {
    var all := Collect(fetch, resolve, langs, moods).value;
    LangsFromComplete(fetch, resolve, langs, moods, 0, []);
    assert lang in langs[0..];
    DedupIds(all);
    assert MakeTrack(item, mood, lang) in all;
  }

  /**
   * The build stops exactly when some candidate that passes both filters has
   * no artwork URL, and the error names such a candidate.
   */
  lemma CatalogFailsExactly(fetch: Fetch, resolve: Resolver, langs: seq<string>, moods: seq<Mood>)
    ensures var c := Catalog(fetch, resolve, langs, moods);
      c.Failure? <==> exists lang, mood, term, item :: (Candidate(fetch, resolve, langs, moods, lang, mood, term, item)
        && Accept(item, mood) && item.artworkUrl100.None?)
    ensures var c := Catalog(fetch, resolve, langs, moods);
      c.Failure? ==> exists lang, mood, term :: (Candidate(fetch, resolve, langs, moods, lang, mood, term, c.error.item)
        && Accept(c.error.item, mood) && c.error.item.artworkUrl100.None?)
  {
    LangsFromFails(fetch, resolve, langs, moods, 0, []);
    LangsFromComplete(fetch, resolve, langs, moods, 0, []);
    assert langs[0..] == langs;
  }

  /** The catalog is empty exactly when no candidate of the build passes both filters. */
  lemma CatalogEmptyExactly(fetch: Fetch, resolve: Resolver, langs: seq<string>, moods: seq<Mood>)
    ensures Catalog(fetch, resolve, langs, moods) == Success([]) <==>
      forall lang, mood, term, item :: Candidate(fetch, resolve, langs, moods, lang, mood, term, item) ==> !Accept(item, mood)
  {
    var c := Catalog(fetch, resolve, langs, moods);
    var r := Collect(fetch, resolve, langs, moods);
    CatalogFailsExactly(fetch, resolve, langs, moods);
    if r.Success? {
      DedupEmpty(r.value);
      if c == Success([]) {
        forall lang, mood, term, item | Candidate(fetch, resolve, langs, moods, lang, mood, term, item)
          ensures !Accept(item, mood)
        {
          if Accept(item, mood) {
            CatalogComplete(fetch, resolve, langs, moods, lang, mood, term, item);
          }
        }
      } else {
        var t := c.value[0];
        CatalogRowsPassFilters(fetch, resolve, langs, moods, t);
      }
    }
  }

  /** When every search fails or comes back empty, the catalog is empty and the run writes nothing. */
  lemma NoResultsNoCatalog(fetch: Fetch, resolve: Resolver, langs: seq<string>, moods: seq<Mood>)
    requires forall term :: fetch(term) == []
    ensures Catalog(fetch, resolve, langs, moods) == Success([])
  {
    CatalogEmptyExactly(fetch, resolve, langs, moods);
  }

  /**
   * The catalog is `all_tracks` with one row per id: ids are distinct, no id
   * is lost, and the row kept for an id is the first row that carried it.
   */
  lemma CatalogFirstWins(fetch: Fetch, resolve: Resolver, langs: seq<string>, moods: seq<Mood>)
    requires Catalog(fetch, resolve, langs, moods).Success?
    ensures var all := Collect(fetch, resolve, langs, moods).value;
      var catalog := Catalog(fetch, resolve, langs, moods).value;
      && IdsDistinct(catalog)
      && Ids(catalog) == Ids(all)
      && forall t :: t in catalog <==> t in all && t == all[FirstIndex(all, t.id)]
  {
    var all := Collect(fetch, resolve, langs, moods).value;
    DedupDistinct(all);
    DedupIds(all);
    forall t ensures t in DedupFirst(all) <==> t in all && t == all[FirstIndex(all, t.id)] {
      DedupMembership(all, t);
    }
  }
}

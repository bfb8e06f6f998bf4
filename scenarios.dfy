/**
 * Concrete runs of the filters and of the builder on small, hand-made search
 * results: a title carrying another mood's keyword, a title that passes, and
 * a network outage.
 */
module Scenarios {
  import opened Wrappers
  import opened Text
  import opened Records
  import opened SearchTerms
  import opened Dedup
  import opened Builder
  import opened CatalogProperties

  /** A search result with the given id and title, with no artist or album name. */
  function Hit(trackId: int, title: string): Item {
    Item(Some(trackId), Some(title), None, None, Some("https://img.example/a/100x100bb.jpg"), None)
  }

  /** The first two entries of the mood table. */
  const Happy := Mood("\U{1F60A}", "Happy", ["sad", "gloom", "breakup", "remix"])
  const Sad := Mood("\U{1F622}", "Sad", ["remix", "club", "dance", "happy", "party", "mix", "techno"])

  lemma HappyAndSadConfigured()
    ensures EmojiMapping[0] == Happy && EmojiMapping[1] == Sad
  {
  }

  /** A result titled "Happy", and one titled "Blue". */
  const HappyHit := Hit(1, "Happy")
  const BlueHit := Hit(2, "Blue")

  /** The search service answering every phrase with the same two results. */
  const BothHits: Fetch := (term: string) => [HappyHit, BlueHit]

  /** The search service during an outage: every request fails, so every search comes back empty. */
  const Outage: Fetch := (term: string) => []

  /** The text the filters see for a `Hit`: its title and two empty fields, lower-cased. */
  lemma HitText(trackId: int, title: string)
    ensures FullText(Hit(trackId, title)) == Lower(title + "  ")
  {
    assert title + " " + "" + " " + "" == title + "  ";
  }

  lemma HappyHitText()
    ensures FullText(HappyHit) == "happy  "
  {
    HitText(1, "Happy");
    assert "Happy" + "  " == "Happy  ";
    LowerChars("Happy  ");
    assert Lower("Happy  ")[0] == 'h';
  }

  lemma BlueHitText()
    ensures FullText(BlueHit) == "blue  "
  {
    HitText(2, "Blue");
    assert "Blue" + "  " == "Blue  ";
    LowerChars("Blue  ");
    assert Lower("Blue  ")[0] == 'b';
  }

  // Keyword by keyword: a keyword whose first letter is missing from the
  // text, or, for "podcast" in "happy  ", one whose every start is followed
  // by the wrong letter.

  lemma HappyHitLacksRare(w: string)
    requires w in GlobalNegative + Happy.negative && w != "podcast"
    ensures !Contains(FullText(HappyHit), w)
  {
    HappyHitText();
    assert w[0] in "ktcrsgb";
    AbsentHead("happy  ", w);
  }

  /** "podcast" could start at both "p"s of "happy", so the first start is skipped by hand. */
  lemma {:induction false} HappyHitLacksPodcast()
    ensures !Contains(FullText(HappyHit), "podcast")
  {
    HappyHitText();
    var text := "happy  ";
    FalseStart(text[3..], "podcast", 0);
    MismatchHead(text[2..], "podcast", 1);
    assert text[2..][1..] == text[3..];
    SkipTo(text, "podcast", 2);
  }

  lemma BlueHitLacks(w: string)
    requires w in GlobalNegative + Sad.negative
    ensures !Contains(FullText(BlueHit), w)
  {
    BlueHitText();
    assert w[0] in "ktcrpdhm";
    AbsentHead("blue  ", w);
  }

  /** "Happy" is dropped under the sad mood: its text contains the sad mood's keyword "happy". */
  lemma SadRejectsHappyHit()
    ensures !Accept(HappyHit, Sad)
  {
    var text := FullText(HappyHit);
    HappyHitText();
    assert text[..|"happy"|] == "happy";
    assert Contains(text, "happy");
    assert "happy" in Sad.negative;
  }

  /** "Blue" is kept under the sad mood and labelled sad, in English. */
  lemma SadKeepsBlueHit()
    ensures Accept(BlueHit, Sad)
    ensures var t := MakeTrack(BlueHit, Sad, "English");
      t.id == "2" && t.name == "Blue" && t.moodLabel == "Sad"
      && t.predictedEmoji == "\U{1F622}" && t.language == "English"
  {
    forall w | w in GlobalNegative || w in Sad.negative
      ensures !Contains(FullText(BlueHit), w)
    {
      BlueHitLacks(w);
    }
  }

  /** The sad mood's keyword "happy" does not exclude the same result under the happy mood. */
  lemma HappyKeepsHappyHit()
    ensures Accept(HappyHit, Happy)
  {
    forall w | w in GlobalNegative || w in Happy.negative
      ensures !Contains(FullText(HappyHit), w)
    {
      if w == "podcast" {
        HappyHitLacksPodcast();
      } else {
        HappyHitLacksRare(w);
      }
    }
  }

  /** Both results carry an artwork URL, so building over them never stops. */
  lemma SadBuildSucceeds(resolve: Resolver)
    ensures Catalog(BothHits, resolve, ["English"], [Sad]).Success?
  {
    CatalogFailsExactly(BothHits, resolve, ["English"], [Sad]);
    forall lang, mood, term, item | Candidate(BothHits, resolve, ["English"], [Sad], lang, mood, term, item)
      ensures item.artworkUrl100.Some?
    {
      assert item == HappyHit || item == BlueHit;
    }
  }

  /** Every row collected in that build is the labelled "Blue". */
  lemma SadBuildRow(resolve: Resolver, t: Track)
    requires Collect(BothHits, resolve, ["English"], [Sad]).Success?
    requires t in Collect(BothHits, resolve, ["English"], [Sad]).value
    ensures t == MakeTrack(BlueHit, Sad, "English")
  {
    LangsFromSound(BothHits, resolve, ["English"], [Sad], 0, []);
    var lang, mood, term, item :| Candidate(BothHits, resolve, ["English"], [Sad], lang, mood, term, item)
      && Labels(item, mood, lang, t);
    assert mood == Sad && lang == "English";
    assert item == HappyHit || item == BlueHit;
    SadRejectsHappyHit();
  }

  /**
   * Building the sad mood in English, every phrase finding "Happy" and
   * "Blue": the catalog is the one labelled "Blue" row, found once per
   * phrase and kept once.
   */
  lemma SadBuild(resolve: Resolver)
    requires resolve("Sad", "English") != []
    ensures Catalog(BothHits, resolve, ["English"], [Sad]) == Success([MakeTrack(BlueHit, Sad, "English")])
  {
    var row := MakeTrack(BlueHit, Sad, "English");
    SadBuildSucceeds(resolve);
    var all := Collect(BothHits, resolve, ["English"], [Sad]).value;
    var term := resolve("Sad", "English")[0];
    SadKeepsBlueHit();
    CatalogComplete(BothHits, resolve, ["English"], [Sad], "English", Sad, term, BlueHit);
    forall t | t in all
      ensures t == row
    {
      SadBuildRow(resolve, t);
    }
    DedupConstant(all, row);
  }

  /** Every request fails: the configured build comes back empty, so the run stops before saving. */
  lemma OutageBuildsNothing()
    ensures Catalog(Outage, ResolverOf(Tables), Languages, EmojiMapping) == Success([])
  {
    NoResultsNoCatalog(Outage, ResolverOf(Tables), Languages, EmojiMapping);
  }
}

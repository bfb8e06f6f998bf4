/**
 * The static configuration of the catalog builder (moods, localized and
 * default search phrases, languages) and the search-term resolver.
 */
module SearchTerms {
  import opened Text
  import opened Records

  /** The mood table, in the order the builder visits it. */
  const EmojiMapping: seq<Mood> := [
    Mood("\U{1F60A}", "Happy", ["sad", "gloom", "breakup", "remix"]),
    Mood("\U{1F622}", "Sad", ["remix", "club", "dance", "happy", "party", "mix", "techno"]),
    Mood("\U{1F60C}", "Calm", ["rock", "metal", "techno", "dubstep"]),
    Mood("\U{1F525}", "Energetic", ["lullaby", "sleep", "balled", "slow"]),
    Mood("\U{1F4AA}", "Motivated", ["sad", "weak", "slow"]),
    Mood("\U{1F634}", "Sleepy", ["rock", "pop", "dance", "drum", "beat"]),
    Mood("\U{1F970}", "Romantic", ["breakup", "hate", "metal"]),
    Mood("\U{1F620}", "Angry", ["calm", "soft", "love"]),
    Mood("\U{1F389}", "Party", ["acoustic", "slow", "sad"]),
    Mood("\U{1F64F}", "Devotion", ["explicit"]),
    Mood("\U{1F60E}", "Cool", ["country", "metal"]),
    Mood("\U{1F4AD}", "Thoughtful", ["party", "scream"]),
    Mood("\U{1F319}", "Melancholic", ["happy", "upbeat", "dance"])
  ]

  /** Mood label, then language, then the phrases to search for. */
  const LocalizedTerms: map<string, map<string, seq<string>>> := map[
    "Happy" := map[
      "English" := ["happy hits", "feel good pop", "upbeat hits", "walking on sunshine"],
      "Hindi" := ["bollywood happy songs", "hindi dance hits", "punjabi bhangra", "bollywood party"],
      "Spanish" := ["latin pop hits", "reggaeton fiesta", "musica alegre", "happy latin"],
      "Korean" := ["k-pop upbeat", "k-pop dance hits", "happy k-pop", "korean pop energy"],
      "Telugu" := ["telugu dance hits", "tollywood party", "telugu upbeat", "telugu mass songs"]],
    "Sad" := map[
      "English" := ["sad songs", "heartbreak", "piano ballads", "cry me a river"],
      "Hindi" := ["bollywood sad songs", "arijit singh sad", "hindi breakup", "dard bhare"],
      "Spanish" := ["musica triste", "baladas romanticas", "cortavenas", "sad latin"],
      "Korean" := ["k-pop ballad", "k-drama ost sad", "sad k-pop", "korean heartbreak"],
      "Telugu" := ["telugu sad songs", "tollywood melody sad", "telugu heartbreak", "love failure telugu"]],
    "Calm" := map[
      "English" := ["acoustic chill", "lo-fi beats", "relaxing piano", "stress relief"],
      "Hindi" := ["bollywood acoustic", "hindi lo-fi", "sufi songs", "calm hindi"],
      "Spanish" := ["latin acoustic", "guitarras relajantes", "bossa nova", "calm spanish"],
      "Korean" := ["k-indie", "korean acoustic", "piano k-pop", "calm k-drama"],
      "Telugu" := ["telugu melody", "telugu acoustic", "calm tollywood", "pleasant telugu"]],
    "Energetic" := map[
      "English" := ["workout hits", "gym motivation", "power rock", "high energy pop"],
      "Hindi" := ["bollywood workout", "punjabi high energy", "hindi gym songs", "chak de india"],
      "Spanish" := ["latin gym", "reggaeton workout", "zumba hits", "energia latina"],
      "Korean" := ["k-pop workout", "k-pop high energy", "gym k-pop", "korean rock"],
      "Telugu" := ["telugu workout", "tollywood action", "mass beats telugu", "dsp hits high energy"]],
    "Romantic" := map[
      "English" := ["love songs", "romantic ballads", "wedding songs", "first dance"],
      "Hindi" := ["bollywood romantic", "love songs hindi", "arijit singh romantic", "shreya ghoshal love"],
      "Spanish" := ["musica romantica", "latin love songs", "bachata romantica", "amor latino"],
      "Korean" := ["k-drama romance", "sweet k-pop", "korean love songs", "wedding k-pop"],
      "Telugu" := ["telugu love songs", "sid sriram melody", "romantic tollywood", "telugu duets"]],
    "Party" := map[
      "English" := ["party hits", "club bangers", "dance pop", "house music"],
      "Hindi" := ["bollywood party anthem", "punjabi party mix", "remix hindi", "badshah hits"],
      "Spanish" := ["fiesta latina", "reggaeton hits", "salsa party", "club latino"],
      "Korean" := ["k-pop party", "club k-pop", "korean edm", "big bang hits"],
      "Telugu" := ["telugu folk songs", "teenmaar beats", "tollywood party mix", "ramuloo ramulaa"]]
  ]

  /** Language-agnostic phrases for the moods without a localized entry. */
  const DefaultTerms: map<string, seq<string>> := map[
    "Motivated" := ["motivation", "champions", "success"],
    "Sleepy" := ["sleep", "lullaby", "ambient"],
    "Angry" := ["rock", "metal", "rage"],
    "Devotion" := ["devotional", "spiritual", "gospel"],
    "Cool" := ["cool", "jazz", "smooth"],
    "Thoughtful" := ["focus", "study", "instrumental"],
    "Melancholic" := ["lonely", "sad", "night"]
  ]

  /** The languages the builder visits, in order. */
  const Languages: seq<string> := ["English", "Hindi", "Spanish", "Korean", "Telugu"]

  /** The language whose default phrases are used without a suffix. */
  const BaseLanguage := "English"

  /** The two phrase tables the resolver reads. */
  datatype TermTables = TermTables(localized: map<string, map<string, seq<string>>>, defaults: map<string, seq<string>>)

  /** The tables as configured. */
  const Tables := TermTables(LocalizedTerms, DefaultTerms)

  predicate HasLocalized(tables: TermTables, moodLabel: string, lang: string) {
    moodLabel in tables.localized && lang in tables.localized[moodLabel]
  }

  /** `DEFAULT_TERMS.get(mood_label, [mood_label.lower()])`. */
  function BaseTerms(tables: TermTables, moodLabel: string): seq<string> {
    if moodLabel in tables.defaults then tables.defaults[moodLabel] else [Lower(moodLabel)]
  }

  /** Each phrase followed by a space and the language name. */
  function Suffixed(terms: seq<string>, lang: string): (r: seq<string>)
    ensures |r| == |terms|
    ensures forall i :: 0 <= i < |terms| ==> r[i] == terms[i] + " " + lang
  {
    if terms == [] then [] else [terms[0] + " " + lang] + Suffixed(terms[1..], lang)
  }

  /** Stripping the language suffix gives the phrase back. */
  lemma SuffixedStrip(terms: seq<string>, lang: string, i: int)
    requires 0 <= i < |terms|
    ensures var p := Suffixed(terms, lang)[i];
      |p| == |terms[i]| + 1 + |lang| && p[..|terms[i]|] == terms[i] && p[|terms[i]|..] == " " + lang
  {
  }

  /** `get_search_terms(mood_label, lang)`, reading the given tables. */
  function GetSearchTerms(tables: TermTables, moodLabel: string, lang: string): seq<string>
  {
    if HasLocalized(tables, moodLabel, lang) then tables.localized[moodLabel][lang]
    else if lang == BaseLanguage then BaseTerms(tables, moodLabel)
    else Suffixed(BaseTerms(tables, moodLabel), lang)
  }

  /** A localized entry for the pair is returned verbatim and in order. */
  lemma LocalizedTermsUsed(tables: TermTables, moodLabel: string, lang: string)
    requires moodLabel in tables.localized && lang in tables.localized[moodLabel]
    ensures GetSearchTerms(tables, moodLabel, lang) == tables.localized[moodLabel][lang]
  {
  }

  /**
   * Without a localized entry, the base phrases are used: unchanged for the
   * base language, each suffixed with " " + lang for any other.
   */
  lemma FallbackTerms(tables: TermTables, moodLabel: string, lang: string)
    requires !HasLocalized(tables, moodLabel, lang)
    ensures var r := GetSearchTerms(tables, moodLabel, lang);
      var base := if moodLabel in tables.defaults then tables.defaults[moodLabel] else [Lower(moodLabel)];
      && |r| == |base|
      && (lang == BaseLanguage ==> r == base)
      && (lang != BaseLanguage ==> forall i :: 0 <= i < |r| ==> r[i] == base[i] + " " + lang)
  {
  }

  /** No list in either table is empty. */
  ghost predicate NoEmptyList(tables: TermTables) {
    && (forall moodLabel :: moodLabel in tables.defaults ==> tables.defaults[moodLabel] != [])
    && (forall moodLabel, lang :: moodLabel in tables.localized && lang in tables.localized[moodLabel] ==>
          tables.localized[moodLabel][lang] != [])
  }

  /** Every list in the configured tables is non-empty. */
  lemma TablesNonEmpty()
    ensures NoEmptyList(Tables)
  {
    forall moodLabel | moodLabel in DefaultTerms
      ensures DefaultTerms[moodLabel] != []
    {
      DefaultRowNonEmpty(moodLabel);
    }
    forall moodLabel, lang | moodLabel in LocalizedTerms && lang in LocalizedTerms[moodLabel]
      ensures LocalizedTerms[moodLabel][lang] != []
    {
      LocalizedRowNonEmpty(moodLabel, lang);
    }
  }

  lemma DefaultRowNonEmpty(moodLabel: string)
    requires moodLabel in DefaultTerms
    ensures |DefaultTerms[moodLabel]| == 3
  {
    assert moodLabel in {"Motivated", "Sleepy", "Angry", "Devotion", "Cool", "Thoughtful", "Melancholic"};
  }

  lemma LocalizedRowNonEmpty(moodLabel: string, lang: string)
    requires moodLabel in LocalizedTerms && lang in LocalizedTerms[moodLabel]
    ensures |LocalizedTerms[moodLabel][lang]| == 4
  {
    assert moodLabel in {"Happy", "Sad", "Calm", "Energetic", "Romantic", "Party"};
    assert lang in Languages;
  }

  /** Over tables without an empty list, the resolver never returns an empty phrase list. */
  lemma SearchTermsNonEmpty(tables: TermTables, moodLabel: string, lang: string)
    requires NoEmptyList(tables)
    ensures GetSearchTerms(tables, moodLabel, lang) != []
  {
  }

  /** The example of a default-table mood in a non-base language. */
  lemma CoolInSpanish()
    ensures GetSearchTerms(Tables, "Cool", "Spanish") == ["cool Spanish", "jazz Spanish", "smooth Spanish"]
  {
    assert !HasLocalized(Tables, "Cool", "Spanish");
    assert DefaultTerms["Cool"] == ["cool", "jazz", "smooth"];
    assert "cool" + " " + "Spanish" == "cool Spanish";
    assert "jazz" + " " + "Spanish" == "jazz Spanish";
    assert "smooth" + " " + "Spanish" == "smooth Spanish";
  }

  /** A label in neither table searches for its own lower-case form, suffixed outside the base language. */
  lemma UnmappedLabel(tables: TermTables, moodLabel: string, lang: string)
    requires moodLabel !in tables.localized && moodLabel !in tables.defaults
    ensures GetSearchTerms(tables, moodLabel, lang) ==
      if lang == BaseLanguage then [Lower(moodLabel)] else [Lower(moodLabel) + " " + lang]
  {
  }

  /** The unmapped label "Chill" over the configured tables. */
  lemma ChillUnmapped()
    ensures GetSearchTerms(Tables, "Chill", "English") == ["chill"]
    ensures GetSearchTerms(Tables, "Chill", "Hindi") == ["chill Hindi"]
  {
    assert "Chill" !in LocalizedTerms && "Chill" !in DefaultTerms;
    UnmappedLabel(Tables, "Chill", "English");
    UnmappedLabel(Tables, "Chill", "Hindi");
    assert Lower("Chill") == "chill";
    assert "chill" + " " + "Hindi" == "chill Hindi";
  }

  /**
   * Every mood of the table has phrases in one of the two tables, so the
   * lower-cased moodLabel is never searched for by the builder.
   */
  lemma EveryMoodHasTerms()
    ensures forall i :: 0 <= i < |EmojiMapping| ==>
      var l := EmojiMapping[i].moodLabel; l in LocalizedTerms || l in DefaultTerms
    ensures forall l, lang :: l in LocalizedTerms && lang in Languages ==> lang in LocalizedTerms[l]
  {
  }

  /** Emoji keys are distinct, as the keys of a dictionary are. */
  lemma EmojisDistinct()
    ensures forall i, j :: 0 <= i < j < |EmojiMapping| ==> EmojiMapping[i].emoji != EmojiMapping[j].emoji
  {
  }
}

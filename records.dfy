/**
 * The records the catalog builder reads and writes: a search result item as
 * the track-search service returns it, a mood definition from the emoji table,
 * and the labelled track row appended to the catalog.
 */
module Records {
  import opened Wrappers
  import opened Text

  /**
   * One search result. Every field is a key of the JSON record that may be
   * absent; `trackId` is the provider's integer identifier.
   */
  datatype Item = Item(
    trackId: Option<int>,
    trackName: Option<string>,
    artistName: Option<string>,
    collectionName: Option<string>,
    artworkUrl100: Option<string>,
    previewUrl: Option<string>)

  /** A mood: its emoji key, its label and the keywords that disqualify a candidate. */
  datatype Mood = Mood(emoji: string, moodLabel: string, negative: seq<string>)

  /** One row of the catalog. */
  datatype Track = Track(
    id: string,
    name: string,
    artist: string,
    album: string,
    imageUrl: string,
    previewUrl: Option<string>,
    predictedEmoji: string,
    moodLabel: string,
    language: string)

  /** `item.get('trackName', '')` and its two siblings. */
  function SongName(item: Item): string { item.trackName.GetOr("") }
  function ArtistName(item: Item): string { item.artistName.GetOr("") }
  function CollectionName(item: Item): string { item.collectionName.GetOr("") }

  /** `f"{song} {artist} {album}".lower()`: the text every filter looks at. */
  function SearchText(song: string, artist: string, album: string): string {
    Lower(song + " " + artist + " " + album)
  }

  /** The filter text has no upper-case letter, and one character per character of the three fields and the two separators. */
  lemma SearchTextIsLower(song: string, artist: string, album: string)
    ensures IsLower(SearchText(song, artist, album))
    ensures |SearchText(song, artist, album)| == |song| + |artist| + |album| + 2
  {
    LowerChars(song + " " + artist + " " + album);
  }

  function FullText(item: Item): string {
    SearchText(SongName(item), ArtistName(item), CollectionName(item))
  }

  /** The same text, recomputed from a catalog row. */
  function TrackText(t: Track): string {
    SearchText(t.name, t.artist, t.album)
  }

  const Thumbnail := "100x100"
  const FullSize := "600x600"

  /** `url.replace('100x100', '600x600')`. */
  function Upsize(url: string): string {
    ReplaceAll(url, Thumbnail, FullSize)
  }

  /** The upsized URL keeps its length and mentions the thumbnail size nowhere. */
  lemma UpsizeRemovesThumbnail(url: string)
    ensures |Upsize(url)| == |url|
    ensures !Contains(Upsize(url), Thumbnail)
  {
    ReplaceAllLength(url, Thumbnail, FullSize);
    ReplaceAllRemoves(url, Thumbnail, FullSize);
  }

  /** A URL without the thumbnail size is kept as it is. */
  lemma UpsizeKeepsOtherUrls(url: string)
    requires !Contains(url, Thumbnail)
    ensures Upsize(url) == url
  {
    ReplaceAllAbsent(url, Thumbnail, FullSize);
  }

  /**
   * The row built for a candidate that passed the filters under `mood` while
   * searching in `lang`. The source dereferences the artwork URL without a
   * check, so only an item that has one can be labelled.
   */
  function MakeTrack(item: Item, mood: Mood, lang: string): (t: Track)
    requires item.artworkUrl100.Some?
  {
    Track(
      id := IdString(item.trackId),
      name := SongName(item),
      artist := ArtistName(item),
      album := CollectionName(item),
      imageUrl := Upsize(item.artworkUrl100.value),
      previewUrl := item.previewUrl,
      predictedEmoji := mood.emoji,
      moodLabel := mood.moodLabel,
      language := lang)
  }

  /**
   * A row carries the labels of the iteration that made it, the item's own
   * title, artist, album and preview link (so the filters see the same text
   * on the row), the upsized artwork URL, and as id the decimal text of the
   * track identifier, which determines that identifier.
   */
  lemma MakeTrackFaithful(item: Item, mood: Mood, lang: string, other: Item)
    requires item.artworkUrl100.Some? && other.artworkUrl100.Some?
    ensures var t := MakeTrack(item, mood, lang);
      && t.predictedEmoji == mood.emoji && t.moodLabel == mood.moodLabel && t.language == lang
      && t.id == IdString(item.trackId)
      && t.name == SongName(item) && t.artist == ArtistName(item) && t.album == CollectionName(item)
      && t.imageUrl == Upsize(item.artworkUrl100.value) && t.previewUrl == item.previewUrl
      && TrackText(t) == FullText(item)
      && |t.imageUrl| == |item.artworkUrl100.value|
      && !Contains(t.imageUrl, Thumbnail)
      && (t.id == MakeTrack(other, mood, lang).id <==> item.trackId == other.trackId)
  {
    UpsizeRemovesThumbnail(item.artworkUrl100.value);
    IdStringInjective(item.trackId, other.trackId);
  }
}

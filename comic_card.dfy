/**
 * The listing card of one comic: its thumbnail URL, the latest chapter
 * label, the link to its detail page, the status badge, and the one-way
 * switch to a placeholder once the thumbnail fails to load.
 */
module ComicCard {
  import opened Wrappers
  import opened ComicApi

  /** The image host used when the caller passes no `cdnUrl`. */
  const DefaultCdn: string := "https://img.otruyenapi.com"

  /** The folder under the image host that holds the thumbnails. */
  const ThumbnailFolder: string := "/uploads/comics/"

  /** A default parameter applies only to a missing argument, so an empty host is kept. */
  function CdnOrDefault(cdnUrl: Option<string>): (host: string)
    ensures cdnUrl.Some? ==> host == cdnUrl.value
    ensures cdnUrl.None? ==> host == DefaultCdn
  {
    cdnUrl.GetOr(DefaultCdn)
  }

  function ThumbnailUrl(cdnUrl: Option<string>, comic: Comic): string
  {
    CdnOrDefault(cdnUrl) + ThumbnailFolder + comic.thumbUrl
  }

  /**
   * The thumbnail URL is the host, the folder and the file name, in that
   * order, so under one host two comics share a URL only when they share a
   * thumbnail file.
   */
  lemma ThumbnailUrlParts(cdnUrl: Option<string>, a: Comic, b: Comic)
    ensures CdnOrDefault(cdnUrl) + ThumbnailFolder <= ThumbnailUrl(cdnUrl, a)
    ensures ThumbnailUrl(cdnUrl, a)[|CdnOrDefault(cdnUrl) + ThumbnailFolder|..] == a.thumbUrl
    ensures ThumbnailUrl(cdnUrl, a) == ThumbnailUrl(cdnUrl, b) <==> a.thumbUrl == b.thumbUrl
  {
    var head := CdnOrDefault(cdnUrl) + ThumbnailFolder;
    assert ThumbnailUrl(cdnUrl, a) == head + a.thumbUrl;
    assert ThumbnailUrl(cdnUrl, b) == head + b.thumbUrl;
    assert (head + a.thumbUrl)[|head|..] == a.thumbUrl;
    assert (head + b.thumbUrl)[|head|..] == b.thumbUrl;
  }

  /**
   * `comic.chaptersLatest?.[0]?.chapter_name || fallback`: the name of the
   * first latest chapter when there is one and it is not empty.
   */
  function LatestChapterName(comic: Comic, fallback: string): (name: string)
    ensures HasLatestName(comic) ==> name == comic.chaptersLatest.value[0].chapterName
    ensures !HasLatestName(comic) ==> name == fallback
    ensures fallback != "" ==> name != ""
  {
    if HasLatestName(comic) then comic.chaptersLatest.value[0].chapterName else fallback
  }

  predicate HasLatestName(comic: Comic)
  {
    comic.chaptersLatest.Some? && |comic.chaptersLatest.value| > 0 && comic.chaptersLatest.value[0].chapterName != ""
  }

  /** The card's fallback chapter label. */
  const NoChapter: string := "N/A"

  function CardChapterLabel(comic: Comic): (text: string)
    ensures text != ""
    ensures HasLatestName(comic) ==> text == comic.chaptersLatest.value[0].chapterName
    ensures !HasLatestName(comic) ==> text == NoChapter
  {
    LatestChapterName(comic, NoChapter)
  }

  /** The card links to the same path the detail endpoint fetches. */
  function DetailHref(slug: string): (href: string)
    ensures href == Query(GetComicBySlug(slug))
    ensures |href| == |"/truyen-tranh/"| + |slug| && href[|"/truyen-tranh/"|..] == slug
  {
    "/truyen-tranh/" + slug
  }

  const OngoingLabel: string := "Đang ra"
  const CompletedLabel: string := "Hoàn thành"

  /** The status badge: none for an empty status, and every status but 'ongoing' reads as completed. */
  function StatusBadge(status: string): (badge: Option<string>)
    ensures badge.None? <==> status == ""
    ensures badge == Some(OngoingLabel) <==> status == "ongoing"
    ensures badge == Some(CompletedLabel) <==> status != "" && status != "ongoing"
  {
    if status == "" then None
    else if status == "ongoing" then Some(OngoingLabel)
    else Some(CompletedLabel)
  }

  /** What the card shows in its image slot. */
  datatype Artwork = Thumbnail(url: string) | Placeholder

  /** The card's image state: once the thumbnail fails, the placeholder stays. */
  class Card {
    var imageError: bool

    constructor ()
      ensures !imageError
    {
      imageError := false;
    }

    /** The image reported a load error. */
    method OnImageError()
      modifies this
      ensures imageError
    {
      imageError := true;
    }

    function Shown(cdnUrl: Option<string>, comic: Comic): (art: Artwork)
      reads this
      ensures art == Placeholder <==> imageError
      ensures art.Thumbnail? ==> art.url == ThumbnailUrl(cdnUrl, comic)
    {
      if !imageError then Thumbnail(ThumbnailUrl(cdnUrl, comic)) else Placeholder
    }
  }
}

/**
 * The featured-comic banner of the home page: it shows one of at most five
 * comics, advances to the next one on a timer, and jumps to the one whose
 * indicator is clicked.
 */
module HeroBanner {
  import opened Wrappers
  import opened ComicApi
  import ComicCard

  /** The banner never rotates through more comics than this. */
  const MaxSlides: nat := 5

  /** `Math.min(comics.length, 5)` */
  function SlotCount(len: nat): (n: nat)
    ensures n <= MaxSlides && n <= len
    ensures n == len || n == MaxSlides
  {
    if len < MaxSlides then len else MaxSlides
  }

  /** The timer's step: the next slot, wrapping from the last slot to the first. */
  function Rotate(i: nat, len: nat): nat
    requires len > 1
  {
    (i + 1) % SlotCount(len)
  }

  /** One step keeps the index on a slot; it advances by one and wraps after the last slot. */
  lemma RotateInRange(i: nat, len: nat)
    requires len > 1 && i < SlotCount(len)
    ensures Rotate(i, len) < SlotCount(len)
    ensures i + 1 < SlotCount(len) ==> Rotate(i, len) == i + 1
    ensures i + 1 == SlotCount(len) ==> Rotate(i, len) == 0
  {
  }

  /** The index after `k` timer steps. */
  function RotateTimes(i: nat, k: nat, len: nat): nat
    requires len > 1
  {
    if k == 0 then i else Rotate(RotateTimes(i, k - 1, len), len)
  }

  /** Every number of steps keeps the index on a slot. */
  lemma {:induction false} RotateTimesInRange(i: nat, k: nat, len: nat)
    requires len > 1 && i < SlotCount(len)
    ensures RotateTimes(i, k, len) < SlotCount(len)
  {
    if k > 0 {
      RotateTimesInRange(i, k - 1, len);
      RotateInRange(RotateTimes(i, k - 1, len), len);
    }
  }

  /** Until the last slot is passed, `k` steps move the index forward by `k`. */
  lemma {:induction false} RotateTimesCountsUp(i: nat, k: nat, len: nat)
    requires len > 1 && i + k < SlotCount(len)
    ensures RotateTimes(i, k, len) == i + k
  {
    if k > 0 {
      RotateTimesCountsUp(i, k - 1, len);
      RotateInRange(i + k - 1, len);
    }
  }

  /** `k` steps and then `m` more are `k + m` steps. */
  lemma {:induction false} RotateTimesCompose(i: nat, k: nat, m: nat, len: nat)
    requires len > 1
    ensures RotateTimes(i, k + m, len) == RotateTimes(RotateTimes(i, k, len), m, len)
  {
    if m > 0 {
      RotateTimesCompose(i, k, m - 1, len);
    }
  }

  /** The rotation has period `n`, and from slot 0 it reaches slot `j` after `j` steps. */
  lemma RotationVisitsEverySlot(i: nat, len: nat, j: nat)
    requires len > 1 && i < SlotCount(len) && j < SlotCount(len)
    ensures RotateTimes(i, SlotCount(len), len) == i
    ensures RotateTimes(0, j, len) == j
  {
    var n := SlotCount(len);
    RotateTimesCountsUp(i, n - 1 - i, len);
    RotateInRange(n - 1, len);
    assert RotateTimes(i, n - i, len) == 0;
    RotateTimesCompose(i, n - i, i, len);
    RotateTimesCountsUp(0, i, len);
    RotateTimesCountsUp(0, j, len);
  }

  /** Indicator `k` is highlighted exactly when it is the current slot; there are none for a single comic. */
  function Indicators(len: nat, current: nat): (marks: seq<bool>)
    ensures len <= 1 ==> marks == []
    ensures len > 1 ==> |marks| == SlotCount(len)
    ensures forall k :: 0 <= k < |marks| ==> (marks[k] <==> k == current)
  {
    if len <= 1 then [] else seq(SlotCount(len), k => k == current)
  }

  /** The subtitle fallback when the comic has no first original name. */
  const DefaultSubtitle: string := "Đọc truyện tranh online miễn phí"

  /** `origin_name?.[0] || fallback` */
  function Subtitle(comic: Comic): (text: string)
    ensures |comic.originName| > 0 && comic.originName[0] != "" ==> text == comic.originName[0]
    ensures !(|comic.originName| > 0 && comic.originName[0] != "") ==> text == DefaultSubtitle
  {
    if |comic.originName| > 0 && comic.originName[0] != "" then comic.originName[0] else DefaultSubtitle
  }

  /** The banner's chapter label falls back to chapter "1". */
  const FirstChapter: string := "1"

  /** At most the first three categories, in their order. */
  function ShownCategories(comic: Comic): (cats: seq<Category>)
    ensures |cats| == (if |comic.category| < 3 then |comic.category| else 3)
    ensures cats <= comic.category
  {
    if |comic.category| <= 3 then comic.category else comic.category[..3]
  }

  datatype Banner = Banner(
    imageUrl: string,
    title: string,
    subtitle: string,
    readHref: string,
    chapterLabel: string,
    chapterHref: string,
    categories: seq<Category>,
    indicators: seq<bool>)

  /**
   * What the banner renders: nothing for an empty list, otherwise the comic
   * at the current index. The index is not reset when the list changes, so
   * it must still point into the list.
   */
  function Render(comics: seq<Comic>, cdnUrl: Option<string>, current: nat): (b: Option<Banner>)
    requires comics == [] || current < |comics|
    ensures b.None? <==> comics == []
    ensures b.Some? ==> b.value.imageUrl == ComicCard.ThumbnailUrl(cdnUrl, comics[current])
    ensures b.Some? ==> b.value.readHref == ComicCard.DetailHref(comics[current].slug)
    ensures b.Some? ==> b.value.title == comics[current].name
    ensures b.Some? ==> b.value.subtitle == Subtitle(comics[current])
    ensures b.Some? ==> b.value.categories == ShownCategories(comics[current])
    ensures b.Some? ==> b.value.chapterLabel == ComicCard.LatestChapterName(comics[current], FirstChapter)
    ensures b.Some? ==> b.value.chapterLabel != ""
    ensures b.Some? ==> b.value.chapterHref == b.value.readHref + "?chapter=" + b.value.chapterLabel
    ensures b.Some? ==> b.value.indicators == Indicators(|comics|, current)
  {
    if comics == [] then None
    else
      var c := comics[current];
      var chapter := ComicCard.LatestChapterName(c, FirstChapter);
      Some(Banner(
        ComicCard.ThumbnailUrl(cdnUrl, c),
        c.name,
        Subtitle(c),
        "/truyen-tranh/" + c.slug,
        chapter,
        "/truyen-tranh/" + c.slug + "?chapter=" + chapter,
        ShownCategories(c),
        Indicators(|comics|, current)))
  }

  /** The banner's slot state. */
  class Slides {
    var currentIndex: nat

    constructor ()
      ensures currentIndex == 0
    {
      currentIndex := 0;
    }

    /** One timer tick; the timer runs only while there is more than one comic. */
    method Tick(len: nat)
      requires len > 1
      modifies this
      ensures currentIndex == Rotate(old(currentIndex), len)
    {
      currentIndex := (currentIndex + 1) % SlotCount(len);
    }

    /** A click on indicator `k`; indicators exist only for more than one comic. */
    method SelectIndicator(k: nat, len: nat)
      requires len > 1 && k < SlotCount(len)
      modifies this
      ensures currentIndex == k
    {
      currentIndex := k;
    }
  }
}

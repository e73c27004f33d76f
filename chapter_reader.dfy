/**
 * The chapter reader page: it derives the ordered list of page-image URLs
 * from a chapter payload, picks exactly one of its terminal views, and keeps
 * a current-page index that the previous/next buttons and the arrow keys move.
 */
module ChapterReader {
  import opened Wrappers
  import opened ComicApi

  // ---------------------------------------------------------------------------
  // The image list: copy, stable sort by page number, map to CDN URLs.
  // ---------------------------------------------------------------------------

  /** Each record's page number is at most the next record's. */
  predicate SortedByPage(s: seq<ChapterImage>)
  {
    forall i :: 0 < i < |s| ==> s[i - 1].imagePage <= s[i].imagePage
  }

  /** Sorted neighbours mean sorted pairs: a page never precedes a smaller one. */
  lemma {:induction false} SortedPairs(s: seq<ChapterImage>, i: int, j: int)
    requires SortedByPage(s) && 0 <= i <= j < |s|
    ensures s[i].imagePage <= s[j].imagePage
    decreases j - i
  {
    if i < j {
      SortedPairs(s, i, j - 1);
    }
  }

  /** The records of `s` whose page number is `p`, in their order in `s`. */
  function WithPage(s: seq<ChapterImage>, p: int): seq<ChapterImage>
  {
    if s == [] then [] else (if s[0].imagePage == p then [s[0]] else []) + WithPage(s[1..], p)
  }

  /** A record no later than the head of a sorted list can go in front of it. */
  lemma ConsSorted(y: ChapterImage, t: seq<ChapterImage>)
    requires SortedByPage(t) && (t != [] ==> y.imagePage <= t[0].imagePage)
    ensures SortedByPage([y] + t)
  {
    var r := [y] + t;
    forall i | 1 < i < |r|
      ensures r[i - 1].imagePage <= r[i].imagePage
    {
      assert r[i - 1] == t[i - 2] && r[i] == t[i - 1];
    }
  }

  lemma SortedTail(s: seq<ChapterImage>)
    requires SortedByPage(s) && s != []
    ensures SortedByPage(s[1..])
  {
    var t := s[1..];
    forall i | 0 < i < |t|
      ensures t[i - 1].imagePage <= t[i].imagePage
    {
      assert t[i - 1] == s[i] && t[i] == s[i + 1];
    }
  }

  /** Inserts `x` before the first record whose page is not smaller. */
  function InsertByPage(x: ChapterImage, s: seq<ChapterImage>): (r: seq<ChapterImage>)
    requires SortedByPage(s)
    ensures SortedByPage(r)
    ensures multiset(r) == multiset(s) + multiset{x}
    ensures |r| == |s| + 1
    ensures r[0] == x || (s != [] && r[0] == s[0])
  {
    if s == [] || x.imagePage <= s[0].imagePage then
      ConsSorted(x, s);
      [x] + s
    else
      var t := s[1..];
      SortedTail(s);
      var r := InsertByPage(x, t);
      assert t != [] ==> t[0] == s[1];
      ConsSorted(s[0], r);
      assert s == [s[0]] + t;
      [s[0]] + r
  }

  /**
   * `[...images].sort((a, b) => a.image_page - b.image_page)`: a stable sort
   * by page number (`Array.prototype.sort` is stable), here on a value, so
   * the input the cache handed out is never changed.
   */
  function SortByPage(s: seq<ChapterImage>): (r: seq<ChapterImage>)
    ensures SortedByPage(r)
    ensures multiset(r) == multiset(s)
    ensures |r| == |s|
  {
    if s == [] then []
    else
      assert s == [s[0]] + s[1..];
      InsertByPage(s[0], SortByPage(s[1..]))
  }

  /** The records of `[y] + t` with page `p`: `y` if it matches, then those of `t`. */
  function Matching(y: ChapterImage, p: int): seq<ChapterImage>
  {
    if y.imagePage == p then [y] else []
  }

  lemma WithPageCons(y: ChapterImage, t: seq<ChapterImage>, p: int)
    ensures WithPage([y] + t, p) == Matching(y, p) + WithPage(t, p)
  {
    assert ([y] + t)[0] == y && ([y] + t)[1..] == t;
  }

  /** Records carrying different pages can trade places without changing any `WithPage`. */
  lemma MatchingSwap(x: ChapterImage, y: ChapterImage, p: int, w: seq<ChapterImage>)
    requires x.imagePage != y.imagePage
    ensures Matching(y, p) + (Matching(x, p) + w) == Matching(x, p) + (Matching(y, p) + w)
  {
  }

  lemma {:induction false} InsertKeepsTies(x: ChapterImage, s: seq<ChapterImage>, p: int)
    requires SortedByPage(s)
    ensures WithPage(InsertByPage(x, s), p) == WithPage([x] + s, p)
    decreases |s|
  {
    if s == [] || x.imagePage <= s[0].imagePage {
      assert InsertByPage(x, s) == [x] + s;
    } else {
      var y, t := s[0], s[1..];
      assert s == [y] + t;
      SortedTail(s);
      var r := InsertByPage(x, t);
      assert InsertByPage(x, s) == [y] + r;
      calc {
        WithPage(InsertByPage(x, s), p);
      == { WithPageCons(y, r, p); }
        Matching(y, p) + WithPage(r, p);
      == { InsertKeepsTies(x, t, p); WithPageCons(x, t, p); }
        Matching(y, p) + (Matching(x, p) + WithPage(t, p));
      == { MatchingSwap(x, y, p, WithPage(t, p)); }
        Matching(x, p) + (Matching(y, p) + WithPage(t, p));
      == { WithPageCons(y, t, p); WithPageCons(x, s, p); }
        WithPage([x] + s, p);
      }
    }
  }

  /**
   * The sort is stable: for every page number, the records carrying it come
   * out in the order they came in.
   */
  lemma {:induction false} SortKeepsTies(s: seq<ChapterImage>, p: int)
    ensures WithPage(SortByPage(s), p) == WithPage(s, p)
  {
    if s != [] {
      SortKeepsTies(s[1..], p);
      InsertKeepsTies(s[0], SortByPage(s[1..]), p);
      WithPageCons(s[0], SortByPage(s[1..]), p);
      WithPageCons(s[0], s[1..], p);
      assert s == [s[0]] + s[1..];
    }
  }

  /** The page records of a payload, or none when `item` or `chapter_image` is missing. */
  function PageRecords(data: Option<ChapterData>): seq<ChapterImage>
  {
    if data.Some? && data.value.item.Some? && data.value.item.value.chapterImage.Some?
    then data.value.item.value.chapterImage.value
    else []
  }

  /** `${domain_cdn}/${chapter_path}/${image_file}` */
  function PageUrl(domainCdn: string, chapterPath: string, image: ChapterImage): string
  {
    domainCdn + "/" + chapterPath + "/" + image.imageFile
  }

  /** The reader's image list (the `images` constant of the page). */
  function ImageUrls(data: Option<ChapterData>): (urls: seq<string>)
    ensures |urls| == |PageRecords(data)|
    ensures PageRecords(data) != [] ==>
      forall k :: 0 <= k < |urls| ==>
        urls[k] == PageUrl(data.value.domainCdn, data.value.item.value.chapterPath, SortByPage(PageRecords(data))[k])
  {
    var records := PageRecords(data);
    if records == [] then []
    else
      var sorted := SortByPage(records);
      seq(|sorted|, k requires 0 <= k < |sorted| =>
        PageUrl(data.value.domainCdn, data.value.item.value.chapterPath, sorted[k]))
  }

  /** Records listed page 2 then page 1 sort to page 1 then page 2. */
  lemma ExampleSort()
    ensures SortByPage([ChapterImage(2, "b.jpg"), ChapterImage(1, "a.jpg")])
      == [ChapterImage(1, "a.jpg"), ChapterImage(2, "b.jpg")]
  {
    var recs := [ChapterImage(2, "b.jpg"), ChapterImage(1, "a.jpg")];
    assert recs[1..] == [ChapterImage(1, "a.jpg")];
    assert recs[1..][1..] == [];
    assert SortByPage(recs[1..]) == [ChapterImage(1, "a.jpg")];
    assert InsertByPage(ChapterImage(2, "b.jpg"), []) == [ChapterImage(2, "b.jpg")];
  }

  /** A payload listing page 2 (b.jpg) before page 1 (a.jpg) yields a.jpg's URL first. */
  lemma ExamplePayload()
    ensures ImageUrls(Some(ChapterData("https://cdn.x", Some(ChapterItem("", "c1",
      Some([ChapterImage(2, "b.jpg"), ChapterImage(1, "a.jpg")]))))))
      == ["https://cdn.x/c1/a.jpg", "https://cdn.x/c1/b.jpg"]
  {
    var data := Some(ChapterData("https://cdn.x", Some(ChapterItem("", "c1",
      Some([ChapterImage(2, "b.jpg"), ChapterImage(1, "a.jpg")])))));
    ExampleSort();
    var urls := ImageUrls(data);
    assert |urls| == 2;
    assert urls[0] == PageUrl("https://cdn.x", "c1", ChapterImage(1, "a.jpg"));
    assert urls[1] == PageUrl("https://cdn.x", "c1", ChapterImage(2, "b.jpg"));
    ExampleUrls();
    assert urls == [urls[0], urls[1]];
  }

  /** The two URLs of that payload, spelled out. */
  lemma ExampleUrls()
    ensures PageUrl("https://cdn.x", "c1", ChapterImage(1, "a.jpg")) == "https://cdn.x/c1/a.jpg"
    ensures PageUrl("https://cdn.x", "c1", ChapterImage(2, "b.jpg")) == "https://cdn.x/c1/b.jpg"
  {
  }

  /** The request the page issues: the locator verbatim, and none without a locator. */
  function ChapterRequest(chapterUrl: Option<string>): (r: Option<string>)
    ensures r.Some? <==> chapterUrl.Some? && chapterUrl.value != ""
    ensures r.Some? ==> r.value == chapterUrl.value
  {
    if chapterUrl.Some? && chapterUrl.value != "" then Some(Query(GetChapterData(chapterUrl.value))) else None
  }

  // ---------------------------------------------------------------------------
  // The terminal views.
  // ---------------------------------------------------------------------------

  /** A fetch error; `message` is present when the error object has one. */
  datatype FetchError = FetchError(message: Option<string>)

  /** The message when the error carries none. */
  const GenericChapterError: string := "Không thể tải chapter"

  datatype View =
    | NotFound
    | Loading
    | Failed(message: string)
    | NoData
    | Reader(images: seq<string>)

  /** The view the page renders: the guards are tried in the order the page lists them. */
  function SelectView(chapterUrl: Option<string>, isLoading: bool, error: Option<FetchError>, data: Option<ChapterData>): (v: View)
    ensures v == NotFound <==> chapterUrl.None? || chapterUrl.value == ""
    ensures v == Loading <==> ChapterRequest(chapterUrl).Some? && isLoading
    ensures v.Failed? <==> ChapterRequest(chapterUrl).Some? && !isLoading && error.Some?
    ensures v.Failed? ==> v.message == error.value.message.GetOr(GenericChapterError)
    ensures v == NoData <==> ChapterRequest(chapterUrl).Some? && !isLoading && error.None? && (data.None? || ImageUrls(data) == [])
    ensures v.Reader? <==> ChapterRequest(chapterUrl).Some? && !isLoading && error.None? && data.Some? && ImageUrls(data) != []
    ensures v.Reader? ==> v.images == ImageUrls(data)
  {
    if chapterUrl.None? || chapterUrl.value == "" then NotFound
    else if isLoading then Loading
    else if error.Some? then Failed(if error.value.message.Some? then error.value.message.value else GenericChapterError)
    else if data.None? || |ImageUrls(data)| == 0 then NoData
    else Reader(ImageUrls(data))
  }

  /**
   * Without `item` or without `chapter_image` the image list is empty, and
   * once loaded without error the page shows the no-data view, never the
   * reader.
   */
  lemma MissingImagesGiveNoData(data: Option<ChapterData>, chapterUrl: Option<string>)
    requires data.None? || data.value.item.None? || data.value.item.value.chapterImage.None?
    requires chapterUrl.Some? && chapterUrl.value != ""
    ensures ImageUrls(data) == []
    ensures SelectView(chapterUrl, false, None, data) == NoData
  {
  }

  // ---------------------------------------------------------------------------
  // The current-page index.
  // ---------------------------------------------------------------------------

  datatype Key = ArrowLeft | ArrowRight | Escape | OtherKey

  /** What the user can do to the index: the two buttons and a key press. */
  datatype NavEvent = PrevButton | NextButton | KeyPress(key: Key)

  /**
   * The index after one event, `len` being the number of images: the
   * previous button sets `max(0, i - 1)`, the next button
   * `min(len - 1, i + 1)`, ArrowLeft decrements only when `i > 0` and
   * ArrowRight increments only when `i < len - 1`.
   */
  function Step(e: NavEvent, i: int, len: nat): int
  {
    match e
    case PrevButton => if 0 > i - 1 then 0 else i - 1
    case NextButton => if len - 1 < i + 1 then len - 1 else i + 1
    case KeyPress(k) =>
      if k == ArrowLeft && i > 0 then i - 1
      else if k == ArrowRight && i < len - 1 then i + 1
      else i
  }

  /** The index is a valid page, or 0 while there is no page yet. */
  predicate InRange(i: int, len: nat) { 0 <= i && (i < len || i == 0) }

  /** Only Escape goes back, and only when no arrow handled the key first. */
  function GoesBack(e: NavEvent): bool
  {
    e == KeyPress(Escape)
  }

  /** Buttons exist only in the reader view, where there is at least one image. */
  predicate Enabled(e: NavEvent, len: nat) { e.KeyPress? || len > 0 }

  /** One event keeps the index in range. */
  lemma StepInRange(e: NavEvent, i: int, len: nat)
    requires InRange(i, len) && Enabled(e, len)
    ensures InRange(Step(e, i, len), len)
  {
  }

  /** Both ways of moving agree inside the range, and both are no-ops at the ends. */
  lemma KeysAgreeWithButtons(i: int, len: nat)
    requires 0 <= i < len
    ensures Step(KeyPress(ArrowLeft), i, len) == Step(PrevButton, i, len)
    ensures Step(KeyPress(ArrowRight), i, len) == Step(NextButton, i, len)
    ensures i == 0 ==> Step(PrevButton, i, len) == 0 && Step(KeyPress(ArrowLeft), i, len) == 0
    ensures i == len - 1 ==> Step(NextButton, i, len) == i && Step(KeyPress(ArrowRight), i, len) == i
    ensures 0 < i ==> Step(PrevButton, i, len) == i - 1
    ensures i < len - 1 ==> Step(NextButton, i, len) == i + 1
  {
  }

  /** The index after a sequence of events. */
  function Run(events: seq<NavEvent>, i: int, len: nat): int
  {
    if events == [] then i else Run(events[1..], Step(events[0], i, len), len)
  }

  /** Starting from page 0, every sequence of events keeps the index on a page. */
  lemma {:induction false} RunInRange(events: seq<NavEvent>, i: int, len: nat)
    requires InRange(i, len)
    requires forall k :: 0 <= k < |events| ==> Enabled(events[k], len)
    ensures InRange(Run(events, i, len), len)
  {
    if events != [] {
      StepInRange(events[0], i, len);
      RunInRange(events[1..], Step(events[0], i, len), len);
    }
  }

  /** Exactly the image at the index is shown; the counter reads `i + 1 / len`. */
  function Counter(i: int, len: nat): (c: (int, nat))
    requires InRange(i, len) && len > 0
    ensures c == (i + 1, len)
    ensures 1 <= c.0 <= c.1 == len
  {
    (i + 1, len)
  }

  /** The image at position `k` is the one displayed. */
  predicate Shown(k: int, i: int) { k == i }

  lemma ExactlyOneShown(i: int, len: nat)
    requires InRange(i, len) && len > 0
    ensures (set k | 0 <= k < len && Shown(k, i)) == {i}
  {
  }

  /**
   * The page state: the index and the image list of the latest render.
   * The list starts empty while the payload loads and is set once.
   */
  class Page {
    var index: int
    var images: seq<string>

    ghost predicate Valid()
      reads this
    {
      InRange(index, |images|)
    }

    constructor ()
      ensures Valid() && index == 0 && images == []
    {
      index := 0;
      images := [];
    }

    /** The payload arrived: the list is derived from it; the index is kept. */
    method Loaded(urls: seq<string>)
      requires Valid() && images == []
      modifies this
      ensures Valid() && images == urls && index == old(index)
    {
      images := urls;
    }

    /** A click on the previous-page button. */
    method Prev()
      requires Valid() && |images| > 0
      modifies this
      ensures Valid() && images == old(images)
      ensures index == Step(PrevButton, old(index), |images|)
    {
      index := if 0 > index - 1 then 0 else index - 1;
    }

    /** A click on the next-page button. */
    method Next()
      requires Valid() && |images| > 0
      modifies this
      ensures Valid() && images == old(images)
      ensures index == Step(NextButton, old(index), |images|)
    {
      index := if |images| - 1 < index + 1 then |images| - 1 else index + 1;
    }

    /** The keydown handler; `back` is the request to leave the reader. */
    method KeyDown(key: Key) returns (back: bool)
      requires Valid()
      modifies this
      ensures Valid() && images == old(images)
      ensures index == Step(KeyPress(key), old(index), |images|)
      ensures back == GoesBack(KeyPress(key))
    {
      back := false;
      if key == ArrowLeft && index > 0 {
        index := index - 1;
      } else if key == ArrowRight && index < |images| - 1 {
        index := index + 1;
      } else if key == Escape {
        back := true;
      }
    }
  }
}

/**
 * The search results page: the keyword comes from the query string, the
 * page number is local state moved by two pagination buttons, and the view
 * shown is one of a prompt, a spinner, an error, a "nothing found" text or
 * the result grid with optional pagination.
 */
module SearchPage {
  import opened Wrappers
  import opened ComicApi
  import ComicCard

  /**
   * The value of `Math.ceil(totalItems / totalItemsPerPage)`. The per-page
   * count is not part of the response type, so when the server leaves it out
   * the division yields NaN; a per-page count of 0 yields Infinity for a
   * positive total and NaN for a zero one.
   */
  datatype PageCount = Finite(pages: nat) | NotANumber | Infinite

  /** Integer ceiling division. */
  function CeilDiv(n: nat, d: nat): (t: nat)
    requires d > 0
    ensures n <= t * d
    ensures t == 0 || (t - 1) * d < n
    ensures t == 0 <==> n == 0
  {
    var t := (n + d - 1) / d;
    assert n + d - 1 == t * d + (n + d - 1) % d;
    t
  }

  function TotalPages(totalItems: nat, perPage: Option<nat>): (c: PageCount)
    ensures c.Finite? <==> perPage.Some? && perPage.value > 0
    ensures c.Infinite? <==> perPage == Some(0) && totalItems > 0
    ensures c.Finite? ==> c.pages == CeilDiv(totalItems, perPage.value)
  {
    match perPage
    case None => NotANumber
    case Some(d) =>
      if d > 0 then Finite(CeilDiv(totalItems, d))
      else if totalItems > 0 then Infinite
      else NotANumber
  }

  /** 50 items at 24 a page make 3 pages. */
  lemma FiftyItemsMakeThreePages()
    ensures TotalPages(50, Some(24)) == Finite(3)
  {
  }

  /** `totalPages > 1` in JavaScript: false for NaN, true for Infinity. */
  predicate MoreThanOne(c: PageCount)
  {
    match c
    case Finite(n) => n > 1
    case NotANumber => false
    case Infinite => true
  }

  /** `Math.min(totalPages, page + 1)`: NaN swallows the page, Infinity never bounds it. */
  function NextPage(page: int, c: PageCount): Option<int>
  {
    match c
    case Finite(n) => Some(if n < page + 1 then n else page + 1)
    case NotANumber => None
    case Infinite => Some(page + 1)
  }

  /** `Math.max(1, page - 1)` */
  function PrevPage(page: int): int
  {
    if 1 > page - 1 then 1 else page - 1
  }

  function PrevDisabled(page: int): bool { page == 1 }

  function NextDisabled(page: int, c: PageCount): bool { c.Finite? && page == c.pages }

  /**
   * On a valid page a button is disabled exactly when pressing it would
   * leave the page where it is, and otherwise it moves by one.
   */
  lemma DisabledMeansNoOp(page: int, c: PageCount)
    requires 1 <= page && (c.Finite? ==> page <= c.pages) && MoreThanOne(c)
    ensures PrevDisabled(page) <==> PrevPage(page) == page
    ensures !PrevDisabled(page) ==> PrevPage(page) == page - 1
    ensures NextPage(page, c).Some?
    ensures NextDisabled(page, c) <==> NextPage(page, c).value == page
    ensures !NextDisabled(page, c) ==> NextPage(page, c).value == page + 1
  {
  }

  datatype PageEvent = PrevClick | NextClick

  /** The page after a click. Buttons only exist while `MoreThanOne(c)`, so NaN never reaches here. */
  function PageStep(e: PageEvent, page: int, c: PageCount): int
    requires MoreThanOne(c)
  {
    match e
    case PrevClick => PrevPage(page)
    case NextClick => NextPage(page, c).value
  }

  function PageRun(events: seq<PageEvent>, page: int, c: PageCount): int
    requires MoreThanOne(c)
  {
    if events == [] then page else PageRun(events[1..], PageStep(events[0], page, c), c)
  }

  predicate PageInRange(page: int, c: PageCount)
  {
    1 <= page && (c.Finite? ==> page <= c.pages)
  }

  /** From page 1, every sequence of clicks stays within `1..totalPages`. */
  lemma {:induction false} PageRunInRange(events: seq<PageEvent>, page: int, c: PageCount)
    requires MoreThanOne(c) && PageInRange(page, c)
    ensures PageInRange(PageRun(events, page, c), c)
  {
    if events != [] {
      assert PageInRange(PageStep(events[0], page, c), c);
      PageRunInRange(events[1..], PageStep(events[0], page, c), c);
    }
  }

  /** `searchParams.get('keyword') || ''` */
  function KeywordOf(param: Option<string>): (k: string)
    ensures param.Some? ==> k == param.value
    ensures param.None? ==> k == ""
  {
    param.GetOr("")
  }

  /** The request the page issues; none for an empty keyword. */
  function SearchRequest(keyword: string, page: int): (r: Option<string>)
    ensures r.None? <==> keyword == ""
    ensures r.Some? ==> r.value == Query(SearchComics(keyword, Some(page)))
  {
    if keyword == "" then None else Some(Query(SearchComics(keyword, Some(page))))
  }

  /**
   * The part of a search payload the page reads. The image host, like the
   * per-page count, is not part of the response type, so either may be absent.
   */
  datatype SearchData = SearchData(items: seq<Comic>, cdnImage: Option<string>, totalItems: nat, perPage: Option<nat>)

  datatype Pagination = Pagination(page: int, totalPages: PageCount, prevDisabled: bool, nextDisabled: bool)

  datatype View =
    | Prompt
    | Loading
    | Failed
    | NothingFound
    | Results(items: seq<Comic>, cdnImage: Option<string>, totalItems: nat, pagination: Option<Pagination>)

  const PromptText: string := "Vui lòng nhập từ khóa tìm kiếm"
  const ErrorText: string := "Có lỗi xảy ra khi tìm kiếm"
  const NothingFoundText: string := "Không tìm thấy truyện nào"

  function SelectView(keyword: string, page: int, isLoading: bool, failed: bool, data: Option<SearchData>): (v: View)
    ensures v == Prompt <==> keyword == ""
    ensures v == Loading <==> keyword != "" && isLoading
    ensures v == Failed <==> keyword != "" && !isLoading && (failed || data.None?)
    ensures v == NothingFound <==> keyword != "" && !isLoading && !failed && data.Some? && data.value.items == []
    ensures v.Results? <==> keyword != "" && !isLoading && !failed && data.Some? && data.value.items != []
    ensures v.Results? ==> v.items == data.value.items && v.cdnImage == data.value.cdnImage
    ensures v.Results? ==> v.totalItems == data.value.totalItems
    ensures v.Results? && data.value.cdnImage.None? ==> ComicCard.CdnOrDefault(v.cdnImage) == ComicCard.DefaultCdn
    ensures v.Results? && data.value.cdnImage.Some? ==> ComicCard.CdnOrDefault(v.cdnImage) == data.value.cdnImage.value
    ensures v.Results? ==> (v.pagination.Some? <==> MoreThanOne(TotalPages(data.value.totalItems, data.value.perPage)))
    ensures v.Results? && v.pagination.Some? ==>
      v.pagination.value == Pagination(page, TotalPages(data.value.totalItems, data.value.perPage),
                                       PrevDisabled(page), NextDisabled(page, TotalPages(data.value.totalItems, data.value.perPage)))
  {
    if keyword == "" then Prompt
    else if isLoading then Loading
    else if failed || data.None? then Failed
    else
      var d := data.value;
      var total := TotalPages(d.totalItems, d.perPage);
      if |d.items| == 0 then NothingFound
      else
        Results(d.items, d.cdnImage, d.totalItems,
          if MoreThanOne(total) then Some(Pagination(page, total, PrevDisabled(page), NextDisabled(page, total))) else None)
  }

  /** The page-number state; it starts at 1. */
  class Pager {
    var page: int

    constructor ()
      ensures page == 1
    {
      page := 1;
    }

    method Prev()
      modifies this
      ensures page == PrevPage(old(page))
    {
      page := if 1 > page - 1 then 1 else page - 1;
    }

    /** Pressing "next" while `totalPages > 1`. */
    method Next(total: PageCount)
      requires MoreThanOne(total)
      modifies this
      ensures page == PageStep(NextClick, old(page), total)
    {
      match total
      case Finite(n) => page := if n < page + 1 then n else page + 1;
      case Infinite => page := page + 1;
    }
  }
}

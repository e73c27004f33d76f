/**
 * The comic-content API client: the shapes of the records it returns and,
 * for each endpoint, the request path its `query` builds and the cache tags
 * its `providesTags` declares. Fetching, caching and invalidation belong to
 * the data-fetching library and are not part of this model.
 */
module ComicApi {
  import opened Wrappers
  import opened Text
  import opened Uri

  /** The API root every relative path is resolved against. */
  const BaseUrl: string := "https://otruyenapi.com/v1/api"

  datatype Category = Category(id: string, name: string, slug: string)

  /** A chapter reference; `chapterApiData` is the opaque locator of its payload. */
  datatype Chapter = Chapter(filename: string, chapterName: string, chapterTitle: string, chapterApiData: string)

  /** A named "server": one alternate source of the chapter list. */
  datatype ChapterGroup = ChapterGroup(serverName: string, serverData: seq<Chapter>)

  /**
   * A comic as listings return it. `status` is typed 'ongoing' | 'completed'
   * but arrives as whatever string the server sends, so it is a string here.
   */
  datatype Comic = Comic(
    id: string,
    name: string,
    slug: string,
    originName: seq<string>,
    status: string,
    thumbUrl: string,
    category: seq<Category>,
    chaptersLatest: Option<seq<Chapter>>,
    chapters: Option<seq<ChapterGroup>>)

  /** One page image of a chapter payload: its order number and its file name. */
  datatype ChapterImage = ChapterImage(imagePage: int, imageFile: string)

  /** The `item` of a chapter payload; `chapterImage` may be absent. */
  datatype ChapterItem = ChapterItem(chapterName: string, chapterPath: string, chapterImage: Option<seq<ChapterImage>>)

  /** The `data` of a chapter payload; `item` may be absent. */
  datatype ChapterData = ChapterData(domainCdn: string, item: Option<ChapterItem>)

  /** The tag types the API slice declares. */
  datatype TagType = ComicTag | HomeTag | CategoryTag

  /** A cache tag: a bare type (`'Home'`) or a type with an id (`{ type: 'Comic', id: slug }`). */
  datatype Tag = Tag(tagType: TagType, id: Option<string>)

  /** Every endpoint with its arguments; an omitted `page` is None. */
  datatype Endpoint =
    | GetHomeComics
    | GetComicBySlug(slug: string)
    | GetComicsByCategory(categorySlug: string, categoryPage: Option<int>)
    | GetComicsByList(listType: string, listPage: Option<int>)
    | GetCategories
    | SearchComics(keyword: string, searchPage: Option<int>)
    | GetChapterData(chapterUrl: string)

  /** The page an omitted `page` argument defaults to. */
  const DefaultPage: int := 1

  /** The `page=${page}` parameter of the paged endpoints. */
  function PageParam(page: int): string
  {
    "page=" + IntToString(page)
  }

  /** The request path each endpoint's `query` builds. */
  function Query(e: Endpoint): string
  {
    match e
    case GetHomeComics => "/home"
    case GetComicBySlug(slug) => "/truyen-tranh/" + slug
    case GetComicsByCategory(slug, page) => "/the-loai/" + slug + "?" + PageParam(page.GetOr(DefaultPage))
    case GetComicsByList(t, page) => "/danh-sach/" + t + "?" + PageParam(page.GetOr(DefaultPage))
    case GetCategories => "/the-loai"
    case SearchComics(keyword, page) =>
      "/tim-kiem?" + "keyword=" + EncodeUriComponent(keyword) + "&" + PageParam(page.GetOr(DefaultPage))
    case GetChapterData(url) => url
  }

  /** The tags each endpoint's `providesTags` declares. */
  function ProvidesTags(e: Endpoint): seq<Tag>
  {
    match e
    case GetHomeComics => [Tag(HomeTag, None)]
    case GetComicBySlug(slug) => [Tag(ComicTag, Some(slug))]
    case GetComicsByCategory(slug, _) => [Tag(CategoryTag, Some(slug))]
    case GetComicsByList(_, _) => [Tag(HomeTag, None)]
    case GetCategories => [Tag(CategoryTag, None)]
    case SearchComics(_, _) => []
    case GetChapterData(_) => []
  }

  /** An omitted page is page 1 for the category, list and search endpoints. */
  lemma OmittedPageIsOne(slug: string, listType: string, keyword: string)
    ensures Query(GetComicsByCategory(slug, None)) == Query(GetComicsByCategory(slug, Some(1)))
    ensures Query(GetComicsByList(listType, None)) == Query(GetComicsByList(listType, Some(1)))
    ensures Query(SearchComics(keyword, None)) == Query(SearchComics(keyword, Some(1)))
  {
  }

  /** The chapter-data request is the locator itself, and the detail path ends in the slug. */
  lemma QueryPassThrough(url: string, slug: string)
    ensures Query(GetChapterData(url)) == url
    ensures "/truyen-tranh/" <= Query(GetComicBySlug(slug))
    ensures Query(GetComicBySlug(slug))[|"/truyen-tranh/"|..] == slug
  {
  }

  /** Different (slug, page) pairs ask for different category paths, whatever the slug holds. */
  lemma CategoryQueryInjective(slug1: string, page1: int, slug2: string, page2: int)
    requires Query(GetComicsByCategory(slug1, Some(page1))) == Query(GetComicsByCategory(slug2, Some(page2)))
    ensures slug1 == slug2 && page1 == page2
  {
    var h1, h2 := "/the-loai/" + slug1, "/the-loai/" + slug2;
    assert Query(GetComicsByCategory(slug1, Some(page1))) == h1 + ['?'] + "page=" + IntToString(page1);
    assert Query(GetComicsByCategory(slug2, Some(page2))) == h2 + ['?'] + "page=" + IntToString(page2);
    HeadAndNumberInjective(h1, page1, h2, page2, '?', "page=");
    assert slug1 == h1[|"/the-loai/"|..] && slug2 == h2[|"/the-loai/"|..];
  }

  /** Different (type, page) pairs ask for different list paths. */
  lemma ListQueryInjective(type1: string, page1: int, type2: string, page2: int)
    requires Query(GetComicsByList(type1, Some(page1))) == Query(GetComicsByList(type2, Some(page2)))
    ensures type1 == type2 && page1 == page2
  {
    var h1, h2 := "/danh-sach/" + type1, "/danh-sach/" + type2;
    assert Query(GetComicsByList(type1, Some(page1))) == h1 + ['?'] + "page=" + IntToString(page1);
    assert Query(GetComicsByList(type2, Some(page2))) == h2 + ['?'] + "page=" + IntToString(page2);
    HeadAndNumberInjective(h1, page1, h2, page2, '?', "page=");
    assert type1 == h1[|"/danh-sach/"|..] && type2 == h2[|"/danh-sach/"|..];
  }

  /**
   * The search path has exactly two query parameters, `keyword` and `page`,
   * whatever the keyword holds, because `encodeURIComponent` escapes `&`,
   * `=`, `?` and `#`; and the keyword parameter reads back as the keyword.
   */
  lemma SearchQueryParameters(keyword: string, page: int)
    ensures "/tim-kiem?" <= Query(SearchComics(keyword, Some(page)))
    ensures '?' !in Query(SearchComics(keyword, Some(page)))[|"/tim-kiem?"|..]
    ensures '#' !in Query(SearchComics(keyword, Some(page)))
    ensures Split(Query(SearchComics(keyword, Some(page)))[|"/tim-kiem?"|..], '&')
         == ["keyword=" + EncodeUriComponent(keyword), "page=" + IntToString(page)]
    ensures FormDecode(EncodeUriComponent(keyword)) == Some(keyword)
  {
    var e := EncodeUriComponent(keyword);
    var d := IntToString(page);
    var q := Query(SearchComics(keyword, Some(page)));
    assert q == "/tim-kiem?" + (("keyword=" + e) + ['&'] + ("page=" + d));
    assert NoDelimiter(e) by { AlphabetExcludesDelimiters(e); }
    assert NoDelimiter(d) by {
      NotInIntToString('&', page);
      NotInIntToString('?', page);
      NotInIntToString('#', page);
    }
    assert NoDelimiter("keyword=") && NoDelimiter("page=") && '#' !in "/tim-kiem?";
    TwoParameterQuery("/tim-kiem?", "keyword=", e, "page=", d);
    UriComponentRoundTrip(keyword);
  }

  /** Holds none of the characters that end a query parameter or the query. */
  predicate NoDelimiter(x: string)
  {
    '&' !in x && '?' !in x && '#' !in x
  }

  /** A path `head` followed by two parameters `k1 + e` and `k2 + d`, all separator-free. */
  lemma TwoParameterQuery(head: string, k1: string, e: string, k2: string, d: string)
    requires '#' !in head
    requires NoDelimiter(k1) && NoDelimiter(e) && NoDelimiter(k2) && NoDelimiter(d)
    ensures var rest := (k1 + e) + ['&'] + (k2 + d);
      && '?' !in rest && '#' !in rest
      && Split(rest, '&') == [k1 + e, k2 + d]
      && (head + rest)[|head|..] == rest
      && '#' !in head + rest
  {
    SplitTwo(k1 + e, '&', k2 + d);
  }

  /** Different (keyword, page) pairs ask for different search paths. */
  lemma SearchQueryInjective(keyword1: string, page1: int, keyword2: string, page2: int)
    requires Query(SearchComics(keyword1, Some(page1))) == Query(SearchComics(keyword2, Some(page2)))
    ensures keyword1 == keyword2 && page1 == page2
  {
    var e1, e2 := EncodeUriComponent(keyword1), EncodeUriComponent(keyword2);
    var head := "/tim-kiem?" + "keyword=";
    var h1, h2 := head + e1, head + e2;
    assert Query(SearchComics(keyword1, Some(page1))) == h1 + ['&'] + "page=" + IntToString(page1);
    assert Query(SearchComics(keyword2, Some(page2))) == h2 + ['&'] + "page=" + IntToString(page2);
    HeadAndNumberInjective(h1, page1, h2, page2, '&', "page=");
    assert e1 == h1[|head|..] && e2 == h2[|head|..];
    UriComponentRoundTrip(keyword1);
    UriComponentRoundTrip(keyword2);
  }

  /**
   * The home feed and every list page share the bare `Home` tag; a comic's
   * detail and a category page are tagged by their own slug; search results
   * and chapter payloads carry no tag, so no tag invalidation refetches them.
   */
  lemma TagsByEndpoint(listType: string, page: Option<int>, slug: string, keyword: string, url: string)
    ensures ProvidesTags(GetHomeComics) == ProvidesTags(GetComicsByList(listType, page)) == [Tag(HomeTag, None)]
    ensures ProvidesTags(GetComicBySlug(slug)) == [Tag(ComicTag, Some(slug))]
    ensures forall p :: ProvidesTags(GetComicsByCategory(slug, p)) == [Tag(CategoryTag, Some(slug))]
    ensures forall p :: ProvidesTags(SearchComics(keyword, p)) == []
    ensures ProvidesTags(GetChapterData(url)) == []
    ensures ProvidesTags(GetCategories) == [Tag(CategoryTag, None)]
  {
  }

  /**
   * A comic's detail tag belongs to its detail endpoint alone: invalidating
   * `{ type: 'Comic', id: slug }` refetches that comic's detail and nothing else.
   */
  lemma DetailTagOwner(e: Endpoint, slug: string)
    ensures Tag(ComicTag, Some(slug)) in ProvidesTags(e) <==> e == GetComicBySlug(slug)
  {
  }

  /** Likewise a category's tag belongs to that category's pages alone. */
  lemma CategoryTagOwner(e: Endpoint, slug: string)
    ensures Tag(CategoryTag, Some(slug)) in ProvidesTags(e) <==> e.GetComicsByCategory? && e.categorySlug == slug
  {
  }
}

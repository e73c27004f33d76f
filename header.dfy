/**
 * The site header: the search form that sends a trimmed keyword to the
 * search page, the search and menu toggles backed by the UI store, and the
 * rule that hides the header on the chapter reader.
 */
module Header {
  import opened Wrappers
  import opened Text
  import opened Uri
  import UiSlice

  /** The path the header never renders on. */
  const ReaderPath: string := "/chapter"

  function HeaderShown(pathname: string): (shown: bool)
    ensures shown <==> pathname != ReaderPath
  {
    pathname != ReaderPath
  }

  /** The search page's path with its query mark, and the parameter the header fills. */
  const SearchPath: string := "/tim-kiem?"
  const KeywordParam: string := "keyword"

  /** The navigation target for a submitted query. */
  function SearchUrl(q: string): string
  {
    SearchPath + KeywordParam + "=" + EncodeUriComponent(Trim(q))
  }

  /** A single `name=value` piece with no '&' reads back as that one pair. */
  lemma SinglePairReadsBack(name: string, e: string, value: string)
    requires '&' !in name && '=' !in name && FormDecode(name) == Some(name)
    requires '&' !in e && FormDecode(e) == Some(value)
    ensures ParseQuery(name + "=" + e) == Some([(name, value)])
  {
    var part := name + "=" + e;
    assert part == name + ['='] + e;
    assert part != "";
    assert '&' !in part;
    SplitNone(part, '&');
    FirstIndexAt(name, '=', e);
    assert part[..|name|] == name && part[|name| + 1..] == e;
    assert DecodePair(part) == Some((name, value));
    DecodeOnePiece(part);
  }

  /** Text made only of characters the serializer keeps is read back unchanged. */
  lemma PlainTextReadsBack(n: string)
    requires forall k :: 0 <= k < |n| ==> IsFormSafe(n[k])
    ensures '&' !in n && '=' !in n
    ensures FormDecode(n) == Some(n)
  {
    FormRoundTrip(n);
    FormAlphabetExcludesSeparators(FormEncode(n));
  }

  /** The parameter name is plain text, written and read unchanged. */
  lemma KeywordNameIsPlain()
    ensures '&' !in KeywordParam && '=' !in KeywordParam
    ensures FormDecode(KeywordParam) == Some(KeywordParam)
  {
    PlainTextReadsBack(KeywordParam);
  }

  /** The same piece behind any prefix, read from the end of the prefix. */
  lemma PrefixedPairReadsBack(head: string, name: string, e: string, value: string)
    requires '&' !in name && '=' !in name && FormDecode(name) == Some(name)
    requires '&' !in e && FormDecode(e) == Some(value)
    ensures head <= head + name + "=" + e
    ensures ParseQuery((head + name + "=" + e)[|head|..]) == Some([(name, value)])
  {
    assert (head + name + "=" + e)[|head|..] == name + "=" + e;
    SinglePairReadsBack(name, e, value);
  }

  /**
   * The search page receives exactly the trimmed text: the target's query
   * string reads back as the single pair `keyword = trim(q)` (a non-empty
   * keyword, so the page issues its request).
   */
  lemma SubmittedKeywordReachesSearchPage(q: string)
    requires Trim(q) != ""
    ensures SearchPath <= SearchUrl(q)
    ensures ParseQuery(SearchUrl(q)[|SearchPath|..]) == Some([(KeywordParam, Trim(q))])
  {
    var e := EncodeUriComponent(Trim(q));
    AlphabetExcludesDelimiters(e);
    UriComponentRoundTrip(Trim(q));
    KeywordNameIsPlain();
    PrefixedPairReadsBack(SearchPath, KeywordParam, e, Trim(q));
  }

  /** The header's own state, over the shared UI store. */
  class Bar {
    var searchQuery: string
    const store: UiSlice.UiStore

    constructor (store: UiSlice.UiStore)
      ensures this.store == store && searchQuery == ""
    {
      this.store := store;
      searchQuery := "";
    }

    /** Typing into the search field. */
    method Type(text: string)
      modifies this
      ensures searchQuery == text
    {
      searchQuery := text;
    }

    /** The search icon opens or closes the form. */
    method SearchButton()
      modifies store
      ensures store.isSearchOpen == !old(store.isSearchOpen)
      ensures store.isMenuOpen == old(store.isMenuOpen) && store.readingHistory == old(store.readingHistory)
      ensures store.selectedComic == old(store.selectedComic) && store.theme == old(store.theme)
    {
      store.ToggleSearch();
    }

    /** The menu icon opens or closes the mobile menu. */
    method MenuButton()
      modifies store
      ensures store.isMenuOpen == !old(store.isMenuOpen)
      ensures store.isSearchOpen == old(store.isSearchOpen) && store.readingHistory == old(store.readingHistory)
      ensures store.selectedComic == old(store.selectedComic) && store.theme == old(store.theme)
    {
      store.ToggleMenu();
    }

    /** A mobile-menu link: it exists only while the menu is open, and toggling closes it. */
    method MobileLink(href: string) returns (target: string)
      requires store.isMenuOpen
      modifies store
      ensures target == href && !store.isMenuOpen
      ensures store.isSearchOpen == old(store.isSearchOpen) && store.readingHistory == old(store.readingHistory)
      ensures store.selectedComic == old(store.selectedComic) && store.theme == old(store.theme)
    {
      store.ToggleMenu();
      target := href;
    }

    /**
     * Submitting the form, which is on screen only while search is open. A
     * query that trims to nothing changes nothing; any other navigates,
     * closes the form and empties the field.
     */
    method Submit() returns (navigate: Option<string>)
      requires store.isSearchOpen
      modifies this, store
      ensures navigate.None? <==> Trim(old(searchQuery)) == ""
      ensures navigate.None? ==> searchQuery == old(searchQuery) && store.isSearchOpen
      ensures navigate.Some? ==> navigate.value == SearchUrl(old(searchQuery)) && searchQuery == "" && !store.isSearchOpen
      ensures store.isMenuOpen == old(store.isMenuOpen) && store.readingHistory == old(store.readingHistory)
      ensures store.selectedComic == old(store.selectedComic) && store.theme == old(store.theme)
    {
      var trimmed := Trim(searchQuery);
      if trimmed == "" {
        return None;
      }
      navigate := Some(SearchPath + KeywordParam + "=" + EncodeUriComponent(trimmed));
      store.ToggleSearch();
      searchQuery := "";
    }
  }
}

/**
 * The UI store slice: two open/closed flags (search form, mobile menu), the
 * selected comic, a most-recent-first reading history of at most fifty
 * distinct ids, and the theme. Each reducer is a method that updates the
 * store's fields in place.
 */
module UiSlice {
  import opened Wrappers

  datatype Theme = Dark | Light

  /** The reading history never holds more entries than this. */
  const HistoryLimit: nat := 50

  predicate NoDuplicates(h: seq<string>)
  {
    forall i, j :: 0 <= i < j < |h| ==> h[i] != h[j]
  }

  /**
   * The history after `addToHistory(id)`: unchanged when `id` is already
   * there; otherwise `id` goes to the front and the list is cut back to
   * fifty entries, dropping the oldest.
   */
  function HistoryAfterAdd(h: seq<string>, id: string): seq<string>
  {
    if id in h then h
    else
      var r := [id] + h;
      if |r| > HistoryLimit then r[..HistoryLimit] else r
  }

  /** A known id changes nothing, so adding twice is adding once. */
  lemma AddKnownIsNoOp(h: seq<string>, id: string)
    requires id in h
    ensures HistoryAfterAdd(h, id) == h
  {
  }

  lemma AddIdempotent(h: seq<string>, id: string)
    ensures HistoryAfterAdd(HistoryAfterAdd(h, id), id) == HistoryAfterAdd(h, id)
  {
    var r := HistoryAfterAdd(h, id);
    assert r[0] == id || r == h;
  }

  /**
   * A new id comes first and the rest is the previous history minus
   * whatever no longer fits: the newest 49 entries, in the same order.
   */
  lemma AddNewGoesFirst(h: seq<string>, id: string)
    requires id !in h
    ensures |HistoryAfterAdd(h, id)| == (if |h| < HistoryLimit then |h| + 1 else HistoryLimit)
    ensures HistoryAfterAdd(h, id)[0] == id
    ensures HistoryAfterAdd(h, id)[1..] == h[..|HistoryAfterAdd(h, id)| - 1]
  {
    var r := [id] + h;
    if |r| > HistoryLimit {
      assert r[..HistoryLimit][1..] == h[..HistoryLimit - 1];
    } else {
      assert r[1..] == h;
    }
  }

  /** After adding, `id` is present, and every other present id was present before. */
  lemma AddMembership(h: seq<string>, id: string, x: string)
    ensures id in HistoryAfterAdd(h, id)
    ensures x in HistoryAfterAdd(h, id) && x != id ==> x in h
    ensures x in h && |h| < HistoryLimit ==> x in HistoryAfterAdd(h, id)
  {
    var r := HistoryAfterAdd(h, id);
    if id !in h {
      AddNewGoesFirst(h, id);
      assert r == [id] + r[1..];
      if x in r && x != id {
        assert x in r[1..];
        assert x in h[..|r| - 1];
      }
      if x in h && |h| < HistoryLimit {
        assert r[1..] == h;
      }
    }
  }

  /** The store's history invariant: distinct ids, at most fifty of them. */
  predicate HistoryValid(h: seq<string>)
  {
    NoDuplicates(h) && |h| <= HistoryLimit
  }

  lemma AddPreservesHistoryValid(h: seq<string>, id: string)
    requires HistoryValid(h)
    ensures HistoryValid(HistoryAfterAdd(h, id))
  {
    if id !in h {
      var r := HistoryAfterAdd(h, id);
      AddNewGoesFirst(h, id);
      assert r == [id] + r[1..];
      forall i, j | 0 <= i < j < |r|
        ensures r[i] != r[j]
      {
        assert r[j] == h[j - 1];
        if i > 0 {
          assert r[i] == h[i - 1];
        } else {
          assert h[j - 1] in h;
        }
      }
    }
  }

  class UiStore {
    var isSearchOpen: bool
    var isMenuOpen: bool
    var selectedComic: Option<string>
    var readingHistory: seq<string>
    var theme: Theme

    ghost predicate Valid()
      reads this
    {
      HistoryValid(readingHistory)
    }

    /** The initial state: everything closed, nothing selected, empty history, dark theme. */
    constructor ()
      ensures Valid()
      ensures !isSearchOpen && !isMenuOpen && selectedComic == None
      ensures readingHistory == [] && theme == Dark
    {
      isSearchOpen := false;
      isMenuOpen := false;
      selectedComic := None;
      readingHistory := [];
      theme := Dark;
    }

    method ToggleSearch()
      modifies this
      ensures isSearchOpen == !old(isSearchOpen)
      ensures isMenuOpen == old(isMenuOpen) && selectedComic == old(selectedComic)
      ensures readingHistory == old(readingHistory) && theme == old(theme)
    {
      isSearchOpen := !isSearchOpen;
    }

    method CloseSearch()
      modifies this
      ensures !isSearchOpen
      ensures isMenuOpen == old(isMenuOpen) && selectedComic == old(selectedComic)
      ensures readingHistory == old(readingHistory) && theme == old(theme)
    {
      isSearchOpen := false;
    }

    method ToggleMenu()
      modifies this
      ensures isMenuOpen == !old(isMenuOpen)
      ensures isSearchOpen == old(isSearchOpen) && selectedComic == old(selectedComic)
      ensures readingHistory == old(readingHistory) && theme == old(theme)
    {
      isMenuOpen := !isMenuOpen;
    }

    method CloseMenu()
      modifies this
      ensures !isMenuOpen
      ensures isSearchOpen == old(isSearchOpen) && selectedComic == old(selectedComic)
      ensures readingHistory == old(readingHistory) && theme == old(theme)
    {
      isMenuOpen := false;
    }

    method SetSelectedComic(comic: Option<string>)
      modifies this
      ensures selectedComic == comic
      ensures isSearchOpen == old(isSearchOpen) && isMenuOpen == old(isMenuOpen)
      ensures readingHistory == old(readingHistory) && theme == old(theme)
    {
      selectedComic := comic;
    }

    /** Prepends a new id and truncates to fifty; a known id is ignored. */
    method AddToHistory(id: string)
      requires Valid()
      modifies this
      ensures Valid()
      ensures readingHistory == HistoryAfterAdd(old(readingHistory), id)
      ensures isSearchOpen == old(isSearchOpen) && isMenuOpen == old(isMenuOpen)
      ensures selectedComic == old(selectedComic) && theme == old(theme)
    {
      AddPreservesHistoryValid(readingHistory, id);
      if id !in readingHistory {
        readingHistory := [id] + readingHistory;
        if |readingHistory| > HistoryLimit {
          readingHistory := readingHistory[..HistoryLimit];
        }
      }
    }

    method SetTheme(t: Theme)
      modifies this
      ensures theme == t
      ensures isSearchOpen == old(isSearchOpen) && isMenuOpen == old(isMenuOpen)
      ensures selectedComic == old(selectedComic) && readingHistory == old(readingHistory)
    {
      theme := t;
    }
  }

  /** Toggling each flag twice restores it and leaves every other field alone. */
  method ToggleTwiceRestores(store: UiStore)
    modifies store
    ensures store.isSearchOpen == old(store.isSearchOpen) && store.isMenuOpen == old(store.isMenuOpen)
    ensures store.readingHistory == old(store.readingHistory)
    ensures store.selectedComic == old(store.selectedComic) && store.theme == old(store.theme)
  {
    store.ToggleSearch();
    store.ToggleSearch();
    store.ToggleMenu();
    store.ToggleMenu();
  }

  /** Closing is idempotent: closing an already closed flag changes nothing. */
  method CloseTwiceIsCloseOnce(store: UiStore)
    modifies store
    ensures !store.isSearchOpen && !store.isMenuOpen
    ensures store.selectedComic == old(store.selectedComic) && store.readingHistory == old(store.readingHistory)
    ensures store.theme == old(store.theme)
  {
    store.CloseSearch();
    store.CloseMenu();
    ghost var once := (store.isSearchOpen, store.isMenuOpen);
    store.CloseSearch();
    store.CloseMenu();
    assert (store.isSearchOpen, store.isMenuOpen) == once;
  }
}

/**
 * The watch-history page: it loads the signed-in user's comic history once,
 * deletes single entries and clears the whole list after a confirmation,
 * and links each entry to its detail page.
 */
module WatchHistoryPage {
  import opened Wrappers
  import opened WatchHistoryService

  /** The history after a confirmed delete: every entry of that content goes, the rest stay in order. */
  function RemoveEntries(h: seq<WatchHistory>, contentId: string): (r: seq<WatchHistory>)
    ensures |r| <= |h|
    ensures forall e :: e in r <==> e in h && e.contentId != contentId
  {
    if h == [] then []
    else (if h[0].contentId != contentId then [h[0]] else []) + RemoveEntries(h[1..], contentId)
  }

  /** Removal works piece by piece, so it never reorders what it keeps. */
  lemma {:induction false} RemoveEntriesConcat(a: seq<WatchHistory>, b: seq<WatchHistory>, contentId: string)
    ensures RemoveEntries(a + b, contentId) == RemoveEntries(a, contentId) + RemoveEntries(b, contentId)
  {
    if a == [] {
      assert a + b == b;
    } else {
      assert (a + b)[0] == a[0] && (a + b)[1..] == a[1..] + b;
      RemoveEntriesConcat(a[1..], b, contentId);
    }
  }

  /** Every kept entry keeps its multiplicity; every entry of the deleted content is gone. */
  lemma {:induction false} RemoveEntriesCounts(h: seq<WatchHistory>, contentId: string, e: WatchHistory)
    ensures multiset(RemoveEntries(h, contentId))[e] == if e.contentId == contentId then 0 else multiset(h)[e]
  {
    if h != [] {
      RemoveEntriesCounts(h[1..], contentId, e);
      var head := if h[0].contentId != contentId then [h[0]] else [];
      var rest := RemoveEntries(h[1..], contentId);
      assert multiset(head + rest) == multiset(head) + multiset(rest);
      assert h == [h[0]] + h[1..];
      assert multiset(h) == multiset([h[0]]) + multiset(h[1..]);
    }
  }

  /** Deleting the same content twice is deleting it once. */
  lemma {:induction false} RemoveEntriesIdempotent(h: seq<WatchHistory>, contentId: string)
    ensures RemoveEntries(RemoveEntries(h, contentId), contentId) == RemoveEntries(h, contentId)
  {
    if h != [] {
      RemoveEntriesIdempotent(h[1..], contentId);
      var head := if h[0].contentId != contentId then [h[0]] else [];
      RemoveEntriesConcat(head, RemoveEntries(h[1..], contentId), contentId);
      assert RemoveEntries(head, contentId) == head by {
        if head != [] {
          assert head[1..] == [];
        }
      }
    }
  }

  /** `/phim/<id>` for a movie, `/truyen-tranh/<id>` for anything else. */
  function ItemHref(e: WatchHistory): (href: string)
    ensures e.contentType == Movie ==> href == "/phim/" + e.contentId
    ensures e.contentType != Movie ==> href == "/truyen-tranh/" + e.contentId
  {
    "/" + (if e.contentType == Movie then "phim" else "truyen-tranh") + "/" + e.contentId
  }

  const DeleteFailed: string := "Xóa thất bại"

  datatype View = Loading | Empty | Entries(items: seq<WatchHistory>, clearAll: bool)

  /** The clear-all control exists exactly when there is something to clear. */
  function SelectView(loading: bool, history: seq<WatchHistory>): (v: View)
    ensures v == Loading <==> loading
    ensures v == Empty <==> !loading && history == []
    ensures v.Entries? ==> v.items == history && v.clearAll
  {
    if loading then Loading
    else if |history| == 0 then Empty
    else Entries(history, |history| > 0)
  }

  /** What mounting the page does: leave for the home page, or fetch the comic history. */
  datatype MountEffect = RedirectHome | FetchHistory(contentType: ContentType)

  class Page {
    var history: seq<WatchHistory>
    var loading: bool

    constructor ()
      ensures history == [] && loading
    {
      history := [];
      loading := true;
    }

    /** The mount effect: a signed-out visitor is sent home and nothing is fetched. */
    method Mount(signedIn: bool) returns (effect: MountEffect)
      modifies this
      ensures !signedIn ==> effect == RedirectHome
      ensures signedIn ==> effect == FetchHistory(Comic)
      ensures history == old(history)
      ensures loading == (old(loading) || signedIn)
    {
      if !signedIn {
        return RedirectHome;
      }
      loading := true;
      effect := FetchHistory(Comic);
    }

    /** The fetch settled: a success replaces the list, and loading ends either way. */
    method FinishLoad(outcome: Outcome<WatchHistoryResponse>)
      modifies this
      ensures !loading
      ensures history == (if outcome.Ok? then outcome.body.items else old(history))
    {
      if outcome.Ok? {
        history := outcome.body.items;
      }
      loading := false;
    }

    /**
     * Deleting one content's entries. A declined confirmation sends nothing;
     * otherwise the server's answer decides whether the list shrinks.
     */
    method Delete(contentId: string, confirmed: bool, outcome: Outcome<()>) returns (sent: bool, alert: Option<string>)
      modifies this
      ensures sent == confirmed
      ensures history == (if confirmed && outcome.Ok? then RemoveEntries(old(history), contentId) else old(history))
      ensures alert == (if confirmed && outcome.Failed? then Some(DeleteFailed) else None)
      ensures loading == old(loading)
    {
      sent := false;
      alert := None;
      if !confirmed {
        return;
      }
      sent := true;
      if outcome.Ok? {
        history := RemoveEntries(history, contentId);
      } else {
        alert := Some(DeleteFailed);
      }
    }

    /** Clearing the whole history, with the same confirmation and failure handling. */
    method Clear(confirmed: bool, outcome: Outcome<()>) returns (sent: bool, alert: Option<string>)
      modifies this
      ensures sent == confirmed
      ensures history == (if confirmed && outcome.Ok? then [] else old(history))
      ensures alert == (if confirmed && outcome.Failed? then Some(DeleteFailed) else None)
      ensures loading == old(loading)
    {
      sent := false;
      alert := None;
      if !confirmed {
        return;
      }
      sent := true;
      if outcome.Ok? {
        history := [];
      } else {
        alert := Some(DeleteFailed);
      }
    }
  }
}

/**
 * The favorite button: a state machine over `isFavorite`, `loading` and
 * `isAuthenticated`. Server calls are abstract: a click issues a request and
 * a later answer, success or failure, finishes it.
 */
module FavoriteButton {
  import opened Wrappers

  datatype Request = AddFavorite | RemoveFavorite

  /** A favorite is removed, anything else is added. */
  function RequestFor(isFavorite: bool): (r: Request)
    ensures r == RemoveFavorite <==> isFavorite
  {
    if isFavorite then RemoveFavorite else AddFavorite
  }

  /** The favorite status a successful request establishes. */
  function Confirmed(r: Request): bool
  {
    r == AddFavorite
  }

  /** A confirmed toggle lands on the opposite of where it started. */
  lemma ConfirmedFlips(isFavorite: bool)
    ensures Confirmed(RequestFor(isFavorite)) == !isFavorite
  {
  }

  const LoginPrompt: string := "Vui lòng đăng nhập để lưu yêu thích"
  const GenericFailure: string := "Có lỗi xảy ra"

  /** `error.response?.data?.message || 'Có lỗi xảy ra'` */
  function FailureText(message: Option<string>): (text: string)
    ensures text != ""
    ensures message.Some? && message.value != "" ==> text == message.value
    ensures message.None? || message.value == "" ==> text == GenericFailure
  {
    if message.Some? && message.value != "" then message.value else GenericFailure
  }

  /** The button's caption. */
  function Caption(isFavorite: bool): (text: string)
    ensures isFavorite ==> text == "Đã yêu thích"
    ensures !isFavorite ==> text == "Yêu thích"
  {
    if isFavorite then "Đã yêu thích" else "Yêu thích"
  }

  /** What a click does outwardly. */
  datatype ClickEffect =
    | Ignored            // the button is disabled while a toggle is in flight
    | Alerted(text: string)
    | Sent(request: Request)

  class Button {
    var isFavorite: bool
    var loading: bool
    var isAuthenticated: bool
    /** The request in flight, if any. */
    var pending: Option<Request>

    ghost predicate Valid()
      reads this
    {
      loading <==> pending.Some?
    }

    constructor ()
      ensures Valid()
      ensures !isFavorite && !loading && !isAuthenticated && pending.None?
    {
      isFavorite := false;
      loading := false;
      isAuthenticated := false;
      pending := None;
    }

    /** Whether clicks reach the handler: not while a toggle request is in flight. */
    function Disabled(): (d: bool)
      reads this
      ensures Valid() ==> (d <==> pending.Some?)
    {
      loading
    }

    /**
     * One run of the mount effect: it stores the current sign-in state but
     * tests the flag as it was before, so `check` reports whether a favorite
     * check is issued in this run.
     */
    method Effect(signedIn: bool) returns (check: bool)
      modifies this
      ensures check == old(isAuthenticated)
      ensures isAuthenticated == signedIn
      ensures isFavorite == old(isFavorite) && loading == old(loading) && pending == old(pending)
    {
      check := isAuthenticated;
      isAuthenticated := signedIn;
    }

    /** The answer to a favorite check: a result replaces the status, a failure keeps it. */
    method FinishCheck(answer: Answer<bool>)
      modifies this
      ensures isFavorite == (if answer.Resolved? then answer.payload else old(isFavorite))
      ensures loading == old(loading) && isAuthenticated == old(isAuthenticated) && pending == old(pending)
    {
      if answer.Resolved? {
        isFavorite := answer.payload;
      }
    }

    /** A click: signed out it only alerts; signed in it starts the request. The status never moves here. */
    method Click() returns (effect: ClickEffect)
      requires Valid()
      modifies this
      ensures Valid()
      ensures isFavorite == old(isFavorite) && isAuthenticated == old(isAuthenticated)
      ensures old(loading) ==> effect == Ignored && loading && pending == old(pending)
      ensures !old(loading) && !isAuthenticated ==>
        effect == Alerted(LoginPrompt) && !loading && pending.None?
      ensures !old(loading) && isAuthenticated ==>
        effect == Sent(RequestFor(isFavorite)) && loading && pending == Some(RequestFor(isFavorite))
    {
      if loading {
        return Ignored;
      }
      if !isAuthenticated {
        return Alerted(LoginPrompt);
      }
      loading := true;
      pending := Some(RequestFor(isFavorite));
      effect := Sent(RequestFor(isFavorite));
    }

    /** The server answered the request in flight; `loading` ends whatever the outcome. */
    method FinishToggle(answer: Answer<()>) returns (alert: Option<string>)
      requires Valid() && pending.Some?
      modifies this
      ensures Valid() && !loading && pending.None?
      ensures isFavorite == (if answer.Resolved? then Confirmed(old(pending).value) else old(isFavorite))
      ensures alert == (if answer.Rejected? then Some(FailureText(answer.message)) else None)
      ensures isAuthenticated == old(isAuthenticated)
    {
      alert := None;
      match answer {
        case Resolved(_) =>
          isFavorite := pending.value == AddFavorite;
        case Rejected(message) =>
          alert := Some(FailureText(message));
      }
      loading := false;
      pending := None;
    }
  }

  /** A signed-in toggle that the server confirms flips the status and ends loading. */
  method ConfirmedToggleFlips(b: Button)
    requires b.Valid() && b.isAuthenticated && !b.loading
    modifies b
    ensures b.Valid() && b.isFavorite == !old(b.isFavorite) && !b.loading
  {
    var effect := b.Click();
    var alert := b.FinishToggle(Resolved(()));
    ConfirmedFlips(old(b.isFavorite));
  }

  /** A rejected toggle keeps the status, reports the failure and ends loading. */
  method RejectedToggleKeeps(b: Button, message: Option<string>)
    requires b.Valid() && b.isAuthenticated && !b.loading
    modifies b
    ensures b.Valid() && b.isFavorite == old(b.isFavorite) && !b.loading
  {
    var effect := b.Click();
    var alert := b.FinishToggle(Rejected(message));
    assert alert == Some(FailureText(message));
  }

  /**
   * On mount the flag starts false, so the first effect run never checks;
   * storing a true flag re-runs the effect, and that run checks. `runs`
   * lists, per effect run, whether it issued a check.
   */
  method Mount(b: Button, signedIn: bool) returns (runs: seq<bool>)
    requires !b.isAuthenticated
    modifies b
    ensures runs == (if signedIn then [false, true] else [false])
    ensures b.isAuthenticated == signedIn && b.isFavorite == old(b.isFavorite)
  {
    var before := b.isAuthenticated;
    var first := b.Effect(signedIn);
    runs := [first];
    if b.isAuthenticated != before {
      var second := b.Effect(signedIn);
      runs := runs + [second];
    }
  }
}

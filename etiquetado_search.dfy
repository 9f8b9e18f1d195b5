/** The product-code typeahead of
    `src/components/inventory/EtiquetadoSearch.tsx` as a state machine.
    Timing is abstract: the debounce timer firing, a search request
    completing and the rejection of an aborted request arriving are events
    of their own. `value` is the parent's controlled value; a change of it
    re-runs the search effect after first running the previous run's
    cleanup (cancel the timer, abort the request). */
module EtiquetadoSearch {
  import opened Wrappers
  import SearchRoute

  /** One entry of the catalogue's answer. */
  datatype Product = Product(id: string, code: string, description: string, verified: bool)

  /** `MIN_CHARS`. */
  const MinChars := 2

  /** The `limit` the widget asks the proxy for. */
  const SearchLimit := "20"

  const SearchError := "Error al buscar productos"
  const UnknownError := "Error desconocido"

  // ---------------------------------------------------------------------
  // The highlight index

  /** ArrowDown: one down, wrapping from the last entry (or beyond) to the
      first. */
  function NextIndex(h: int, n: nat): (r: int)
    requires n > 0
    ensures -1 <= h ==> 0 <= r < n
    ensures h < n - 1 ==> r == h + 1
    ensures h >= n - 1 ==> r == 0
  {
    if h < n - 1 then h + 1 else 0
  }

  /** ArrowUp: one up, wrapping from the first entry (or from no highlight)
      to the last. */
  function PrevIndex(h: int, n: nat): (r: int)
    requires n > 0
    ensures h < n ==> -1 <= r < n
    ensures -1 <= h < n ==> 0 <= r < n
    ensures h > 0 ==> r == h - 1
    ensures h <= 0 ==> r == n - 1
  {
    if h > 0 then h - 1 else n - 1
  }

  /** The highlight after `k` presses of ArrowDown. */
  function DownPresses(h: int, n: nat, k: nat): int
    requires n > 0
    decreases k
  {
    if k == 0 then h else DownPresses(NextIndex(h, n), n, k - 1)
  }

  /** On a highlighted entry, ArrowUp undoes ArrowDown and ArrowDown undoes
      ArrowUp. */
  lemma ArrowKeysInverse(h: int, n: nat)
    requires n > 0 && 0 <= h < n
    ensures PrevIndex(NextIndex(h, n), n) == h
    ensures NextIndex(PrevIndex(h, n), n) == h
  {
  }

  lemma {:induction false} DownPressesSplit(h: int, n: nat, a: nat, b: nat)
    requires n > 0
    ensures DownPresses(h, n, a + b) == DownPresses(DownPresses(h, n, a), n, b)
    decreases a
  {
    if a > 0 {
      DownPressesSplit(NextIndex(h, n), n, a - 1, b);
    }
  }

  lemma {:induction false} DownPressesNoWrap(h: int, n: nat, k: nat)
    requires n > 0 && 0 <= h && h + k <= n - 1
    ensures DownPresses(h, n, k) == h + k
    decreases k
  {
    if k > 0 {
      DownPressesNoWrap(h + 1, n, k - 1);
    }
  }

  /** `n` presses of ArrowDown come back to the entry they started from. */
  lemma DownPressesCycle(h: int, n: nat)
    requires n > 0 && 0 <= h < n
    ensures DownPresses(h, n, n) == h
  {
    DownPressesSplit(h, n, n - 1 - h, 1 + h);
    DownPressesNoWrap(h, n, n - 1 - h);
    DownPressesSplit(n - 1, n, 1, h);
    DownPressesNoWrap(0, n, h);
  }

  // ---------------------------------------------------------------------
  // The search effect

  /** What a run of the search effect does for the new value: nothing (the
      user has not typed yet, or a selection just set it), clear the list
      (too short), or start the debounce timer. */
  datatype EffectRun = Suppressed | TooShort | Debounced

  function EffectRunFor(hasUserTyped: bool, isSelecting: bool, v: string): (e: EffectRun)
    ensures e.Suppressed? <==> !hasUserTyped || isSelecting
    ensures e.TooShort? <==> hasUserTyped && !isSelecting && |v| < MinChars
    ensures e.Debounced? <==> hasUserTyped && !isSelecting && |v| >= MinChars
  {
    if !hasUserTyped || isSelecting then Suppressed
    else if |v| < MinChars then TooShort
    else Debounced
  }

  /** The GET the timer sends to the proxy: `q` and the limit. */
  datatype SearchRequest = SearchRequest(query: string, limit: string)

  /** How a search request ends: a reply (its `ok` and the `results` of its
      body, None when absent), or a thrown error other than an abort (its
      message, None when it is not an Error). */
  datatype Completion = Responded(ok: bool, results: Option<seq<Product>>) | FetchFailed(message: Option<string>)

  /** The keys the widget reacts to. */
  datatype Key = ArrowDown | ArrowUp | Enter | Escape | OtherKey

  class SearchWidget {
    var value: string
    var isOpen: bool
    var results: seq<Product>
    var isLoading: bool
    var error: Option<string>
    var highlightedIndex: int
    var hasUserTyped: bool
    var isSelecting: bool
    /** The query of the armed debounce timer, if any. */
    var pendingQuery: Option<string>
    /** The query of the request in flight that has not been aborted. */
    var liveQuery: Option<string>
    /** Aborted requests whose rejection has not arrived yet. */
    var abortedInFlight: nat

    /** A highlight is -1 or in range; a timer or a live request is for the
      current value, which is long enough, and never both at once; nothing
      happens before the user types. */
    predicate Valid()
      reads this
    {
      && -1 <= highlightedIndex
      && (results != [] ==> highlightedIndex < |results|)
      && (pendingQuery.Some? ==> pendingQuery.value == value && |value| >= MinChars && liveQuery.None? && error.None?)
      && (liveQuery.Some? ==> liveQuery.value == value && |value| >= MinChars && error.None?)
      && (!hasUserTyped ==>
            pendingQuery.None? && liveQuery.None? && abortedInFlight == 0 &&
            results == [] && !isOpen && !isLoading && error.None?)
    }

    constructor(initialValue: string)
      ensures Valid()
      ensures value == initialValue && !isOpen && results == [] && !isLoading && error.None?
      ensures highlightedIndex == -1 && !hasUserTyped && !isSelecting
      ensures pendingQuery.None? && liveQuery.None? && abortedInFlight == 0
    {
      value := initialValue;
      isOpen := false;
      results := [];
      isLoading := false;
      error := None;
      highlightedIndex := -1;
      hasUserTyped := false;
      isSelecting := false;
      pendingQuery := None;
      liveQuery := None;
      abortedInFlight := 0;
    }

    /** The parent renders the widget with `v`. If that differs from the
      current value, the previous effect run is cleaned up and the effect
      runs again for `v`. */
    method ValueChanged(v: string)
      requires Valid()
      modifies this
      ensures Valid()
      ensures v == old(value) ==> unchanged(this)
      ensures v != old(value) ==>
        && value == v && liveQuery.None?
        && abortedInFlight == old(abortedInFlight) + (if old(liveQuery).Some? then 1 else 0)
        && hasUserTyped == old(hasUserTyped) && highlightedIndex == old(highlightedIndex)
        && !isSelecting
        && match EffectRunFor(old(hasUserTyped), old(isSelecting), v)
           case Suppressed =>
             pendingQuery.None? && results == old(results) && isOpen == old(isOpen) &&
             isLoading == old(isLoading) && error == old(error)
           case TooShort =>
             pendingQuery.None? && results == [] && !isOpen && isLoading == old(isLoading) && error.None?
           case Debounced =>
             pendingQuery == Some(v) && results == old(results) && isOpen == old(isOpen) &&
             isLoading && error.None?
    {
      if v == value {
        return;
      }
      // The previous run's cleanup: cancel its timer, abort its request.
      pendingQuery := None;
      if liveQuery.Some? {
        liveQuery := None;
        abortedInFlight := abortedInFlight + 1;
      }
      value := v;
      match EffectRunFor(hasUserTyped, isSelecting, v) {
        case Suppressed =>
          isSelecting := false;
        case TooShort =>
          results := [];
          isOpen := false;
          error := None;
        case Debounced =>
          isLoading := true;
          error := None;
          pendingQuery := Some(v);
      }
    }

    /** `handleInputChange`: the user typed, and the parent takes the text. */
    method Type(v: string)
      requires Valid()
      modifies this
      ensures Valid()
      ensures hasUserTyped && value == v
      ensures v != old(value) && !old(isSelecting) && |v| >= MinChars ==> pendingQuery == Some(v) && isLoading
      ensures v != old(value) && !old(isSelecting) && |v| < MinChars ==> pendingQuery.None? && results == [] && !isOpen
      ensures v != old(value) && !old(isSelecting) && |v| >= MinChars ==> results == old(results) && isOpen == old(isOpen)
      ensures v != old(value) && old(isSelecting) ==> pendingQuery.None?
      ensures v != old(value) ==> !isSelecting
      ensures v == old(value) ==> isSelecting == old(isSelecting)
      ensures isLoading == (old(isLoading) || (v != old(value) && !old(isSelecting) && |v| >= MinChars))
      ensures v != old(value) ==>
        liveQuery.None? && abortedInFlight == old(abortedInFlight) + (if old(liveQuery).Some? then 1 else 0)
      ensures v == old(value) ==>
        pendingQuery == old(pendingQuery) && liveQuery == old(liveQuery) && abortedInFlight == old(abortedInFlight)
      ensures v == old(value) ==> results == old(results) && isOpen == old(isOpen) && error == old(error)
      ensures v != old(value) && old(isSelecting) ==> results == old(results) && isOpen == old(isOpen) && error == old(error)
      ensures v != old(value) && !old(isSelecting) ==> error.None?
      ensures highlightedIndex == old(highlightedIndex)
    {
      hasUserTyped := true;
      ValueChanged(v);
    }

    /** `handleSelect`: the list closes and empties and the parent takes the
      product's code. The selection flag suppresses the effect run that the
      new value causes; when the code equals the current value no run
      happens, and the flag stays set. */
    method Select(p: Product)
      requires Valid() && p in results
      modifies this
      ensures Valid()
      ensures value == p.code && !isOpen && results == []
      ensures p.code != old(value) ==> !isSelecting && pendingQuery.None? && liveQuery.None?
      ensures p.code == old(value) ==> isSelecting && pendingQuery == old(pendingQuery) && liveQuery == old(liveQuery)
      ensures error == old(error) && highlightedIndex == old(highlightedIndex) && isLoading == old(isLoading)
      ensures p.code != old(value) ==> abortedInFlight == old(abortedInFlight) + (if old(liveQuery).Some? then 1 else 0)
      ensures p.code == old(value) ==> abortedInFlight == old(abortedInFlight)
      ensures hasUserTyped == old(hasUserTyped)
    {
      isSelecting := true;
      isOpen := false;
      results := [];
      ValueChanged(p.code);
    }

    /** `handleKeyDown`. */
    method KeyDown(k: Key)
      requires Valid()
      modifies this
      ensures Valid()
      ensures !old(isOpen) || old(results) == [] ==> unchanged(this)
      ensures old(isOpen) && old(results) != [] && k.ArrowDown? ==>
        highlightedIndex == NextIndex(old(highlightedIndex), |old(results)|) && 0 <= highlightedIndex < |results| &&
        results == old(results) && isOpen && value == old(value)
      ensures old(isOpen) && old(results) != [] && k.ArrowUp? ==>
        highlightedIndex == PrevIndex(old(highlightedIndex), |old(results)|) && 0 <= highlightedIndex < |results| &&
        results == old(results) && isOpen && value == old(value)
      ensures old(isOpen) && old(results) != [] && k.Escape? ==>
        !isOpen && value == old(value) && results == old(results) && highlightedIndex == old(highlightedIndex)
      ensures old(isOpen) && old(results) != [] && (k.ArrowDown? || k.ArrowUp? || k.Escape?) ==>
        && isLoading == old(isLoading) && error == old(error)
        && pendingQuery == old(pendingQuery) && liveQuery == old(liveQuery) && abortedInFlight == old(abortedInFlight)
        && hasUserTyped == old(hasUserTyped) && isSelecting == old(isSelecting)
      ensures old(isOpen) && old(results) != [] && k.Enter? && 0 <= old(highlightedIndex) < |old(results)| ==>
        value == old(results)[old(highlightedIndex)].code && !isOpen && results == []
      ensures old(isOpen) && old(results) != [] && k.Enter? && 0 <= old(highlightedIndex) < |old(results)| ==>
        var code := old(results)[old(highlightedIndex)].code;
        && (code != old(value) ==>
              !isSelecting && pendingQuery.None? && liveQuery.None? &&
              abortedInFlight == old(abortedInFlight) + (if old(liveQuery).Some? then 1 else 0))
        && (code == old(value) ==>
              isSelecting && pendingQuery == old(pendingQuery) && liveQuery == old(liveQuery) &&
              abortedInFlight == old(abortedInFlight))
        && error == old(error) && highlightedIndex == old(highlightedIndex) && isLoading == old(isLoading)
        && hasUserTyped == old(hasUserTyped)
      ensures old(isOpen) && old(results) != [] && k.Enter? && !(0 <= old(highlightedIndex) < |old(results)|) ==>
        unchanged(this)
      ensures k.OtherKey? ==> unchanged(this)
    {
      if !isOpen || results == [] {
        return;
      }
      match k {
        case ArrowDown =>
          highlightedIndex := NextIndex(highlightedIndex, |results|);
        case ArrowUp =>
          highlightedIndex := PrevIndex(highlightedIndex, |results|);
        case Enter =>
          if 0 <= highlightedIndex < |results| {
            Select(results[highlightedIndex]);
          }
        case Escape =>
          isOpen := false;
        case OtherKey =>
      }
    }

    /** `handleFocus`: reopen the list only for a long enough value with
      results. */
    method Focus()
      requires Valid()
      modifies this
      ensures Valid()
      ensures isOpen <==> old(isOpen) || (|value| >= MinChars && results != [])
      ensures value == old(value) && results == old(results) && highlightedIndex == old(highlightedIndex)
      ensures isLoading == old(isLoading) && error == old(error) && pendingQuery == old(pendingQuery)
      ensures liveQuery == old(liveQuery) && hasUserTyped == old(hasUserTyped) && isSelecting == old(isSelecting)
      ensures abortedInFlight == old(abortedInFlight)
    {
      if |value| >= MinChars && results != [] {
        isOpen := true;
      }
    }

    /** The pointer enters entry `i` of the open list. */
    method Hover(i: nat)
      requires Valid() && isOpen && error.None? && i < |results|
      modifies this
      ensures Valid()
      ensures highlightedIndex == i
      ensures value == old(value) && results == old(results) && isOpen && error == old(error)
      ensures pendingQuery == old(pendingQuery) && liveQuery == old(liveQuery) && isLoading == old(isLoading)
      ensures hasUserTyped == old(hasUserTyped) && isSelecting == old(isSelecting)
      ensures abortedInFlight == old(abortedInFlight)
    {
      highlightedIndex := i;
    }

    /** The document `mousedown` listener: a press outside the widget closes
      the list, as Escape does, so the keys and Focus see it closed; a
      press inside changes nothing. */
    method MouseDown(inside: bool)
      requires Valid()
      modifies this
      ensures Valid()
      ensures inside ==> unchanged(this)
      ensures !inside ==> !isOpen
      ensures value == old(value) && results == old(results) && highlightedIndex == old(highlightedIndex)
      ensures isLoading == old(isLoading) && error == old(error) && pendingQuery == old(pendingQuery)
      ensures liveQuery == old(liveQuery) && hasUserTyped == old(hasUserTyped) && isSelecting == old(isSelecting)
      ensures abortedInFlight == old(abortedInFlight)
    {
      if !inside {
        isOpen := false;
      }
    }

    /** The debounce timer fires: the request for the current value goes
      out (the previous controller was already aborted by the cleanup). */
    method TimerFired() returns (request: SearchRequest)
      requires Valid() && pendingQuery.Some?
      modifies this
      ensures Valid()
      ensures request == SearchRequest(old(value), SearchLimit)
      ensures liveQuery == Some(old(value)) && pendingQuery.None?
      ensures value == old(value) && results == old(results) && isOpen == old(isOpen)
      ensures isLoading == old(isLoading) && error == old(error) && highlightedIndex == old(highlightedIndex)
      ensures abortedInFlight == old(abortedInFlight) && hasUserTyped == old(hasUserTyped) && isSelecting == old(isSelecting)
    {
      request := SearchRequest(value, SearchLimit);
      liveQuery := pendingQuery;
      pendingQuery := None;
    }

    /** The live request ends. A success opens the list with the new
      results and no highlight; a failure records its message and empties
      the list. Loading ends either way. */
    method Completed(c: Completion)
      requires Valid() && liveQuery.Some?
      modifies this
      ensures Valid()
      ensures !isLoading && liveQuery.None? && value == old(value)
      ensures c.Responded? && c.ok ==>
        results == c.results.GetOr([]) && isOpen && highlightedIndex == -1 && error == old(error)
      ensures c.Responded? && !c.ok ==>
        error == Some(SearchError) && results == [] && isOpen == old(isOpen) && highlightedIndex == old(highlightedIndex)
      ensures c.FetchFailed? ==>
        error == Some(c.message.GetOr(UnknownError)) && results == [] && isOpen == old(isOpen) &&
        highlightedIndex == old(highlightedIndex)
      ensures pendingQuery == old(pendingQuery) && abortedInFlight == old(abortedInFlight)
      ensures hasUserTyped == old(hasUserTyped) && isSelecting == old(isSelecting)
    {
      match c {
        case Responded(ok, rs) =>
          if ok {
            results := rs.GetOr([]);
            isOpen := true;
            highlightedIndex := -1;
          } else {
            error := Some(SearchError);
            results := [];
          }
        case FetchFailed(m) =>
          error := Some(m.GetOr(UnknownError));
          results := [];
      }
      isLoading := false;
      liveQuery := None;
    }

    /** The rejection of an aborted request arrives: its handler returns
      early, and its `finally` still ends loading. */
    method AbortDelivered()
      requires Valid() && abortedInFlight > 0
      modifies this
      ensures Valid()
      ensures abortedInFlight == old(abortedInFlight) - 1 && !isLoading
      ensures value == old(value) && results == old(results) && isOpen == old(isOpen) && error == old(error)
      ensures pendingQuery == old(pendingQuery) && liveQuery == old(liveQuery)
      ensures highlightedIndex == old(highlightedIndex) && hasUserTyped == old(hasUserTyped) && isSelecting == old(isSelecting)
    {
      abortedInFlight := abortedInFlight - 1;
      isLoading := false;
    }
  }

  // ---------------------------------------------------------------------
  // Behaviours of the widget as written

  /** Typing two characters and deleting one before the timer fires
      cancels the search, but nothing clears the loading flag: the spinner
      stays on with no timer and no request left. */
  method StuckSpinner() returns (loading: bool, searchPending: bool)
    ensures loading && !searchPending
  {
    var w := new SearchWidget("");
    w.Type("ab");
    w.Type("a");
    loading := w.isLoading;
    searchPending := w.pendingQuery.Some? || w.liveQuery.Some? || w.abortedInFlight > 0;
  }

  /** Picking an entry of the previous list while the timer for a newer
      query is armed cancels that timer; the selection suppresses the next
      run, and again the spinner stays on with nothing left to end it. */
  method SelectWhileDebouncing(p: Product) returns (loading: bool, searchPending: bool)
    requires |p.code| >= MinChars && p.code != "abc"
    ensures loading && !searchPending
  {
    var w := new SearchWidget("");
    w.Type("ab");
    var request := w.TimerFired();
    w.Completed(Responded(true, Some([p])));
    w.Type("abc");
    w.Select(w.results[0]);
    loading := w.isLoading;
    searchPending := w.pendingQuery.Some? || w.liveQuery.Some? || w.abortedInFlight > 0;
  }

  /** A keystroke while a request is in flight aborts it; when the
      rejection of the aborted request arrives, its cleanup ends loading,
      so the newer request goes out with no spinner shown. */
  method SpinnerOffDuringSearch() returns (loading: bool, requestLive: bool)
    ensures !loading && requestLive
  {
    var w := new SearchWidget("");
    w.Type("ab");
    var first := w.TimerFired();
    w.Type("abc");
    w.AbortDelivered();
    var second := w.TimerFired();
    loading := w.isLoading;
    requestLive := w.liveQuery == Some("abc");
  }

  /** Selecting a product whose code is exactly the text already typed
      leaves the selection flag set, so the next keystroke runs no search. */
  method SameCodeSelect(p: Product) returns (searchArmed: bool, flagStillSet: bool)
    requires |p.code| >= MinChars
    ensures !searchArmed && !flagStillSet
  {
    var w := new SearchWidget("");
    w.Type(p.code);
    var request := w.TimerFired();
    w.Completed(Responded(true, Some([p])));
    w.Select(w.results[0]);
    flagStillSet := w.isSelecting;
    assert flagStillSet;
    w.Type(p.code + "0");
    searchArmed := w.pendingQuery.Some?;
    flagStillSet := w.isSelecting;
  }

  /** A value of blanks is long enough for the widget, but the proxy
      refuses it with 400, which the widget shows as a search error. */
  lemma BlankQueryIsRefused(session: Option<SearchRoute.Session>, upstream: SearchRoute.Upstream)
    ensures |"  "| >= MinChars
    ensures SearchRoute.Search(true, session, Some("  "), Some(SearchLimit), upstream).response.status == 400
  {
    SearchRoute.QueryMissingIff(Some("  "));
  }
}

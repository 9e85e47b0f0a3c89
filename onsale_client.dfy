/**
 * The browser half of the on-sale pagination: the inline script that wires the
 * "load more" button to GET hw/v1/onsale. It keeps the current page, the
 * button's disabled / aria-busy / hidden flags, the cards appended to the grid
 * and the one animation-frame token that coalesces grid measurements.
 *
 * The script runs one callback at a time; its inputs are the events below. A
 * response event answers the request in flight. Layout measurement inside the
 * frame callback is not part of this model.
 */
module OnsaleClient {
  import opened PhpRuntime
  import opened OnsaleRest

  /** One card appended to the grid. The fallback markup (no <template>) shows no badges. */
  datatype Card = Card(permalink: string, name: string, priceHtml: string, image: Option<Image>, badges: seq<string>)

  /** The query of a fetch: ?page=&limit=. */
  datatype Request = Request(page: int, limit: int)

  datatype Event =
    | Click                      // the button is clicked
    | Loaded(payload: PageResult) // a 200 response and its JSON body
    | NotModified                // a 304 response
    | Failed                     // the fetch or the JSON decoding rejects
    | Resize                     // the ResizeObserver fires
    | Frame                      // the requested animation frame runs

  datatype ClientState = ClientState(
    currentPage: int, limit: int,
    hasButton: bool, hasTemplate: bool,
    disabled: bool, busy: bool, hidden: bool,
    cards: seq<Card>,
    pending: Option<Request>,
    rafToken: Option<nat>, framesRequested: nat)

  /** renderProduct: the template path copies the badges, the fallback article has none. */
  function RenderCard(p: Summary, hasTemplate: bool): (card: Card)
    ensures card.permalink == p.permalink && card.name == p.name && card.priceHtml == p.priceHtml
    ensures card.image == p.image
    ensures card.badges == if hasTemplate then p.badges else []
  {
    Card(p.permalink, p.name, p.priceHtml, p.image, if hasTemplate then p.badges else [])
  }

  /** payload.products.forEach(renderProduct), as the list of cards it appends. */
  function RenderAll(ps: seq<Summary>, hasTemplate: bool): (cards: seq<Card>)
    ensures |cards| == |ps|
    ensures forall i :: 0 <= i < |ps| ==> cards[i] == RenderCard(ps[i], hasTemplate)
  {
    seq(|ps|, i requires 0 <= i < |ps| => RenderCard(ps[i], hasTemplate))
  }

  /** syncGridMetrics: request a frame unless one is already pending. */
  function Sync(s: ClientState): (r: ClientState)
    ensures r.rafToken.Some?
    ensures s.rafToken.Some? ==> r == s
    ensures s.rafToken.None? ==> r.framesRequested == s.framesRequested + 1
  {
    if s.rafToken.Some? then s
    else s.(framesRequested := s.framesRequested + 1, rafToken := Some(s.framesRequested + 1))
  }

  /** The state the script starts in; with a ResizeObserver it measures once at start. */
  function Init(page: int, limit: int, hasButton: bool, hasTemplate: bool, observe: bool): (s: ClientState)
    ensures Inv(s)
    ensures s.cards == [] && s.pending.None? && !s.disabled && !s.hidden
    ensures s.framesRequested == if observe then 1 else 0
  {
    var s := ClientState(page, limit, hasButton, hasTemplate, false, false, false, [], None, None, 0);
    if observe then Sync(s) else s
  }

  /** The click handler, fetchPage(currentPage + 1): a hidden or disabled button takes no click. */
  function ClickStep(s: ClientState): (r: ClientState)
    ensures s.hasButton && !s.disabled ==>
      r.pending == Some(Request(s.currentPage + 1, s.limit)) && r.disabled && r.busy
      && r.cards == s.cards && r.currentPage == s.currentPage && r.hidden == s.hidden
    ensures !(s.hasButton && !s.disabled) ==> r == s
  {
    if s.hasButton && !s.disabled
    then s.(disabled := true, busy := true, pending := Some(Request(s.currentPage + 1, s.limit)))
    else s
  }

  /** A 200 body: render its products, move to its page, then hide the button or re-enable it. */
  function LoadedStep(s: ClientState, payload: PageResult): (r: ClientState)
    requires s.pending.Some?
    ensures r.cards == s.cards + RenderAll(payload.products, s.hasTemplate)
    ensures r.currentPage == payload.page && r.pending.None? && r.rafToken.Some?
    ensures s.hasButton && payload.page >= payload.totalPages ==> r.hidden && r.disabled == s.disabled
    ensures s.hasButton && payload.page < payload.totalPages ==> !r.disabled && !r.busy && r.hidden == s.hidden
    ensures !s.hasButton ==> r.disabled == s.disabled && r.hidden == s.hidden
  {
    var s1 := Sync(s.(cards := s.cards + RenderAll(payload.products, s.hasTemplate),
                      currentPage := payload.page, pending := None));
    if !s.hasButton then s1
    else if payload.page >= payload.totalPages then s1.(hidden := true)
    else s1.(disabled := false, busy := false)
  }

  /** A 304: the body is null and the handler returns before touching anything; the button stays disabled. */
  function NotModifiedStep(s: ClientState): (r: ClientState)
    ensures r.pending.None?
    ensures r.(pending := s.pending) == s
  {
    s.(pending := None)
  }

  /** The catch(): the button is enabled again; page and cards are as they were. */
  function FailedStep(s: ClientState): (r: ClientState)
    requires s.pending.Some?
    ensures r.pending.None?
    ensures r.cards == s.cards && r.currentPage == s.currentPage && r.hidden == s.hidden
    ensures s.hasButton ==> !r.disabled && !r.busy
    ensures !s.hasButton ==> r.disabled == s.disabled && r.busy == s.busy
  {
    if s.hasButton then s.(pending := None, disabled := false, busy := false)
    else s.(pending := None)
  }

  /** One callback of the script. A response with no request in flight cannot occur and changes nothing. */
  function Step(s: ClientState, e: Event): (r: ClientState)
    ensures |s.cards| <= |r.cards| && r.cards[..|s.cards|] == s.cards
    ensures r.limit == s.limit && r.hasButton == s.hasButton && r.hasTemplate == s.hasTemplate
  {
    match e
    case Click => ClickStep(s)
    case Loaded(payload) => if s.pending.None? then s else LoadedStep(s, payload)
    case NotModified => NotModifiedStep(s)
    case Failed => if s.pending.None? then s else FailedStep(s)
    case Resize => Sync(s)
    case Frame => s.(rafToken := None)
  }

  function Run(s: ClientState, evs: seq<Event>): ClientState
    decreases |evs|
  {
    if evs == [] then s else Run(Step(s, evs[0]), evs[1..])
  }

  /**
   * What the script keeps true: a request in flight has disabled the button and
   * marked it busy; a hidden button is disabled and nothing is in flight; the
   * pending frame token is the last one requested.
   */
  ghost predicate Inv(s: ClientState) {
    && (s.pending.Some? ==> s.hasButton && s.disabled && s.busy)
    && (s.hidden ==> s.hasButton && s.disabled && s.pending.None?)
    && (s.rafToken.Some? ==> s.rafToken.value == s.framesRequested)
  }

  lemma StepKeepsInv(s: ClientState, e: Event)
    requires Inv(s)
    ensures Inv(Step(s, e))
  {
  }

  lemma {:induction false} RunKeepsInv(s: ClientState, evs: seq<Event>)
    requires Inv(s)
    ensures Inv(Run(s, evs))
    decreases |evs|
  {
    if evs != [] {
      StepKeepsInv(s, evs[0]);
      RunKeepsInv(Step(s, evs[0]), evs[1..]);
    }
  }

  /** Cards are only ever appended: the grid at any later time starts with the grid now. */
  lemma {:induction false} CardsOnlyGrow(s: ClientState, evs: seq<Event>)
    ensures |s.cards| <= |Run(s, evs).cards|
    ensures Run(s, evs).cards[..|s.cards|] == s.cards
    decreases |evs|
  {
    if evs != [] {
      var t := Step(s, evs[0]);
      CardsOnlyGrow(t, evs[1..]);
      assert Run(s, evs).cards[..|t.cards|][..|s.cards|] == Run(s, evs).cards[..|s.cards|];
    }
  }

  /** At most one request is in flight: a click while one is pending does nothing. */
  lemma ClickWhilePending(s: ClientState)
    requires Inv(s) && s.pending.Some?
    ensures Step(s, Click) == s
  {
  }

  /** The same state apart from the frame bookkeeping. */
  predicate SameButFrames(a: ClientState, b: ClientState) {
    a.(rafToken := None, framesRequested := 0) == b.(rafToken := None, framesRequested := 0)
  }

  /**
   * Once the button is hidden the pagination is over: whatever happens, no request
   * is made, no card is added and the page stays where it is.
   */
  lemma {:induction false} HiddenIsFinal(s: ClientState, evs: seq<Event>)
    requires Inv(s) && s.hidden
    ensures SameButFrames(Run(s, evs), s)
    decreases |evs|
  {
    if evs != [] {
      var t := Step(s, evs[0]);
      assert SameButFrames(t, s);
      StepKeepsInv(s, evs[0]);
      HiddenIsFinal(t, evs[1..]);
    }
  }

  /** Resizes without a frame in between ask for at most one animation frame. */
  lemma {:induction false} ResizesCoalesce(s: ClientState, evs: seq<Event>)
    requires forall i :: 0 <= i < |evs| ==> !evs[i].Frame?
    ensures Run(s, evs).framesRequested <= s.framesRequested + 1
    ensures s.rafToken.Some? ==> Run(s, evs).framesRequested == s.framesRequested
    decreases |evs|
  {
    if evs != [] {
      var t := Step(s, evs[0]);
      assert t.rafToken.Some? || t.framesRequested == s.framesRequested;
      assert s.rafToken.Some? ==> t.framesRequested == s.framesRequested && t.rafToken.Some?;
      assert t.framesRequested <= s.framesRequested + 1;
      ResizesCoalesce(t, evs[1..]);
    }
  }

  /**
   * Against the endpoint: when the request in flight asks for a page p >= 1 and
   * the 200 body is what the endpoint computes for it, the client moves to page
   * p, and the button hides exactly when p is the last page or past it.
   */
  lemma LoadAdvancesToRequestedPage(s: ClientState, c: Catalog, p: int, l: int)
    requires Inv(s) && s.pending == Some(Request(p, l)) && p >= 1
    ensures var payload := ComputePage(NormalizePage(Some(p)), NormalizeLimit(Some(l)), c);
            var r := Step(s, Loaded(payload));
            && r.currentPage == p
            && (r.hidden <==> p >= payload.totalPages)
  {
  }

  /** The forEach over payload.products that builds one card per product, in order. */
  method RenderProducts(products: seq<Summary>, hasTemplate: bool) returns (rendered: seq<Card>)
    ensures rendered == RenderAll(products, hasTemplate)
  {
    rendered := [];
    var i := 0;
    while i < |products|
      invariant 0 <= i <= |products|
      invariant rendered == RenderAll(products[..i], hasTemplate)
    {
      rendered := rendered + [RenderCard(products[i], hasTemplate)];
      i := i + 1;
    }
    assert products[..i] == products;
  }

  lemma LoadedIsStep(s: ClientState, payload: PageResult)
    requires s.pending.Some?
    ensures Step(s, Loaded(payload)) == LoadedStep(s, payload)
  {
  }

  /**
   * The load-more script on a page. The fields mirror the script's variables
   * and the button's DOM state; each handler performs one Step.
   */
  class LoadMore {
    var currentPage: int
    var limit: int
    var hasButton: bool
    var hasTemplate: bool
    var disabled: bool
    var busy: bool
    var hidden: bool
    var cards: seq<Card>
    var pending: Option<Request>
    var rafToken: Option<nat>
    var framesRequested: nat

    function State(): ClientState
      reads this
    {
      ClientState(currentPage, limit, hasButton, hasTemplate, disabled, busy, hidden,
                  cards, pending, rafToken, framesRequested)
    }

    /** The script's start-up: read data-page / data-limit, find the button and template, observe the grid. */
    constructor (page: int, limit: int, hasButton: bool, hasTemplate: bool, observe: bool)
      ensures State() == Init(page, limit, hasButton, hasTemplate, observe)
    {
      currentPage := page;
      this.limit := limit;
      this.hasButton := hasButton;
      this.hasTemplate := hasTemplate;
      disabled := false;
      busy := false;
      hidden := false;
      cards := [];
      pending := None;
      rafToken := None;
      framesRequested := 0;
      new;
      if observe {
        SyncGridMetrics();
      }
    }

    method SyncGridMetrics()
      modifies this
      ensures State() == Sync(old(State()))
    {
      if rafToken.None? {
        framesRequested := framesRequested + 1;
        rafToken := Some(framesRequested);
      }
    }

    /** The click handler: fetchPage(currentPage + 1). */
    method OnClick()
      modifies this
      ensures State() == Step(old(State()), Click)
    {
      if hasButton && !disabled {
        disabled := true;
        busy := true;
        pending := Some(Request(currentPage + 1, limit));
      }
    }

    /** The second then(): render the products, move to the payload's page, then hide or re-enable. */
    method OnPayload(payload: PageResult)
      modifies this
      ensures State() == Step(old(State()), Loaded(payload))
    {
      if pending.None? {
        return;
      }
      ghost var s0 := State();
      var rendered := RenderProducts(payload.products, hasTemplate);
      cards := cards + rendered;
      currentPage := payload.page;
      pending := None;
      SyncGridMetrics();
      if hasButton {
        if payload.page >= payload.totalPages {
          hidden := true;
        } else {
          disabled := false;
          busy := false;
        }
      }
      LoadedIsStep(s0, payload);
    }

    /** A 304: the body is null and the handler returns early. */
    method OnNotModified()
      modifies this
      ensures State() == Step(old(State()), NotModified)
    {
      pending := None;
    }

    /** The catch(): re-enable the button. */
    method OnError()
      modifies this
      ensures State() == Step(old(State()), Failed)
    {
      if pending.Some? {
        pending := None;
        if hasButton {
          disabled := false;
          busy := false;
        }
      }
    }

    /** The ResizeObserver callback. */
    method OnResize()
      modifies this
      ensures State() == Step(old(State()), Resize)
    {
      SyncGridMetrics();
    }

    /** The requestAnimationFrame callback; the measurement it writes is not modelled. */
    method OnFrame()
      modifies this
      ensures State() == Step(old(State()), Frame)
    {
      rafToken := None;
    }
  }
}

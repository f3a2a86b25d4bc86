/** `TransaviaConnector`: the per-tab harvesting loop of `get_flights`, the
    ordered driver interactions of `fill_search_form`, `accept_cookies` and
    `search_travel`, and how their results are concatenated. */
module Connector {
  import opened Wrappers
  import opened Calendar
  import opened Records
  import opened Payload

  /** One date tab of a result section: whether the site marks it
      `.day-with-availability`, and the flight-result buttons present in the
      section, in document order, once that tab has been clicked. */
  datatype Tab = Tab(available: bool, buttons: seq<Button>)

  /** A per-button decoder; the connector's is `deserialize_flight_button`. */
  type Decoder = Button -> Result<Flight, DecodeError>

  /** Combines two stages that each produce flights or raise: the first error
      wins, otherwise the flights are concatenated in stage order. */
  function Chain(first: Result<seq<Flight>, DecodeError>, next: Result<seq<Flight>, DecodeError>)
    : (r: Result<seq<Flight>, DecodeError>)
  {
    if first.Failure? then first
    else if next.Failure? then next
    else Success(first.value + next.value)
  }

  lemma ChainAssociative(a: Result<seq<Flight>, DecodeError>, b: Result<seq<Flight>, DecodeError>,
                         c: Result<seq<Flight>, DecodeError>)
    ensures Chain(Chain(a, b), c) == Chain(a, Chain(b, c))
  {
    if a.Success? && b.Success? && c.Success? {
      assert a.value + b.value + c.value == a.value + (b.value + c.value);
    }
  }

  /** Decoding the buttons one after the other, as the inner loop of `get_flights`
      does: the first button that fails to decode aborts with its error. */
  function DecodeAll(decode: Decoder, buttons: seq<Button>): (r: Result<seq<Flight>, DecodeError>)
    ensures r.Success? ==> |r.value| == |buttons|
  {
    if |buttons| == 0 then Success([])
    else
      var prior := DecodeAll(decode, buttons[..|buttons| - 1]);
      if prior.Failure? then prior
      else
        match decode(buttons[|buttons| - 1])
        case Failure(e) => Failure(e)
        case Success(f) => Success(prior.value + [f])
  }

  /** What one tab contributes: nothing when it has no availability, otherwise
      its buttons decoded in order. */
  function TabFlights(decode: Decoder, tab: Tab): (r: Result<seq<Flight>, DecodeError>) {
    if tab.available then DecodeAll(decode, tab.buttons) else Success([])
  }

  /** The specification of `get_flights`: the tabs' contributions chained in tab order. */
  function Extract(decode: Decoder, tabs: seq<Tab>): (r: Result<seq<Flight>, DecodeError>)
    ensures r.Success? ==> |r.value| == ButtonCount(tabs)
  {
    if |tabs| == 0 then Success([])
    else Chain(Extract(decode, tabs[..|tabs| - 1]), TabFlights(decode, tabs[|tabs| - 1]))
  }

  lemma DecodeAllStep(decode: Decoder, buttons: seq<Button>, j: nat)
    requires j < |buttons|
    ensures DecodeAll(decode, buttons[..j + 1])
         == if DecodeAll(decode, buttons[..j]).Failure? then DecodeAll(decode, buttons[..j])
            else match decode(buttons[j])
              case Failure(e) => Failure(e)
              case Success(f) => Success(DecodeAll(decode, buttons[..j]).value + [f])
  {
    assert buttons[..j + 1][..j] == buttons[..j];
  }

  lemma ExtractStep(decode: Decoder, tabs: seq<Tab>, i: nat)
    requires i < |tabs|
    ensures Extract(decode, tabs[..i + 1]) == Chain(Extract(decode, tabs[..i]), TabFlights(decode, tabs[i]))
  {
    assert tabs[..i + 1][..i] == tabs[..i];
  }

  /** Once a prefix of the buttons fails, the whole list fails with the same error. */
  lemma {:induction false} DecodeAllFailurePrefix(decode: Decoder, buttons: seq<Button>, k: nat)
    requires k <= |buttons|
    requires DecodeAll(decode, buttons[..k]).Failure?
    ensures DecodeAll(decode, buttons) == DecodeAll(decode, buttons[..k])
    decreases |buttons|
  {
    if k < |buttons| {
      var init := buttons[..|buttons| - 1];
      assert init[..k] == buttons[..k];
      DecodeAllFailurePrefix(decode, init, k);
    } else {
      assert buttons[..k] == buttons;
    }
  }

  /** Once a prefix of the tabs fails, extraction fails with the same error. */
  lemma {:induction false} ExtractFailurePrefix(decode: Decoder, tabs: seq<Tab>, k: nat)
    requires k <= |tabs|
    requires Extract(decode, tabs[..k]).Failure?
    ensures Extract(decode, tabs) == Extract(decode, tabs[..k])
    decreases |tabs|
  {
    if k < |tabs| {
      var init := tabs[..|tabs| - 1];
      assert init[..k] == tabs[..k];
      ExtractFailurePrefix(decode, init, k);
    } else {
      assert tabs[..k] == tabs;
    }
  }

  /** On success, the i-th flight is the i-th button decoded. */
  lemma {:induction false} DecodeAllAt(decode: Decoder, buttons: seq<Button>, i: nat)
    requires DecodeAll(decode, buttons).Success?
    requires i < |buttons|
    ensures decode(buttons[i]) == Success(DecodeAll(decode, buttons).value[i])
  {
    var n := |buttons| - 1;
    if i < n {
      var init := buttons[..n];
      DecodeAllAt(decode, init, i);
      assert init[i] == buttons[i];
    }
  }

  lemma DecodeAllElements(decode: Decoder, buttons: seq<Button>)
    requires DecodeAll(decode, buttons).Success?
    ensures forall i :: 0 <= i < |buttons| ==>
      decode(buttons[i]) == Success(DecodeAll(decode, buttons).value[i])
  {
    forall i | 0 <= i < |buttons|
      ensures decode(buttons[i]) == Success(DecodeAll(decode, buttons).value[i])
    {
      DecodeAllAt(decode, buttons, i);
    }
  }

  /** On failure, some button fails to decode with that very error, and every
      button before it decodes: the first failing button decides the error. */
  lemma {:induction false} DecodeAllFirstFailure(decode: Decoder, buttons: seq<Button>) returns (k: nat)
    requires DecodeAll(decode, buttons).Failure?
    ensures k < |buttons|
    ensures decode(buttons[k]) == Failure(DecodeAll(decode, buttons).error)
    ensures DecodeAll(decode, buttons[..k]).Success?
  {
    var n := |buttons| - 1;
    var init := buttons[..n];
    if DecodeAll(decode, init).Failure? {
      k := DecodeAllFirstFailure(decode, init);
      assert init[k] == buttons[k];
      assert init[..k] == buttons[..k];
    } else {
      k := n;
    }
  }

  /** Decoding every button succeeds exactly when each button decodes. */
  lemma DecodeAllSucceeds(decode: Decoder, buttons: seq<Button>)
    ensures DecodeAll(decode, buttons).Success? <==>
      forall i :: 0 <= i < |buttons| ==> decode(buttons[i]).Success?
  {
    if DecodeAll(decode, buttons).Success? {
      DecodeAllElements(decode, buttons);
    } else {
      var k := DecodeAllFirstFailure(decode, buttons);
    }
  }

  /** Decoding a concatenation decodes the first part, then the second. */
  lemma {:induction false} DecodeAllAppend(decode: Decoder, xs: seq<Button>, ys: seq<Button>)
    ensures DecodeAll(decode, xs + ys) == Chain(DecodeAll(decode, xs), DecodeAll(decode, ys))
    decreases |ys|
  {
    if |ys| == 0 {
      assert xs + ys == xs;
      if DecodeAll(decode, xs).Success? {
        assert DecodeAll(decode, xs).value + [] == DecodeAll(decode, xs).value;
      }
    } else {
      var init := ys[..|ys| - 1];
      var last := ys[|ys| - 1];
      assert (xs + ys)[..|xs + ys| - 1] == xs + init;
      assert (xs + ys)[|xs + ys| - 1] == last;
      DecodeAllAppend(decode, xs, init);
      var step := match decode(last)
        case Failure(e) => Failure(e)
        case Success(f) => Success([f]);
      assert DecodeAll(decode, ys) == Chain(DecodeAll(decode, init), step);
      assert DecodeAll(decode, xs + ys) == Chain(DecodeAll(decode, xs + init), step);
      ChainAssociative(DecodeAll(decode, xs), DecodeAll(decode, init), step);
    }
  }

  /** The buttons of the available tabs, tab after tab, each tab's in document order. */
  function AvailableButtons(tabs: seq<Tab>): (r: seq<Button>) {
    if |tabs| == 0 then []
    else
      var last := tabs[|tabs| - 1];
      AvailableButtons(tabs[..|tabs| - 1]) + (if last.available then last.buttons else [])
  }

  /** The number of buttons over all available tabs. */
  function ButtonCount(tabs: seq<Tab>): (r: nat) {
    if |tabs| == 0 then 0
    else
      var last := tabs[|tabs| - 1];
      ButtonCount(tabs[..|tabs| - 1]) + (if last.available then |last.buttons| else 0)
  }

  /** `get_flights` is the decoder mapped over the buttons of the available tabs,
      taken in tab order: there is no deduplication and no reordering. */
  lemma {:induction false} ExtractFlattens(decode: Decoder, tabs: seq<Tab>)
    ensures Extract(decode, tabs) == DecodeAll(decode, AvailableButtons(tabs))
    ensures |AvailableButtons(tabs)| == ButtonCount(tabs)
  {
    if |tabs| > 0 {
      var init := tabs[..|tabs| - 1];
      var last := tabs[|tabs| - 1];
      ExtractFlattens(decode, init);
      if last.available {
        DecodeAllAppend(decode, AvailableButtons(init), last.buttons);
      } else {
        DecodeAllAppend(decode, AvailableButtons(init), []);
        assert AvailableButtons(init) + [] == AvailableButtons(init);
      }
    }
  }

  /** On success, the flights are the available tabs' buttons decoded one for
      one, in tab order then document order, and there are as many as there are
      buttons on the available tabs. */
  lemma ExtractOrder(decode: Decoder, tabs: seq<Tab>)
    requires Extract(decode, tabs).Success?
    ensures |AvailableButtons(tabs)| == ButtonCount(tabs)
    ensures |Extract(decode, tabs).value| == ButtonCount(tabs)
    ensures forall k :: 0 <= k < ButtonCount(tabs) ==>
      decode(AvailableButtons(tabs)[k]) == Success(Extract(decode, tabs).value[k])
  {
    ExtractFlattens(decode, tabs);
    DecodeAllElements(decode, AvailableButtons(tabs));
    DecodeAllSucceeds(decode, AvailableButtons(tabs));
  }

  /** Without any available tab the result is the empty list, never an error. */
  lemma {:induction false} ExtractNoAvailability(decode: Decoder, tabs: seq<Tab>)
    requires forall i :: 0 <= i < |tabs| ==> !tabs[i].available
    ensures Extract(decode, tabs) == Success([])
  {
    if |tabs| > 0 {
      var init := tabs[..|tabs| - 1];
      assert forall i :: 0 <= i < |init| ==> init[i] == tabs[i];
      ExtractNoAvailability(decode, init);
      assert TabFlights(decode, tabs[|tabs| - 1]) == Success([]);
      var none: seq<Flight> := [];
      assert none + none == none;
    }
  }

  /** Extraction over tabs that follow one another is the first extraction
      followed by the second. */
  lemma {:induction false} ExtractAppend(decode: Decoder, xs: seq<Tab>, ys: seq<Tab>)
    ensures Extract(decode, xs + ys) == Chain(Extract(decode, xs), Extract(decode, ys))
    decreases |ys|
  {
    if |ys| == 0 {
      assert xs + ys == xs;
      if Extract(decode, xs).Success? {
        assert Extract(decode, xs).value + [] == Extract(decode, xs).value;
      }
    } else {
      var init := ys[..|ys| - 1];
      var last := ys[|ys| - 1];
      assert (xs + ys)[..|xs + ys| - 1] == xs + init;
      assert (xs + ys)[|xs + ys| - 1] == last;
      ExtractAppend(decode, xs, init);
      ChainAssociative(Extract(decode, xs), Extract(decode, init), TabFlights(decode, last));
    }
  }

  /** No deduplication: when the same tabs' buttons are seen twice, every flight
      appears twice. */
  lemma ExtractKeepsDuplicates(decode: Decoder, tabs: seq<Tab>)
    requires Extract(decode, tabs).Success?
    ensures Extract(decode, tabs + tabs) == Success(Extract(decode, tabs).value + Extract(decode, tabs).value)
  {
    ExtractAppend(decode, tabs, tabs);
  }

  /** The four inputs of the search form. */
  datatype Field = OriginInput | DestinationInput | OutboundDateInput | ReturnDateInput

  /** The driver interactions the connector issues, in the order it issues them. */
  datatype Action =
    | Navigate(url: string)
    | ClickCookieBanner
    | SendText(field: Field, text: string)
    | SendReturn(field: Field)
    | Clear(field: Field)
    | Click(field: Field)

  /** What the connector finds once the home page is loaded and the form is
      submitted: whether a cookie banner is shown, and the tabs of the outbound
      and the inbound result sections. */
  datatype Page = Page(cookieBanner: bool, outbound: seq<Tab>, inbound: seq<Tab>)

  const HomeUrl: string := "https://www.transavia.com/fr-FR/accueil/"

  /** `accept_cookies`: the banner button is clicked when present; its absence is not an error. */
  function CookieActions(page: Page): (r: seq<Action>) {
    if page.cookieBanner then [ClickCookieBanner] else []
  }

  /** `fill_search_form`: the eleven interactions with the form, in source order. */
  function FormActions(travel: Travel): (r: seq<Action>)
    ensures |r| == 11 && r[10] == SendReturn(DestinationInput)
  {
    [ SendText(OriginInput, travel.origin), SendReturn(OriginInput),
      SendText(DestinationInput, travel.destination), SendReturn(DestinationInput),
      Clear(OutboundDateInput), SendText(OutboundDateInput, FormDate(travel.departureDate)),
      Click(OriginInput),
      Clear(ReturnDateInput), SendText(ReturnDateInput, FormDate(travel.returnDate)),
      Click(OriginInput),
      SendReturn(DestinationInput) ]
  }

  /** The text of the travel that belongs in each field; dates as `%d-%m-%Y`. */
  function FieldText(travel: Travel, field: Field): (r: string) {
    match field
    case OriginInput => travel.origin
    case DestinationInput => travel.destination
    case OutboundDateInput => FormDate(travel.departureDate)
    case ReturnDateInput => FormDate(travel.returnDate)
  }

  /** Each field of the form is typed into exactly once, and with the text of the
      travel that belongs to it. */
  lemma FormTypesTravel(travel: Travel)
    ensures forall i :: 0 <= i < |FormActions(travel)| && FormActions(travel)[i].SendText? ==>
      FormActions(travel)[i].text == FieldText(travel, FormActions(travel)[i].field)
    ensures forall i, j ::
      (0 <= i < |FormActions(travel)| && 0 <= j < |FormActions(travel)|
       && FormActions(travel)[i].SendText? && FormActions(travel)[j].SendText?
       && FormActions(travel)[i].field == FormActions(travel)[j].field)
      ==> i == j
    ensures forall field: Field :: exists i ::
      0 <= i < |FormActions(travel)| && FormActions(travel)[i] == SendText(field, FieldText(travel, field))
  {
    var acts := FormActions(travel);
    forall field: Field
      ensures exists i :: 0 <= i < |acts| && acts[i] == SendText(field, FieldText(travel, field))
    {
      var i := match field
        case OriginInput => 0
        case DestinationInput => 2
        case OutboundDateInput => 5
        case ReturnDateInput => 8;
      assert acts[i] == SendText(field, FieldText(travel, field));
    }
  }

  /** The departure date is typed before the return date; each date field is
      cleared just before it is typed into and the focus then goes back to the
      origin field; the form is submitted last, from the destination field. */
  lemma FormOrder(travel: Travel)
    ensures forall i, j ::
      (0 <= i < |FormActions(travel)| && 0 <= j < |FormActions(travel)|
       && FormActions(travel)[i].SendText? && FormActions(travel)[i].field == OutboundDateInput
       && FormActions(travel)[j].SendText? && FormActions(travel)[j].field == ReturnDateInput)
      ==> i < j
    ensures forall i ::
      (0 <= i < |FormActions(travel)| && FormActions(travel)[i].SendText?
       && FormActions(travel)[i].field in {OutboundDateInput, ReturnDateInput})
      ==> (0 < i < |FormActions(travel)| - 1
           && FormActions(travel)[i - 1] == Clear(FormActions(travel)[i].field)
           && FormActions(travel)[i + 1] == Click(OriginInput))
    ensures FormActions(travel)[|FormActions(travel)| - 1] == SendReturn(DestinationInput)
  {
  }

  /** The specification of `search_travel`: the outbound section's flights, then
      the inbound section's. */
  function SearchResult(decode: Decoder, page: Page): (r: Result<seq<Flight>, DecodeError>)
    ensures r.Success? ==> |r.value| == ButtonCount(page.outbound) + ButtonCount(page.inbound)
  {
    Chain(Extract(decode, page.outbound), Extract(decode, page.inbound))
  }

  /** The interactions `search_travel` issues before reading the results. */
  function SearchActions(travel: Travel, page: Page): (r: seq<Action>) {
    [Navigate(HomeUrl)] + CookieActions(page) + FormActions(travel)
  }

  /** Every outbound flight comes before any inbound flight, and there are as
      many flights as buttons on the available tabs of both sections. */
  lemma SearchOrder(decode: Decoder, page: Page)
    requires SearchResult(decode, page).Success?
    ensures Extract(decode, page.outbound).Success? && Extract(decode, page.inbound).Success?
    ensures SearchResult(decode, page).value
         == Extract(decode, page.outbound).value + Extract(decode, page.inbound).value
    ensures |SearchResult(decode, page).value| == ButtonCount(page.outbound) + ButtonCount(page.inbound)
  {
    ExtractFlattens(decode, page.outbound);
    ExtractFlattens(decode, page.inbound);
  }

  /** A search is the decoder mapped over the outbound buttons followed by the
      inbound buttons; it fails exactly when one of those buttons fails to decode. */
  lemma SearchFlattens(decode: Decoder, page: Page)
    ensures SearchResult(decode, page)
         == DecodeAll(decode, AvailableButtons(page.outbound) + AvailableButtons(page.inbound))
    ensures SearchResult(decode, page).Success? <==>
      forall b :: b in AvailableButtons(page.outbound) + AvailableButtons(page.inbound) ==>
        decode(b).Success?
  {
    var buttons := AvailableButtons(page.outbound) + AvailableButtons(page.inbound);
    ExtractFlattens(decode, page.outbound);
    ExtractFlattens(decode, page.inbound);
    DecodeAllAppend(decode, AvailableButtons(page.outbound), AvailableButtons(page.inbound));
    DecodeAllSucceeds(decode, buttons);
  }

  /** The connector: the driver is abstracted as the log of interactions it has
      been asked to perform, and the pages it answers with are given. */
  class TransaviaConnector {
    const headless: bool
    /** Every driver interaction issued so far, oldest first. */
    var actions: seq<Action>

    constructor(headless: bool)
      ensures this.headless == headless
      ensures actions == []
    {
      this.headless := headless;
      actions := [];
    }

    method AcceptCookies(page: Page)
      modifies this
      ensures actions == old(actions) + CookieActions(page)
    {
      if page.cookieBanner {
        actions := actions + [ClickCookieBanner];
      }
    }

    method FillSearchForm(travel: Travel)
      modifies this
      ensures actions == old(actions) + FormActions(travel)
    {
      actions := actions + [SendText(OriginInput, travel.origin)];
      actions := actions + [SendReturn(OriginInput)];
      actions := actions + [SendText(DestinationInput, travel.destination)];
      actions := actions + [SendReturn(DestinationInput)];
      actions := actions + [Clear(OutboundDateInput)];
      actions := actions + [SendText(OutboundDateInput, FormDate(travel.departureDate))];
      actions := actions + [Click(OriginInput)];
      actions := actions + [Clear(ReturnDateInput)];
      actions := actions + [SendText(ReturnDateInput, FormDate(travel.returnDate))];
      actions := actions + [Click(OriginInput)];
      actions := actions + [SendReturn(DestinationInput)];
    }

    /** `get_flights(base)`: for each tab with availability, in order, click it and
        decode and append every flight button then present in the section. A
        decoding error propagates and no list is returned. */
    method GetFlights(section: seq<Tab>) returns (r: Result<seq<Flight>, DecodeError>)
      ensures r == Extract(DeserializeFlightButton, section)
    {
      var flights: seq<Flight> := [];
      var i := 0;
      while i < |section|
        invariant 0 <= i <= |section|
        invariant Extract(DeserializeFlightButton, section[..i]) == Success(flights)
      {
        var tab := section[i];
        ExtractStep(DeserializeFlightButton, section, i);
        if tab.available {
          // After the click the section shows exactly tab.buttons.
          var decoded := DecodeButtons(tab.buttons);
          if decoded.Failure? {
            ExtractFailurePrefix(DeserializeFlightButton, section, i + 1);
            return Failure(decoded.error);
          }
          flights := flights + decoded.value;
        } else {
          assert flights + [] == flights;
        }
        i := i + 1;
      }
      assert section[..i] == section;
      r := Success(flights);
    }

    /** The inner loop of `get_flights`: decode the buttons one after the other,
        appending each flight; the first failure propagates. */
    method DecodeButtons(buttons: seq<Button>) returns (r: Result<seq<Flight>, DecodeError>)
      ensures r == DecodeAll(DeserializeFlightButton, buttons)
    {
      var flights: seq<Flight> := [];
      var j := 0;
      while j < |buttons|
        invariant 0 <= j <= |buttons|
        invariant DecodeAll(DeserializeFlightButton, buttons[..j]) == Success(flights)
      {
        var decoded := DeserializeFlightButton(buttons[j]);
        DecodeAllStep(DeserializeFlightButton, buttons, j);
        if decoded.Failure? {
          DecodeAllFailurePrefix(DeserializeFlightButton, buttons, j + 1);
          return Failure(decoded.error);
        }
        flights := flights + [decoded.value];
        j := j + 1;
      }
      assert buttons[..j] == buttons;
      r := Success(flights);
    }

    /** `search_travel`: open the home page, dismiss the cookie banner, fill and
        submit the form, then collect the outbound flights and extend them with
        the inbound flights. */
    method SearchTravel(travel: Travel, page: Page) returns (r: Result<seq<Flight>, DecodeError>)
      modifies this
      ensures actions == old(actions) + SearchActions(travel, page)
      ensures r == SearchResult(DeserializeFlightButton, page)
    {
      actions := actions + [Navigate(HomeUrl)];
      AcceptCookies(page);
      FillSearchForm(travel);
      assert actions == old(actions) + SearchActions(travel, page) by {
        var navigate, cookies, form := [Navigate(HomeUrl)], CookieActions(page), FormActions(travel);
        assert old(actions) + navigate + cookies + form == old(actions) + (navigate + cookies + form);
      }
      var outbound := GetFlights(page.outbound);
      if outbound.Failure? {
        return outbound;
      }
      var flights := outbound.value;
      var inbound := GetFlights(page.inbound);
      if inbound.Failure? {
        return inbound;
      }
      flights := flights + inbound.value;
      r := Success(flights);
    }
  }
}

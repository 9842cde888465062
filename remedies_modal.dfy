/** The customer-facing "My Remedies" modal
    (`js/components/remedies/RemediesModal.js`): a login form asking for a
    customer id, and the panel of that customer's remedies. The modal body
    is reduced to the view it shows; the page's clock is the `today`
    parameter and the backend's query call the `fetch` parameter. */
module Modal {
  import opened Wrappers
  import opened JsString
  import opened Records
  import opened Calculations
  import Dashboard

  // ---------------------------------------------------------------------
  // What the panel shows
  // ---------------------------------------------------------------------

  /** `(customer.remedies && customer.remedies.length ? customer.remedies
      : [remedy1 … remedy5]).filter(r => r && String(r).trim())`: a
      non-empty list is preferred over the legacy fields, and the filter
      covers both. */
  function ModalRemedies(c: Customer): (r: seq<string>)
    ensures forall k :: 0 <= k < |r| ==> Trim(r[k]) != ""
    ensures c.remedies.Some? && c.remedies.value != [] ==> r == KeepFilled(Present(c.remedies.value))
    ensures !(c.remedies.Some? && c.remedies.value != []) ==> r == KeepFilled(Legacy(c)) && |r| <= 5
  {
    KeepFilled(if c.remedies.Some? && |c.remedies.value| > 0 then Present(c.remedies.value) else Legacy(c))
  }

  /** The two normalisation rules side by side: an empty list counts as no
      remedies on the dashboard but falls back to the legacy fields here; a
      non-empty list is shown here without its blank entries, which the
      dashboard counts; a record without a list reads the same in both. */
  lemma NormalisationRulesCompared(c: Customer)
    ensures c.remedies == Some([]) ==>
              Dashboard.DashboardRemedies(c) == [] && ModalRemedies(c) == KeepFilled(Legacy(c))
    ensures c.remedies.Some? && c.remedies.value != [] ==>
              ModalRemedies(c) == KeepFilled(Present(Dashboard.DashboardRemedies(c)))
              && |ModalRemedies(c)| <= |Dashboard.DashboardRemedies(c)|
    ensures c.remedies.None? ==> ModalRemedies(c) == Dashboard.DashboardRemedies(c)
  {
  }

  /** A list whose entries are all filled reads the same in both places. */
  lemma FilledListsAgree(c: Customer)
    requires c.remedies.Some? && c.remedies.value != []
    requires forall k :: 0 <= k < |c.remedies.value| ==> Trim(c.remedies.value[k]) != ""
    ensures ModalRemedies(c) == Dashboard.DashboardRemedies(c)
  {
    KeepFilledAll(c.remedies.value);
  }

  /** `${ageInfo.zodiacYear ? `, ${ageInfo.zodiacYear} Year` : ''}`. */
  function ZodiacClause(zodiacYear: Option<string>): string {
    if Falsy(zodiacYear) then "" else ", " + zodiacYear.value + " Year"
  }

  /** The age line: "N/A" without an age, otherwise
      "<age> years (Born in <year><zodiac clause>)". */
  function AgeText(info: Option<AgeInfo>): string {
    match info
    case None => "N/A"
    case Some(i) =>
      NumberToString(Some(i.age)) + " years (Born in " + NumberToString(Some(i.year))
      + ZodiacClause(i.zodiacYear) + ")"
  }

  /** The age line is "N/A" exactly when there is no age, and otherwise it
      starts with the age, which `parseInt` reads back. */
  lemma AgeTextMeaning(info: Option<AgeInfo>)
    ensures AgeText(info) == "N/A" <==> info.None?
    ensures info.Some? ==> ParseInt(AgeText(info)) == Some(info.value.age)
  {
    if info.Some? {
      var i := info.value;
      var rest := " years (Born in " + NumberToString(Some(i.year)) + ZodiacClause(i.zodiacYear) + ")";
      assert AgeText(info) == NumberToString(Some(i.age)) + rest;
      NumberLeads(i.age, rest);
    }
  }

  /** A number followed by text that starts with a space reads back as
      that number, and the text does not start with 'N'. */
  lemma NumberLeads(n: int, rest: string)
    requires |rest| > 0 && rest[0] == ' '
    ensures ParseInt(NumberToString(Some(n)) + rest) == Some(n)
    ensures (NumberToString(Some(n)) + rest)[0] != 'N'
  {
    ParseIntNumberRun(n, rest);
    var head := NumberToString(Some(n));
    if n < 0 {
      assert head[0] == '-';
    } else {
      NatToStringValue(n);
      assert IsDigit(head[0]);
    }
  }

  /** `calculateAge(customer.dob)`; an absent or `null` date of birth is
      falsy, so there is no age. */
  function AgeOf(c: Customer, today: Date): (info: Option<AgeInfo>)
    ensures !c.dob.Str? ==> info.None?
    ensures c.dob.Str? ==> info == CalculateAge(c.dob.s, today)
  {
    match c.dob
    case Str(dob) => CalculateAge(dob, today)
    case _ => None
  }

  /** The remedies section: numbered from 1 in order, or the "No remedies
      assigned yet" text for an empty list. */
  datatype Listing = NoneAssigned | Numbered(items: seq<(nat, string)>)

  function ListingOf(remedies: seq<string>): (l: Listing)
    ensures l.NoneAssigned? <==> remedies == []
    ensures l.Numbered? ==>
              |l.items| == |remedies| && forall k :: 0 <= k < |remedies| ==> l.items[k] == (k + 1, remedies[k])
  {
    if |remedies| > 0 then Numbered(seq(|remedies|, k requires 0 <= k < |remedies| => (k + 1, remedies[k])))
    else NoneAssigned
  }

  /** The customer panel's values. */
  datatype Panel = Panel(customerIdText: string, nameText: string, dobText: string,
                         ageText: string, listing: Listing)

  /** `showDashboard(customer)`'s values. */
  function PanelOf(c: Customer, today: Date): (p: Panel)
    ensures p.customerIdText == Template(c.customerId) && p.dobText == Template(c.dob)
    ensures !FalsyProp(c.name) ==> p.nameText == c.name.s
    ensures FalsyProp(c.name) ==> p.nameText == Template(c.customerName)
    ensures p.ageText == AgeText(AgeOf(c, today))
    ensures p.listing == ListingOf(ModalRemedies(c))
  {
    Panel(Template(c.customerId),
          Template(Or(c.name, c.customerName)),
          Template(c.dob),
          AgeText(AgeOf(c, today)),
          ListingOf(ModalRemedies(c)))
  }

  // ---------------------------------------------------------------------
  // The lookup
  // ---------------------------------------------------------------------

  const NOT_FOUND: string := "Customer ID not found. Please contact support for assistance."
  const SERVER_DOWN: string := "Unable to reach the server. Please try again. (Start backend: cd backend && npm run dev)"

  /** What a lookup settles to: a customer to show, or an error text. */
  datatype LookupResult = Found(customer: Customer) | NotFound(message: string)

  /** `Array.isArray(results) && results.length > 0 ? results[0] : null`,
      with the not-found and server messages. */
  function LookupResultOf(results: Outcome<ListResponse>): (r: LookupResult)
    ensures r.Found? <==> results.Returned? && results.value.Records? && results.value.items != []
    ensures r.Found? ==> r.customer == results.value.items[0]
    ensures results.Threw? ==> r == NotFound(SERVER_DOWN)
    ensures results.Returned? && !r.Found? ==> r == NotFound(NOT_FOUND)
  {
    match results
    case Threw(_) => NotFound(SERVER_DOWN)
    case Returned(Records(items)) => if |items| > 0 then Found(items[0]) else NotFound(NOT_FOUND)
    case Returned(NotAList) => NotFound(NOT_FOUND)
  }

  /** What the modal body shows: nothing yet, the login form with its
      input's value and the error line (hidden is `None`), or a customer
      panel. */
  datatype View = Empty | LoginForm(input: string, error: Option<string>) | CustomerPanel(panel: Panel)

  // ---------------------------------------------------------------------
  // The component
  // ---------------------------------------------------------------------

  class RemediesModal {
    /** Whether `#remediesModal` and `#remediesModalBody` exist. */
    var hasModal: bool
    var hasBody: bool
    /** Whether the modal has the `modal--open` class. */
    var isOpen: bool
    /** `document.body.style.overflow`. */
    var overflow: string
    var view: View
    /** Whether `init` wired the "My Remedies" button. */
    var buttonWired: bool

    /** Only a modal body can show anything. */
    predicate Valid()
      reads this
    {
      !hasBody ==> view == Empty
    }

    /** `new RemediesModal()`: the button is wired only when both the modal
        and the button exist. */
    constructor (modalExists: bool, bodyExists: bool, buttonExists: bool)
      ensures hasModal == modalExists && hasBody == bodyExists
      ensures buttonWired == (modalExists && buttonExists)
      ensures !isOpen && overflow == "" && view == Empty
      ensures Valid()
    {
      hasModal, hasBody := modalExists, bodyExists;
      isOpen, overflow, view := false, "", Empty;
      buttonWired := modalExists && buttonExists;
    }

    /** `showLoginForm()`: a fresh, empty form with the error hidden. */
    method ShowLoginForm()
      requires Valid()
      modifies this`view
      ensures Valid()
      ensures hasBody ==> view == LoginForm("", None)
      ensures !hasBody ==> view == old(view)
    {
      if hasBody {
        view := LoginForm("", None);
      }
    }

    /** A click on the "My Remedies" button. */
    method ClickMyRemedies()
      requires Valid() && buttonWired && hasModal
      modifies this`view, this`isOpen, this`overflow
      ensures Valid()
      ensures hasBody ==> view == LoginForm("", None)
      ensures !hasBody ==> view == old(view)
      ensures isOpen && overflow == "hidden"
    {
      ShowLoginForm();
      isOpen := true;
      overflow := "hidden";
    }

    /** `handleLogin()`: looks up the trimmed input. Without a login form
        there is no input to read and the call throws, changing nothing.
        A first record is shown in the panel; otherwise the form stays,
        with the input as typed and the matching error shown. */
    method HandleLogin(fetch: string -> Outcome<ListResponse>, today: Date) returns (r: Outcome<()>)
      requires Valid()
      modifies this`view
      ensures Valid()
      ensures !old(view).LoginForm? ==> r.Threw? && view == old(view)
      ensures old(view).LoginForm? ==> r == Returned(())
      ensures old(view).LoginForm? ==>
                match LookupResultOf(fetch(Trim(old(view).input)))
                case Found(c) => view == CustomerPanel(PanelOf(c, today))
                case NotFound(message) => view == LoginForm(old(view).input, Some(message))
    {
      if !view.LoginForm? {
        return Threw("Cannot read properties of null (reading 'value')");
      }
      var customerId := Trim(view.input);
      var result := LookupResultOf(fetch(customerId));
      match result {
        case Found(c) =>
          ShowDashboard(c, today);
        case NotFound(message) =>
          view := view.(error := Some(message));
      }
      r := Returned(());
    }

    /** `showDashboard(customer)`. */
    method ShowDashboard(c: Customer, today: Date)
      requires Valid()
      modifies this`view
      ensures Valid()
      ensures hasBody ==> view == CustomerPanel(PanelOf(c, today))
      ensures !hasBody ==> view == old(view)
    {
      if hasBody {
        view := CustomerPanel(PanelOf(c, today));
      }
    }

    /** `open(customerId)`: with a modal, shows a fresh form and opens;
        with a truthy id, fills the input with the trimmed id and runs the
        lookup, whose failure is swallowed. */
    method Open(customerId: Option<string>, fetch: string -> Outcome<ListResponse>, today: Date)
      requires Valid()
      modifies this`view, this`isOpen, this`overflow
      ensures Valid()
      ensures !hasModal ==> view == old(view) && isOpen == old(isOpen) && overflow == old(overflow)
      ensures hasModal ==> isOpen && overflow == "hidden"
      ensures hasModal && !hasBody ==> view == old(view)
      ensures hasModal && hasBody && Falsy(customerId) ==> view == LoginForm("", None)
      ensures hasModal && hasBody && !Falsy(customerId) ==>
                match LookupResultOf(fetch(Trim(customerId.value)))
                case Found(c) => view == CustomerPanel(PanelOf(c, today))
                case NotFound(message) => view == LoginForm(Trim(customerId.value), Some(message))
    {
      if !hasModal {
        return;
      }
      ShowLoginForm();
      isOpen := true;
      overflow := "hidden";
      if !Falsy(customerId) {
        if view.LoginForm? {
          view := view.(input := Trim(customerId.value));
        }
        TrimIdempotent(customerId.value);
        var _ := HandleLogin(fetch, today);
      }
    }

    /** `close()`: drops `modal--open` when there is a modal, and always
        resets the page's overflow. */
    method Close()
      requires Valid()
      modifies this`isOpen, this`overflow
      ensures Valid()
      ensures hasModal ==> !isOpen
      ensures !hasModal ==> isOpen == old(isOpen)
      ensures overflow == ""
    {
      if hasModal {
        isOpen := false;
      }
      overflow := "";
    }
  }
}

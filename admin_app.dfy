/** The admin panel page (`public/phase1/js/admin-app.js`): the login
    handler, the change-password guards, the add / edit / delete customer
    forms and the page start-up. The page's widgets are fields of one
    object; every backend call is a function parameter from its argument to
    its outcome, and the requests the page sends are kept in order. */
module AdminApp {
  import opened Wrappers
  import opened JsString
  import opened Records
  import Storage
  import Modal

  // ---------------------------------------------------------------------
  // Messages
  // ---------------------------------------------------------------------

  const LOGIN_FAILED: string := "Invalid username or password"
  const MISMATCH: string := "New passwords do not match."
  const TOO_SHORT: string := "Password must be at least 6 characters long."
  /** `changePassword` is never imported, so the attempt throws a
      `ReferenceError` whose message the catch branch shows. The message
      text is the engine's: this is V8's wording (Chrome, Edge); Firefox
      and Safari word it differently ("Can't find variable:
      changePassword" in Safari). */
  const CHANGE_FAILED: string := "Password change failed: changePassword is not defined"
  const DOB_ALERT: string := "Date of Birth must be in MMDDYY format (e.g., 011590)"
  const UPDATED: string := "Customer updated successfully!"
  const UPDATE_FAILED: string := "Error updating customer."
  const ADDED: string := "Customer added successfully!"
  const ADD_FAILED: string := "Error creating customer."
  const DELETED: string := "Customer deleted successfully!"
  const DELETE_FAILED: string := "Error deleting customer."

  // ---------------------------------------------------------------------
  // The customer form and what it sends
  // ---------------------------------------------------------------------

  /** What the customer form sends to the backend. */
  datatype Payload = Payload(customerId: string, name: string, dob: string, remedies: seq<string>)

  /** A request the page makes of the backend. */
  datatype Request = Create(payload: Payload) | Update(id: string, payload: Payload) | Delete(id: string)

  /** The customer form's inputs, as typed: the hidden `editCustomerId`,
      the three text fields and the five remedy slots. */
  datatype CustomerForm = CustomerForm(editId: string, customerId: string, customerName: string,
                                       dob: string, slots: seq<string>)

  /** `/^\d{6}$/.test(dob)`: exactly six ASCII digits. */
  predicate DobFormatOk(dob: string) {
    |dob| == 6 && AllDigits(dob)
  }

  /** `[r1 … r5 trimmed].filter(r => r)`: the trimmed slots that are not
      empty, in order. */
  function PayloadRemedies(slots: seq<string>): (r: seq<string>)
    ensures |r| <= |slots|
    ensures forall k :: 0 <= k < |r| ==> r[k] != "" && Trim(r[k]) == r[k]
  {
    if slots == [] then []
    else
      TrimIdempotent(slots[0]);
      (if Trim(slots[0]) != "" then [Trim(slots[0])] else []) + PayloadRemedies(slots[1..])
  }

  /** Each entry trimmed. */
  function TrimAll(xs: seq<string>): (r: seq<string>)
    ensures |r| == |xs| && forall k :: 0 <= k < |xs| ==> r[k] == Trim(xs[k])
  {
    seq(|xs|, k requires 0 <= k < |xs| => Trim(xs[k]))
  }

  /** `remedies[k] || ''` for each of the five slots, from a list of
      possibly missing entries. */
  function SlotsOf(xs: seq<Option<string>>): (r: seq<string>)
    ensures |r| == 5
    ensures forall k :: 0 <= k < 5 ==> r[k] == if k < |xs| && xs[k].Some? then xs[k].value else ""
  {
    seq(5, k requires 0 <= k < 5 => if k < |xs| && xs[k].Some? then xs[k].value else "")
  }

  /** The payload's remedies are the filled slots, each trimmed: the same
      filter the records use (`r && r.trim()`), followed by a trim. */
  lemma {:induction false} PayloadRemediesTrimsFilled(slots: seq<string>)
    ensures PayloadRemedies(slots) == TrimAll(KeepFilled(Present(slots)))
  {
    if slots != [] {
      var x, rest := slots[0], slots[1..];
      var head := if Trim(x) != "" then [x] else [];
      assert Present(slots) == [Some(x)] + Present(rest);
      KeepFilledAppend([Some(x)], Present(rest));
      assert KeepFilled([Some(x)]) == head by {
        assert [Some(x)][1..] == [];
      }
      PayloadRemediesTrimsFilled(rest);
      TrimAllAppend(head, KeepFilled(Present(rest)));
    }
  }

  /** Trimming each entry distributes over concatenation. */
  lemma TrimAllAppend(a: seq<string>, b: seq<string>)
    ensures TrimAll(a + b) == TrimAll(a) + TrimAll(b)
  {
    assert forall k :: 0 <= k < |a + b| ==> TrimAll(a + b)[k] == (TrimAll(a) + TrimAll(b))[k];
  }

  /** Empty slots at the end change nothing. */
  lemma {:induction false} PayloadRemediesPadded(a: seq<string>, n: nat)
    ensures PayloadRemedies(a + seq(n, _ => "")) == PayloadRemedies(a)
    decreases |a|, n
  {
    var pad := seq(n, _ => "");
    if a == [] {
      assert a + pad == pad;
      if n > 0 {
        assert pad[1..] == seq(n - 1, _ => "");
        PayloadRemediesPadded([], n - 1);
        assert [] + seq(n - 1, _ => "") == seq(n - 1, _ => "");
      }
    } else {
      assert (a + pad)[0] == a[0];
      assert (a + pad)[1..] == a[1..] + pad;
      PayloadRemediesPadded(a[1..], n);
    }
  }

  /** Filling the five slots from a list and sending the form straight
      back gives the list's first five filled entries, trimmed. */
  lemma SlotsRoundTrip(xs: seq<Option<string>>)
    ensures PayloadRemedies(SlotsOf(xs)) == TrimAll(KeepFilled(xs[..if |xs| < 5 then |xs| else 5]))
  {
    var m := if |xs| < 5 then |xs| else 5;
    var shown := seq(m, k requires 0 <= k < m => if xs[k].Some? then xs[k].value else "");
    assert SlotsOf(xs) == shown + seq(5 - m, _ => "");
    PayloadRemediesPadded(shown, 5 - m);
    PayloadRemediesTrimsFilled(shown);
    ShownKeepsFilled(xs[..m]);
    assert shown == seq(|xs[..m]|, k requires 0 <= k < |xs[..m]| => if xs[..m][k].Some? then xs[..m][k].value else "");
  }

  /** Reading missing entries as `''` and filtering filled ones agree. */
  lemma {:induction false} ShownKeepsFilled(xs: seq<Option<string>>)
    ensures KeepFilled(Present(seq(|xs|, k requires 0 <= k < |xs| => if xs[k].Some? then xs[k].value else "")))
            == KeepFilled(xs)
  {
    var shown := seq(|xs|, k requires 0 <= k < |xs| => if xs[k].Some? then xs[k].value else "");
    if xs != [] {
      var tail := seq(|xs[1..]|, k requires 0 <= k < |xs[1..]| => if xs[1..][k].Some? then xs[1..][k].value else "");
      assert shown[1..] == tail;
      assert Present(shown)[1..] == Present(tail);
      ShownKeepsFilled(xs[1..]);
      assert Filled(Present(shown)[0]) == Filled(xs[0]);
    }
  }

  /** The form's request: none when the date of birth is not six digits;
      an update of `editId` when one is set; a create otherwise. The text
      fields are sent trimmed. */
  function SaveRequest(form: CustomerForm): (r: Option<Request>)
    ensures r.None? <==> !DobFormatOk(Trim(form.dob))
    ensures r.Some? ==> !r.value.Delete?
                        && r.value.payload == Payload(Trim(form.customerId), Trim(form.customerName),
                                                      Trim(form.dob), PayloadRemedies(form.slots))
    ensures r.Some? ==> (r.value.Update? <==> form.editId != "")
    ensures r.Some? && r.value.Update? ==> r.value.id == form.editId
  {
    var dob := Trim(form.dob);
    if !DobFormatOk(dob) then None
    else
      var payload := Payload(Trim(form.customerId), Trim(form.customerName), dob, PayloadRemedies(form.slots));
      if form.editId != "" then Some(Update(form.editId, payload)) else Some(Create(payload))
  }

  /** A saved payload holds at most five remedies, none blank, each one a
      trimmed slot, in slot order. */
  lemma SavedRemediesBounded(form: CustomerForm)
    requires |form.slots| == 5 && SaveRequest(form).Some?
    ensures var rs := SaveRequest(form).value.payload.remedies;
            |rs| <= 5 && (forall k :: 0 <= k < |rs| ==> rs[k] != "")
            && rs == TrimAll(KeepFilled(Present(form.slots)))
  {
    PayloadRemediesTrimsFilled(form.slots);
  }

  /** The alert after a create or update, from its outcome. */
  function SaveAlert(req: Request, outcome: Outcome<()>): (text: string)
    ensures req.Update? ==> text == if outcome.Returned? then UPDATED else UPDATE_FAILED
    ensures req.Create? ==> text == if outcome.Returned? then ADDED else ADD_FAILED
  {
    match req
    case Update(_, _) => if outcome.Returned? then UPDATED else UPDATE_FAILED
    case Create(_) => if outcome.Returned? then ADDED else ADD_FAILED
    case Delete(_) => if outcome.Returned? then DELETED else DELETE_FAILED
  }

  // ---------------------------------------------------------------------
  // Editing a record
  // ---------------------------------------------------------------------

  /** `list.find(c => c.customerId === id)`: only the customer id is
      compared here, not the record id. */
  function FirstWithCustomerId(list: seq<Customer>, id: string): (r: Option<nat>)
    ensures r.None? <==> forall k :: 0 <= k < |list| ==> list[k].customerId != Str(id)
    ensures r.Some? ==> r.value < |list| && list[r.value].customerId == Str(id)
                        && forall k :: 0 <= k < r.value ==> list[k].customerId != Str(id)
  {
    if list == [] then None
    else if list[0].customerId == Str(id) then Some(0)
    else match FirstWithCustomerId(list[1..], id)
      case None => None
      case Some(i) => Some(i + 1)
  }

  /** A record with no properties at all: what the page reads from the
      pending promise that the un-awaited `findCustomerById` hands back. */
  const NO_FIELDS: Customer := Customer(Absent, Absent, Absent, Absent, Absent, None, None, None, None, None, None)

  /** The record the edit form is filled from: the first exact customer id
      match of a non-empty list, else its first record; with nothing
      listed (an empty or non-array answer, or a failed call) the pending
      promise, which is truthy, so the form always opens. */
  function EditRecord(listed: Outcome<ListResponse>, id: string): (c: Customer)
    ensures listed.Returned? && listed.value.Records? && listed.value.items != [] ==>
              var list := listed.value.items;
              (exists k :: 0 <= k < |list| && list[k].customerId == Str(id)) ==>
                c.customerId == Str(id) && c in list
    ensures listed.Returned? && listed.value.Records? && listed.value.items != [] ==>
              var list := listed.value.items;
              (forall k :: 0 <= k < |list| ==> list[k].customerId != Str(id)) ==> c == list[0]
    ensures !(listed.Returned? && listed.value.Records? && listed.value.items != []) ==> c == NO_FIELDS
  {
    if listed.Returned? && listed.value.Records? && listed.value.items != [] then
      var list := listed.value.items;
      match FirstWithCustomerId(list, id)
      case Some(i) => list[i]
      case None => list[0]
    else NO_FIELDS
  }

  /** Where no record uses `id` as its record id, the edit form picks the
      record the storage lookup would pick. */
  lemma EditPickAgreesWithLookup(list: seq<Customer>, id: string)
    requires list != []
    requires forall k :: 0 <= k < |list| ==> list[k].id != Str(id)
    ensures Storage.SelectCustomer(list, id) == Some(EditRecord(Returned(Records(list)), id))
  {
    assert forall k :: 0 <= k < |list| ==> (Storage.IdMatches(list[k], id) <==> list[k].customerId == Str(id));
  }

  /** The edit form for a record: `_id || customerId` in the hidden field,
      `customerId`, `name || customerName`, `dob || ''`, and the slots from
      `remedies || [remedy1 … remedy5]` (an empty list is truthy, so it
      wins and leaves every slot empty). Assigning an input turns an absent
      property into "undefined" and a `null` one into "". */
  function EditForm(c: Customer): (form: CustomerForm)
    ensures |form.slots| == 5
    ensures c.remedies.Some? ==> form.slots == SlotsOf(Present(c.remedies.value))
    ensures c.remedies.None? ==> form.slots == SlotsOf(Legacy(c))
    ensures !FalsyProp(c.id) ==> form.editId == c.id.s
    ensures FalsyProp(c.id) ==> form.editId == InputValue(c.customerId)
    ensures form.customerId == InputValue(c.customerId)
    ensures form.customerName == InputValue(Or(c.name, c.customerName))
    ensures form.dob == if FalsyProp(c.dob) then "" else c.dob.s
  {
    CustomerForm(InputValue(Or(c.id, c.customerId)),
                 InputValue(Or(c.customerId, c.customerId)),
                 InputValue(Or(c.name, c.customerName)),
                 if FalsyProp(c.dob) then "" else c.dob.s,
                 SlotsOf(if c.remedies.Some? then Present(c.remedies.value) else Legacy(c)))
  }

  /** Saving an edited record updates it by `_id`, or else by its customer
      id; a record with neither (a `null` or empty customer id) leaves the
      hidden field empty, so the save creates a new record instead, while
      an absent one updates the record "undefined". */
  lemma EditSaveTarget(c: Customer, dob: string)
    requires DobFormatOk(Trim(dob))
    ensures var r := SaveRequest(EditForm(c).(dob := dob)).value;
            (!FalsyProp(c.id) ==> r == Update(c.id.s, r.payload))
            && (FalsyProp(c.id) && !FalsyProp(c.customerId) ==> r == Update(c.customerId.s, r.payload))
            && (FalsyProp(c.id) && (c.customerId == Null || c.customerId == Str("")) ==> r.Create?)
            && (FalsyProp(c.id) && c.customerId == Absent ==> r == Update("undefined", r.payload))
  {
    var form := EditForm(c).(dob := dob);
    assert SaveRequest(form).Some?;
    PropTexts(c.customerId);
    if !FalsyProp(c.id) {
      assert form.editId == c.id.s != "";
    }
  }

  /** The edit form opened from the pending promise shows "undefined" as
      the record id and cannot be saved until a date of birth is typed; if
      one is, the save updates a record whose id is "undefined". */
  lemma PendingPromiseForm(listed: Outcome<ListResponse>, id: string)
    requires !(listed.Returned? && listed.value.Records? && listed.value.items != [])
    ensures EditForm(EditRecord(listed, id)).editId == "undefined"
    ensures SaveRequest(EditForm(EditRecord(listed, id))).None?
    ensures forall dob :: DobFormatOk(Trim(dob)) ==>
              SaveRequest(EditForm(EditRecord(listed, id)).(dob := dob)).value.id == "undefined"
  {
  }

  /** Opening a record for edit and saving it unchanged stores the remedies
      the customer's own panel lists, trimmed: for a record without a list,
      and for one whose list has at most five entries. A record whose list
      is empty saves no remedies at all, even where its legacy fields hold
      some that the panel shows. */
  lemma EditSaveKeepsShownRemedies(c: Customer)
    requires DobFormatOk(Trim(EditForm(c).dob))
    ensures c.remedies.None? || (c.remedies.Some? && 0 < |c.remedies.value| <= 5) ==>
              SaveRequest(EditForm(c)).value.payload.remedies == TrimAll(Modal.ModalRemedies(c))
    ensures c.remedies == Some([]) ==>
              SaveRequest(EditForm(c)).value.payload.remedies == []
              && Modal.ModalRemedies(c) == KeepFilled(Legacy(c))
  {
    var saved := SaveRequest(EditForm(c)).value.payload.remedies;
    assert saved == PayloadRemedies(EditForm(c).slots);
    if c.remedies.Some? {
      if |c.remedies.value| <= 5 {
        ListedSlotsRoundTrip(c.remedies.value);
      }
    } else {
      LegacySlotsRoundTrip(c);
    }
  }

  /** Up to five listed remedies survive the slots unchanged but for the
      trim and the blank-entry filter; an empty list saves nothing. */
  lemma ListedSlotsRoundTrip(list: seq<string>)
    requires |list| <= 5
    ensures PayloadRemedies(SlotsOf(Present(list))) == TrimAll(KeepFilled(Present(list)))
  {
    SlotsRoundTrip(Present(list));
    assert Present(list)[..|list|] == Present(list);
  }

  /** The five legacy fields survive the slots but for the trim and the
      blank-entry filter. */
  lemma LegacySlotsRoundTrip(c: Customer)
    ensures PayloadRemedies(SlotsOf(Legacy(c))) == TrimAll(KeepFilled(Legacy(c)))
  {
    SlotsRoundTrip(Legacy(c));
    assert Legacy(c)[..5] == Legacy(c);
  }

  // ---------------------------------------------------------------------
  // Passwords
  // ---------------------------------------------------------------------

  /** The change-password guards in order: the two new passwords must
      match, then be at least six UTF-16 units long; `None` means the
      request is attempted. */
  function PasswordCheck(newPassword: string, confirmPassword: string): (r: Option<string>)
    ensures r.None? <==> newPassword == confirmPassword && Utf16Length(newPassword) >= 6
    ensures newPassword != confirmPassword ==> r == Some(MISMATCH)
    ensures r.Some? && r != Some(MISMATCH) ==> r == Some(TOO_SHORT) && newPassword == confirmPassword
  {
    if newPassword != confirmPassword then Some(MISMATCH)
    else if Utf16Length(newPassword) < 6 then Some(TOO_SHORT)
    else None
  }

  /** Every character below U+10000 counts once, so such a password passes
      the length guard exactly when it has six characters or more; two
      astral characters already make four units. */
  lemma PasswordLengthInUnits(p: string)
    ensures (forall k :: 0 <= k < |p| ==> p[k] as int < 0x10000) ==>
              (PasswordCheck(p, p).None? <==> |p| >= 6)
    ensures |p| >= 6 ==> PasswordCheck(p, p).None?
    ensures |p| < 3 ==> PasswordCheck(p, p) == Some(TOO_SHORT)
  {
  }

  // ---------------------------------------------------------------------
  // The page
  // ---------------------------------------------------------------------

  class AdminPage {
    /** `sessionStorage`. */
    var session: Storage.SessionStore
    /** Which of the login box and the dashboard is displayed. */
    var loginVisible: bool
    var dashboardVisible: bool
    /** The login error line; `None` while hidden. */
    var loginError: Option<string>
    /** The "Welcome, <name>" line, once written. */
    var welcome: Option<string>
    /** Whether `adminDashboardInstance` has been created. */
    var hasDashboard: bool
    /** The change-password modal's message line; `None` while hidden. */
    var passwordMessage: Option<string>
    /** The customer modal: its title, form, whether the customer id input
        is disabled, and whether it is open. */
    var formTitle: string
    var form: CustomerForm
    var customerIdLocked: bool
    var customerModalOpen: bool
    /** The delete modal: the id stored in its dataset, and whether it is open. */
    var deleteTarget: Option<string>
    var deleteModalOpen: bool
    /** The backend requests made, the alerts shown, and the number of
        times the dashboard was refreshed, in order. */
    var requests: seq<Request>
    var alerts: seq<string>
    var refreshes: nat

    /** The page as loaded, before `DOMContentLoaded`. */
    constructor (store: Storage.SessionStore)
      ensures session == store
      ensures !loginVisible && !dashboardVisible && loginError.None? && welcome.None? && !hasDashboard
      ensures passwordMessage.None? && !customerModalOpen && !deleteModalOpen && deleteTarget.None?
      ensures form == CustomerForm("", "", "", "", SlotsOf([]))
      ensures requests == [] && alerts == [] && refreshes == 0
    {
      session := store;
      loginVisible, dashboardVisible := false, false;
      loginError, welcome, hasDashboard := None, None, false;
      passwordMessage := None;
      formTitle, form := "", CustomerForm("", "", "", "", SlotsOf([]));
      customerIdLocked, customerModalOpen := false, false;
      deleteTarget, deleteModalOpen := None, false;
      requests, alerts, refreshes := [], [], 0;
    }

    /** `showDashboard()`: swaps the login box for the dashboard, creates
        the dashboard, and greets a stored, non-empty username. */
    method ShowDashboard()
      modifies this`loginVisible, this`dashboardVisible, this`hasDashboard, this`welcome
      ensures !loginVisible && dashboardVisible && hasDashboard
      ensures !Falsy(session.GetItem(Storage.ADMIN_USERNAME)) ==>
                welcome == Some("Welcome, " + session.GetItem(Storage.ADMIN_USERNAME).value)
      ensures Falsy(session.GetItem(Storage.ADMIN_USERNAME)) ==> welcome == old(welcome)
    {
      loginVisible, dashboardVisible := false, true;
      hasDashboard := true;
      var username := session.GetItem(Storage.ADMIN_USERNAME);
      if !Falsy(username) {
        welcome := Some("Welcome, " + username.value);
      }
    }

    /** `hideDashboard()`. */
    method HideDashboard()
      modifies this`loginVisible, this`dashboardVisible, this`loginError
      ensures loginVisible && !dashboardVisible && loginError.None?
    {
      loginVisible, dashboardVisible := true, false;
      loginError := None;
    }

    /** The `DOMContentLoaded` handler: the dashboard for a stored token,
        the login box otherwise. */
    method Start()
      modifies this`loginVisible, this`dashboardVisible, this`hasDashboard, this`welcome, this`loginError
      ensures dashboardVisible == !loginVisible
      ensures dashboardVisible <==> session.IsAdminLoggedIn()
      ensures session.IsAdminLoggedIn() ==>
                hasDashboard && loginError == old(loginError)
                && (!Falsy(session.GetItem(Storage.ADMIN_USERNAME)) ==>
                      welcome == Some("Welcome, " + session.GetItem(Storage.ADMIN_USERNAME).value))
                && (Falsy(session.GetItem(Storage.ADMIN_USERNAME)) ==> welcome == old(welcome))
      ensures !session.IsAdminLoggedIn() ==>
                loginError.None? && welcome == old(welcome) && hasDashboard == old(hasDashboard)
    {
      if session.IsAdminLoggedIn() {
        ShowDashboard();
      } else {
        HideDashboard();
      }
    }

    /** The login form's submit handler. `loginAdmin` gives the response's
        token (`None` for a `null` response or one without a token). A
        truthy token is stored with the trimmed username and opens the
        dashboard, after which the admin counts as logged in; anything else
        shows the error and stores nothing. */
    method Login(usernameInput: string, password: string, loginAdmin: (string, string) -> Option<string>)
      modifies this`loginVisible, this`dashboardVisible, this`hasDashboard, this`welcome, this`loginError
      modifies session
      ensures var token := loginAdmin(Trim(usernameInput), password);
              !Falsy(token) ==>
                session.items == old(session.items)[Storage.ADMIN_TOKEN := token.value]
                                                   [Storage.ADMIN_USERNAME := Trim(usernameInput)]
                && session.IsAdminLoggedIn() && dashboardVisible && !loginVisible && loginError.None?
                && hasDashboard
                && (Trim(usernameInput) != "" ==> welcome == Some("Welcome, " + Trim(usernameInput)))
                && (Trim(usernameInput) == "" ==> welcome == old(welcome))
      ensures Falsy(loginAdmin(Trim(usernameInput), password)) ==>
                session.items == old(session.items) && loginError == Some(LOGIN_FAILED)
                && loginVisible == old(loginVisible) && dashboardVisible == old(dashboardVisible)
                && welcome == old(welcome) && hasDashboard == old(hasDashboard)
    {
      var username := Trim(usernameInput);
      var token := loginAdmin(username, password);
      if !Falsy(token) {
        session.SetItem(Storage.ADMIN_TOKEN, token.value);
        session.SetAdminLoggedIn(true, Some(username));
        session.SetItem(Storage.ADMIN_USERNAME, username);
        ShowDashboard();
        loginError := None;
        return;
      }
      loginError := Some(LOGIN_FAILED);
    }

    /** The change-password form's submit handler: the first failing guard's
        message, or, once both pass, the failure of the call to the missing
        `changePassword`. No backend request is made. */
    method ChangePassword(currentPassword: string, newPassword: string, confirmPassword: string)
      modifies this`passwordMessage
      ensures PasswordCheck(newPassword, confirmPassword).Some? ==>
                passwordMessage == PasswordCheck(newPassword, confirmPassword)
      ensures PasswordCheck(newPassword, confirmPassword).None? ==> passwordMessage == Some(CHANGE_FAILED)
    {
      var problem := PasswordCheck(newPassword, confirmPassword);
      if problem.Some? {
        passwordMessage := problem;
        return;
      }
      passwordMessage := Some(CHANGE_FAILED);
    }

    /** The "Add customer" button: an empty form with no record id. */
    method AddCustomer()
      modifies this`formTitle, this`form, this`customerIdLocked, this`customerModalOpen
      ensures formTitle == "Add New Customer" && form == CustomerForm("", "", "", "", SlotsOf([]))
      ensures !customerIdLocked && customerModalOpen
    {
      formTitle := "Add New Customer";
      form := CustomerForm("", "", "", "", SlotsOf([]));
      customerIdLocked, customerModalOpen := false, true;
    }

    /** `customerForm.reset()`: the visible inputs are emptied; the hidden
        record id keeps its value. */
    method ResetForm()
      modifies this`form
      ensures form == CustomerForm(old(form).editId, "", "", "", SlotsOf([]))
    {
      form := CustomerForm(form.editId, "", "", "", SlotsOf([]));
    }

    /** The customer modal's close and cancel buttons. */
    method CloseCustomerModal()
      modifies this`form, this`customerIdLocked, this`customerModalOpen
      ensures !customerModalOpen && !customerIdLocked
      ensures form == CustomerForm(old(form).editId, "", "", "", SlotsOf([]))
    {
      customerModalOpen := false;
      ResetForm();
      customerIdLocked := false;
    }

    /** `editCustomer(customerId)`: lists records for the id and fills the
        form from the chosen record (or from the pending promise when the
        list gives nothing), locks the customer id input and opens the
        modal. */
    method EditCustomer(customerId: string, listRemedies: Option<string> -> Outcome<ListResponse>)
      modifies this`formTitle, this`form, this`customerIdLocked, this`customerModalOpen
      ensures form == EditForm(EditRecord(listRemedies(Some(customerId)), customerId))
      ensures formTitle == "Edit Customer" && customerIdLocked && customerModalOpen
    {
      var customer := EditRecord(listRemedies(Some(customerId)), customerId);
      formTitle := "Edit Customer";
      form := EditForm(customer);
      customerIdLocked := true;
      customerModalOpen := true;
    }

    /** The customer form's submit handler: a date of birth that is not six
        digits is refused with an alert and nothing else happens; otherwise
        the update or create is sent, its outcome alerted, the modal closed
        and reset, and the dashboard refreshed when there is one. */
    method SubmitCustomer(backend: Request -> Outcome<()>)
      modifies this`form, this`customerModalOpen, this`requests, this`alerts, this`refreshes
      ensures SaveRequest(old(form)).None? ==>
                requests == old(requests) && alerts == old(alerts) + [DOB_ALERT]
                && form == old(form) && customerModalOpen == old(customerModalOpen)
                && refreshes == old(refreshes)
      ensures SaveRequest(old(form)).Some? ==>
                var req := SaveRequest(old(form)).value;
                requests == old(requests) + [req]
                && alerts == old(alerts) + [SaveAlert(req, backend(req))]
                && !customerModalOpen && form == CustomerForm(old(form).editId, "", "", "", SlotsOf([]))
                && refreshes == old(refreshes) + (if hasDashboard then 1 else 0)
    {
      var request := SaveRequest(form);
      if request.None? {
        alerts := alerts + [DOB_ALERT];
        return;
      }
      var req := request.value;
      requests := requests + [req];
      alerts := alerts + [SaveAlert(req, backend(req))];
      customerModalOpen := false;
      ResetForm();
      if hasDashboard {
        refreshes := refreshes + 1;
      }
    }

    /** `confirmDeleteCustomer(customerId)`: remembers the id and opens the
        delete modal. */
    method ConfirmDeleteCustomer(customerId: string)
      modifies this`deleteTarget, this`deleteModalOpen
      ensures deleteTarget == Some(customerId) && deleteModalOpen
    {
      deleteTarget := Some(customerId);
      deleteModalOpen := true;
    }

    /** The delete modal's close and cancel buttons. */
    method CloseDeleteModal()
      modifies this`deleteModalOpen
      ensures !deleteModalOpen
    {
      deleteModalOpen := false;
    }

    /** The confirm button: with a remembered, non-empty id, deletes it,
        alerts the outcome, closes the modal and refreshes the dashboard;
        without one nothing happens. */
    method ConfirmDelete(backend: Request -> Outcome<()>)
      modifies this`deleteModalOpen, this`requests, this`alerts, this`refreshes
      ensures Falsy(deleteTarget) ==>
                requests == old(requests) && alerts == old(alerts)
                && deleteModalOpen == old(deleteModalOpen) && refreshes == old(refreshes)
      ensures !Falsy(deleteTarget) ==>
                requests == old(requests) + [Delete(deleteTarget.value)]
                && alerts == old(alerts) + [if backend(Delete(deleteTarget.value)).Returned? then DELETED else DELETE_FAILED]
                && !deleteModalOpen
                && refreshes == old(refreshes) + (if hasDashboard then 1 else 0)
    {
      if Falsy(deleteTarget) {
        return;
      }
      var req := Delete(deleteTarget.value);
      requests := requests + [req];
      alerts := alerts + [if backend(req).Returned? then DELETED else DELETE_FAILED];
      deleteModalOpen := false;
      if hasDashboard {
        refreshes := refreshes + 1;
      }
    }
  }
}

/** The storage adapter (`public/phase1/js/utils/storage.js`): the admin
    session flags kept in `sessionStorage`, and the record lookups layered
    over the backend's list, update and delete calls. A backend call is a
    function parameter from its argument to its outcome; `listRemedies(q)`
    receives `None` when called with no query. */
module Storage {
  import opened Wrappers
  import opened JsString
  import opened Records

  const ADMIN_TOKEN: string := "admin_token"
  const ADMIN_USERNAME: string := "admin_username"

  /** The browser's `sessionStorage`: a key to value store. */
  class SessionStore {
    var items: map<string, string>

    constructor (initial: map<string, string>)
      ensures items == initial
    {
      items := initial;
    }

    /** `sessionStorage.getItem(key)`; `None` is `null`. */
    function GetItem(key: string): (r: Option<string>)
      reads this
      ensures r.Some? <==> key in items
      ensures r.Some? ==> r.value == items[key]
    {
      if key in items then Some(items[key]) else None
    }

    /** `isAdminLoggedIn()`: a token is stored and it is not empty. */
    predicate IsAdminLoggedIn()
      reads this
    {
      !Falsy(GetItem(ADMIN_TOKEN))
    }

    /** `sessionStorage.setItem(key, value)`. */
    method SetItem(key: string, value: string)
      modifies this
      ensures items == old(items)[key := value]
    {
      items := items[key := value];
    }

    /** `sessionStorage.removeItem(key)`. */
    method RemoveItem(key: string)
      modifies this
      ensures items == old(items) - {key}
    {
      items := items - {key};
    }

    /** `setAdminLoggedIn(status, username)`: logging in only records a
        truthy username and never touches the token, so it cannot change
        whether the admin counts as logged in; logging out removes both
        keys, after which the admin is logged out. */
    method SetAdminLoggedIn(status: bool, username: Option<string>)
      modifies this
      ensures status && !Falsy(username) ==> items == old(items)[ADMIN_USERNAME := username.value]
      ensures status && Falsy(username) ==> items == old(items)
      ensures status ==> IsAdminLoggedIn() == old(IsAdminLoggedIn())
      ensures !status ==> items == old(items) - {ADMIN_TOKEN, ADMIN_USERNAME}
      ensures !status ==> !IsAdminLoggedIn() && ADMIN_USERNAME !in items
    {
      if status {
        if !Falsy(username) {
          SetItem(ADMIN_USERNAME, username.value);
        }
      } else {
        RemoveItem(ADMIN_TOKEN);
        RemoveItem(ADMIN_USERNAME);
      }
    }
  }

  // ---------------------------------------------------------------------
  // Record lookups
  // ---------------------------------------------------------------------

  /** `c.customerId === id || c._id === id`. */
  predicate IdMatches(c: Customer, id: string) {
    c.customerId == Str(id) || c.id == Str(id)
  }

  /** `list.findIndex(c => IdMatches(c, id))` as an option. */
  function FirstMatch(list: seq<Customer>, id: string): (r: Option<nat>)
    ensures r.None? <==> forall k :: 0 <= k < |list| ==> !IdMatches(list[k], id)
    ensures r.Some? ==> r.value < |list| && IdMatches(list[r.value], id)
    ensures r.Some? ==> forall k :: 0 <= k < r.value ==> !IdMatches(list[k], id)
  {
    if list == [] then None
    else if IdMatches(list[0], id) then Some(0)
    else match FirstMatch(list[1..], id)
      case None => None
      case Some(i) => Some(i + 1)
  }

  /** `exact || list[0] || null`: the first record whose id or customer id
      is `id`, else the first record, else nothing. */
  function SelectCustomer(list: seq<Customer>, id: string): (r: Option<Customer>)
    ensures r.None? <==> list == []
    ensures (exists k :: 0 <= k < |list| && IdMatches(list[k], id)) ==>
              exists k :: 0 <= k < |list| && r == Some(list[k]) && IdMatches(list[k], id)
                          && forall j :: 0 <= j < k ==> !IdMatches(list[j], id)
    ensures (forall k :: 0 <= k < |list| ==> !IdMatches(list[k], id)) && list != [] ==>
              r == Some(list[0])
  {
    match FirstMatch(list, id)
    case Some(i) => Some(list[i])
    case None => if list == [] then None else Some(list[0])
  }

  /** `findCustomerById(customerId)`: with a falsy id the answer is `null`
      whatever the backend would say (no lookup happens); a failed lookup
      rejects with its error; a response that is not an array gives
      `null`; otherwise the selection rule applies. */
  function FindCustomerById(customerId: Option<string>,
                            listRemedies: Option<string> -> Outcome<ListResponse>): (r: Outcome<Option<Customer>>)
    ensures Falsy(customerId) ==> r == Returned(None)
    ensures !Falsy(customerId) && listRemedies(customerId).Threw? ==>
              r == Threw(listRemedies(customerId).error)
    ensures !Falsy(customerId) && listRemedies(customerId) == Returned(NotAList) ==> r == Returned(None)
    ensures !Falsy(customerId) && listRemedies(customerId).Returned? && listRemedies(customerId).value.Records? ==>
              r == Returned(SelectCustomer(listRemedies(customerId).value.items, customerId.value))
  {
    if Falsy(customerId) then Returned(None)
    else match listRemedies(customerId)
      case Threw(e) => Threw(e)
      case Returned(NotAList) => Returned(None)
      case Returned(Records(list)) => Returned(SelectCustomer(list, customerId.value))
  }

  /** A falsy id never consults the backend: two different backends give
      the same answer. */
  lemma FindWithoutIdIgnoresBackend(customerId: Option<string>,
                                    a: Option<string> -> Outcome<ListResponse>,
                                    b: Option<string> -> Outcome<ListResponse>)
    requires Falsy(customerId)
    ensures FindCustomerById(customerId, a) == FindCustomerById(customerId, b) == Returned(None)
  {
  }

  /** `searchCustomers(query)`: `[]` with no lookup for a falsy query,
      the array response as it is, `[]` for any other response; a failed
      lookup rejects. */
  function SearchCustomers(query: Option<string>,
                           listRemedies: Option<string> -> Outcome<ListResponse>): (r: Outcome<seq<Customer>>)
    ensures Falsy(query) ==> r == Returned([])
    ensures !Falsy(query) && listRemedies(query).Threw? ==> r == Threw(listRemedies(query).error)
    ensures !Falsy(query) && listRemedies(query).Returned? ==>
              r == Returned(ArrayOrEmpty(listRemedies(query).value))
  {
    if Falsy(query) then Returned([])
    else match listRemedies(query)
      case Threw(e) => Threw(e)
      case Returned(resp) => Returned(ArrayOrEmpty(resp))
  }

  /** `getRemediesDatabase()`: the unfiltered list when the response is an
      array, `[]` otherwise; a failed lookup rejects. */
  function GetRemediesDatabase(listRemedies: Option<string> -> Outcome<ListResponse>): (r: Outcome<seq<Customer>>)
    ensures listRemedies(None).Threw? ==> r == Threw(listRemedies(None).error)
    ensures listRemedies(None) == Returned(NotAList) ==> r == Returned([])
    ensures listRemedies(None).Returned? && listRemedies(None).value.Records? ==>
              r == Returned(listRemedies(None).value.items)
  {
    match listRemedies(None)
    case Threw(e) => Threw(e)
    case Returned(resp) => Returned(ArrayOrEmpty(resp))
  }

  /** The shared shape of `updateCustomer(idOrCustomerId, data)` (with
      `call` the backend's `updateRemedy(_, data)`) and of
      `deleteCustomer(idOrCustomerId)` (with `call` its `deleteRemedy`):
      try the key as a record id; if that fails, look the key up and retry
      with the found record's `_id`; with nothing found, reject with the
      first call's error. */
  function RetryWithResolvedId<R>(idOrCustomerId: string,
                                  call: Prop -> Outcome<R>,
                                  listRemedies: Option<string> -> Outcome<ListResponse>): (r: Outcome<R>)
    ensures call(Str(idOrCustomerId)).Returned? ==> r == call(Str(idOrCustomerId))
    ensures call(Str(idOrCustomerId)).Threw? ==>
              match FindCustomerById(Some(idOrCustomerId), listRemedies)
              case Threw(e) => r == Threw(e)
              case Returned(None) => r == call(Str(idOrCustomerId))
              case Returned(Some(found)) => r == call(found.id)
  {
    match call(Str(idOrCustomerId))
    case Returned(v) => Returned(v)
    case Threw(err) =>
      match FindCustomerById(Some(idOrCustomerId), listRemedies)
      case Threw(e) => Threw(e)
      case Returned(None) => Threw(err)
      case Returned(Some(found)) => call(found.id)
  }

  /** A direct call that succeeds is the answer, and the lookup is never
      made: two different backends for the lookup give the same answer. */
  lemma DirectSuccessSkipsLookup<R>(key: string, call: Prop -> Outcome<R>,
                                    a: Option<string> -> Outcome<ListResponse>,
                                    b: Option<string> -> Outcome<ListResponse>)
    requires call(Str(key)).Returned?
    ensures RetryWithResolvedId(key, call, a) == RetryWithResolvedId(key, call, b) == call(Str(key))
  {
  }

  /** When the key names a record by its `customerId` alone and the direct
      call fails, the retry goes to that record's `_id`. */
  lemma RetryUsesRecordId<R>(key: string, call: Prop -> Outcome<R>,
                             listRemedies: Option<string> -> Outcome<ListResponse>,
                             list: seq<Customer>, k: nat)
    requires key != "" && call(Str(key)).Threw?
    requires listRemedies(Some(key)) == Returned(Records(list))
    requires k < |list| && IdMatches(list[k], key)
    requires forall j :: 0 <= j < k ==> !IdMatches(list[j], key)
    ensures RetryWithResolvedId(key, call, listRemedies) == call(list[k].id)
  {
    var found := SelectCustomer(list, key);
    var i :| 0 <= i < |list| && found == Some(list[i]) && IdMatches(list[i], key)
             && forall j :: 0 <= j < i ==> !IdMatches(list[j], key);
    assert i == k;
  }

  /** The admin credentials no longer live in the browser. */
  datatype Credentials = Credentials(username: string, password: string)

  /** `getAdminCredentials()` always gives `null`. */
  function GetAdminCredentials(): (r: Option<Credentials>)
    ensures r.None?
  {
    None
  }

  /** `updateAdminPassword()` always throws. */
  function UpdateAdminPassword(): (r: Outcome<()>)
    ensures r == Threw("updateAdminPassword: use backend API (not implemented)")
  {
    Threw("updateAdminPassword: use backend API (not implemented)")
  }
}

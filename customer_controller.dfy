/**
 * The customer controller: identification types, the e-mail shape check,
 * the customer table with its create, update, delete and status operations,
 * the protected final consumer, and the paged customer listing.
 *
 * The customers table is a map from ids to customers held by `CustomerStore`.
 */
module CustomerController {
  import opened Common
  import opened Text
  import opened Listing

  type CustomerId = nat

  /** The closed set of identification types. */
  datatype IdType = DocumentId | Ruc | Passport | FinalConsumer

  /** The name under which a type is stored and sent. */
  function IdTypeName(t: IdType): string {
    match t
    case DocumentId => "document_id"
    case Ruc => "ruc"
    case Passport => "passport"
    case FinalConsumer => "final_consumer"
  }

  /** `validTypes`, in the order the controller lists them. */
  const ValidTypes: seq<string> := ["document_id", "ruc", "passport", "final_consumer"]

  /** `validTypes.includes(s)`, returning the type named. */
  function ParseIdType(s: string): (r: Option<IdType>)
    ensures r.Some? <==> s in ValidTypes
    ensures r.Some? ==> IdTypeName(r.value) == s
  {
    if s == "document_id" then Some(DocumentId)
    else if s == "ruc" then Some(Ruc)
    else if s == "passport" then Some(Passport)
    else if s == "final_consumer" then Some(FinalConsumer)
    else None
  }

  /** Every type survives being written out by name and read back. */
  lemma ParseIdTypeName(t: IdType)
    ensures ParseIdType(IdTypeName(t)) == Some(t)
    ensures IdTypeName(t) in ValidTypes
  {
  }

  // ---------------------------------------------------------------------
  // The e-mail shape ^[^\s@]+@[^\s@]+\.[^\s@]+$
  // ---------------------------------------------------------------------

  /** A character of the class `[^\s@]`. */
  predicate Plain(c: char) {
    !IsJsWhitespace(c) && c != '@'
  }

  /** Every character of `s` at positions lo .. hi - 1 is of the class `[^\s@]`. */
  predicate PlainBetween(s: string, lo: nat, hi: nat)
    requires lo <= hi <= |s|
  {
    forall k :: lo <= k < hi ==> Plain(s[k])
  }

  /**
   * The regular expression read literally: a non-empty plain local part, an
   * '@', a non-empty plain text, a '.', and a non-empty plain text, with
   * nothing before or after.
   */
  predicate MatchesEmailPattern(s: string) {
    exists i: nat, j: nat :: 0 < i && i + 1 < j && j + 1 < |s| && s[i] == '@' && s[j] == '.'
                             && PlainBetween(s, 0, i) && PlainBetween(s, i + 1, j) && PlainBetween(s, j + 1, |s|)
  }

  /** The position of the first '@' of `s`, if any. */
  function FirstAt(s: string): (r: Option<nat>)
    ensures r.Some? ==> r.value < |s| && s[r.value] == '@' && forall k :: 0 <= k < r.value ==> s[k] != '@'
    ensures r.None? ==> forall k :: 0 <= k < |s| ==> s[k] != '@'
  {
    if s == [] then None
    else if s[0] == '@' then Some(0)
    else match FirstAt(s[1..])
      case None => None
      case Some(k) => Some(k + 1)
  }

  /**
   * `emailRegex.test(s)`, decided by splitting at the first '@': a non-empty
   * local part, no whitespace anywhere, no further '@', and a '.' after the
   * '@' with at least one character on each side.
   */
  predicate IsValidEmail(s: string) {
    match FirstAt(s)
    case None => false
    case Some(i) =>
      && 0 < i
      && (forall k :: 0 <= k < |s| ==> !IsJsWhitespace(s[k]))
      && (forall k :: i < k < |s| ==> s[k] != '@')
      && (exists k :: i + 1 < k < |s| - 1 && s[k] == '.')
  }

  /** A string the first-'@' split accepts matches the regular expression. */
  lemma EmailCheckSound(s: string)
    requires IsValidEmail(s)
    ensures MatchesEmailPattern(s)
  {
    var i := FirstAt(s).value;
    var j :| i + 1 < j < |s| - 1 && s[j] == '.';
    assert PlainBetween(s, 0, i) && PlainBetween(s, i + 1, j) && PlainBetween(s, j + 1, |s|);
  }

  /** A string that matches the regular expression is accepted by the first-'@' split. */
  lemma EmailCheckComplete(s: string)
    requires MatchesEmailPattern(s)
    ensures IsValidEmail(s)
  {
    var i: nat, j: nat :| 0 < i && i + 1 < j && j + 1 < |s| && s[i] == '@' && s[j] == '.'
                          && PlainBetween(s, 0, i) && PlainBetween(s, i + 1, j) && PlainBetween(s, j + 1, |s|);
    assert FirstAt(s) == Some(i);
    forall k | 0 <= k < |s| ensures !IsJsWhitespace(s[k]) {
      if k != i && k != j {
        assert Plain(s[k]);
      }
    }
  }

  /** The split at the first '@' decides exactly the regular expression. */
  lemma EmailCheckIsPattern(s: string)
    ensures IsValidEmail(s) <==> MatchesEmailPattern(s)
  {
    if IsValidEmail(s) {
      EmailCheckSound(s);
    }
    if MatchesEmailPattern(s) {
      EmailCheckComplete(s);
    }
  }

  /** The e-mail check applies only to a truthy value: a missing or empty e-mail passes. */
  predicate EmailAcceptable(email: Option<string>) {
    email.None? || email.value == "" || IsValidEmail(email.value)
  }

  // ---------------------------------------------------------------------
  // Customers
  // ---------------------------------------------------------------------

  /** A stored customer; `None` is a NULL column. */
  datatype Customer = Customer(
    idType: IdType,
    identification: string,
    name: string,
    email: Option<string>,
    phone: Option<string>,
    address: Option<string>,
    active: bool)

  /**
   * The body of a create or update request. An empty `identificationType`,
   * `identification` or `name` is a falsy value; `None` is a field left
   * undefined.
   */
  datatype CustomerBody = CustomerBody(
    identificationType: string,
    identification: string,
    name: string,
    email: Option<string>,
    phone: Option<string>,
    address: Option<string>,
    active: Option<bool>)

  /** Why a request is refused with 400. */
  datatype CustomerReason =
    | MissingRequired
    | InvalidIdType
    | DuplicateIdentification
    | InvalidEmail
    | CannotDeleteFinalConsumer
    | CannotDeactivateFinalConsumer

  predicate HasIdentification(customers: map<CustomerId, Customer>, identification: string) {
    exists id :: id in customers && customers[id].identification == identification
  }

  /** A given type must name one of the valid types. */
  predicate TypeAcceptable(identificationType: string) {
    identificationType == "" || ParseIdType(identificationType).Some?
  }

  /** The customer `createCustomer` stores: the type defaults to `document_id`. */
  function NewCustomer(body: CustomerBody): (c: Customer)
    requires TypeAcceptable(body.identificationType)
    ensures IdTypeName(c.idType) == if body.identificationType == "" then "document_id" else body.identificationType
    ensures c.identification == body.identification && c.name == body.name
    ensures c.email == body.email && c.phone == body.phone && c.address == body.address
    ensures c.active
  {
    Customer(
      if body.identificationType == "" then DocumentId else ParseIdType(body.identificationType).value,
      body.identification, body.name, body.email, body.phone, body.address, true)
  }

  /**
   * The customer stored by `updateCustomer`: falsy type, identification and
   * name keep the old value; e-mail, phone, address and active change only
   * when defined.
   */
  function MergeCustomer(c: Customer, body: CustomerBody): (r: Customer)
    ensures body == CustomerBody("", "", "", None, None, None, None) ==> r == c
    ensures TypeAcceptable(body.identificationType) ==>
      IdTypeName(r.idType) == if body.identificationType == "" then IdTypeName(c.idType) else body.identificationType
  {
    Customer(
      ParseIdType(body.identificationType).GetOr(c.idType),
      if body.identification != "" then body.identification else c.identification,
      if body.name != "" then body.name else c.name,
      if body.email.Some? then body.email else c.email,
      if body.phone.Some? then body.phone else c.phone,
      if body.address.Some? then body.address else c.address,
      body.active.GetOr(c.active))
  }

  /** Applying the same update twice changes nothing more than applying it once. */
  lemma MergeCustomerIdempotent(c: Customer, body: CustomerBody)
    ensures MergeCustomer(MergeCustomer(c, body), body) == MergeCustomer(c, body)
  {
  }

  /**
   * The update path guards the final consumer nowhere: an update that sets
   * `active` to false deactivates it, although `toggleCustomerStatus` refuses to.
   */
  lemma UpdateMayDeactivateFinalConsumer(c: Customer, body: CustomerBody)
    requires c.idType == FinalConsumer && c.active
    requires body.identificationType == "" && body.active == Some(false)
    ensures MergeCustomer(c, body).idType == FinalConsumer && !MergeCustomer(c, body).active
  {
  }

  /** The table invariant: identifications are unique, required fields present, e-mails well-formed. */
  predicate CustomersValid(customers: map<CustomerId, Customer>) {
    && (forall a, b :: a in customers && b in customers && a != b ==>
          customers[a].identification != customers[b].identification)
    && (forall id :: id in customers ==>
          customers[id].identification != "" && customers[id].name != "" && EmailAcceptable(customers[id].email))
  }

  // ---------------------------------------------------------------------
  // The listing
  // ---------------------------------------------------------------------

  /** What `getCustomers` filters on: `None` or an empty string is a parameter left out. */
  datatype CustomerFilter = CustomerFilter(active: Option<string>, identificationType: string, search: string)

  /** The WHERE clause of `getCustomers`; a NULL e-mail matches no search. */
  predicate CustomerMatches(f: CustomerFilter, c: Customer) {
    && (f.active.Some? ==> c.active == (f.active.value == "true"))
    && (f.identificationType != "" ==> IdTypeName(c.idType) == f.identificationType)
    && (f.search != "" ==>
          || ContainsIgnoringCase(c.name, f.search)
          || ContainsIgnoringCase(c.identification, f.search)
          || (c.email.Some? && ContainsIgnoringCase(c.email.value, f.search)))
  }

  /** ORDER BY name. */
  function CustomerSortKey(c: Customer): seq<string> {
    [c.name]
  }

  function MatchingCustomerIds(customers: map<CustomerId, Customer>, f: CustomerFilter): (ids: set<CustomerId>)
    ensures ids <= customers.Keys
    ensures forall id :: id in ids <==> id in customers && CustomerMatches(f, customers[id])
  {
    set id | id in customers && CustomerMatches(f, customers[id])
  }

  /** With no active, type or search filter given, every customer is listed. */
  lemma UnfilteredListsAllCustomers(customers: map<CustomerId, Customer>)
    ensures MatchingCustomerIds(customers, CustomerFilter(None, "", "")) == customers.Keys
  {
  }

  /** A search only narrows the listing: it keeps a subset of the ids the other filters keep. */
  lemma SearchNarrowsCustomers(customers: map<CustomerId, Customer>, f: CustomerFilter)
    ensures MatchingCustomerIds(customers, f) <= MatchingCustomerIds(customers, f.(search := ""))
  {
  }

  /** All customers that match `f`, in listing order. */
  function OrderedCustomers(customers: map<CustomerId, Customer>, f: CustomerFilter): seq<Customer> {
    OrderedRows(customers, MatchingCustomerIds(customers, f), CustomerSortKey)
  }

  /** The `data` and `pagination` fields of the listing. */
  datatype CustomerPage = CustomerPage(
    rows: seq<Customer>,
    total: nat,
    perPage: int,
    currentPage: int,
    totalPages: nat,
    from: int,
    to: int,
    hasNext: bool,
    hasPrev: bool)

  /** Every customer on a page of the listing is stored and matches the filter. */
  lemma ListedCustomersMatch(customers: map<CustomerId, Customer>, f: CustomerFilter, offset: nat, limit: nat)
    ensures var rows := PageOf(OrderedCustomers(customers, f), offset, limit);
            forall k :: 0 <= k < |rows| ==> rows[k] in customers.Values && CustomerMatches(f, rows[k])
  {
    var all := OrderedCustomers(customers, f);
    var rows := PageOf(all, offset, limit);
    forall k | 0 <= k < |rows| ensures rows[k] in customers.Values && CustomerMatches(f, rows[k]) {
      assert rows[k] == all[offset + k];
      var id :| id in MatchingCustomerIds(customers, f) && customers[id] == all[offset + k];
      assert customers[id] in customers.Values;
    }
  }

  /**
   * `getCustomers`: one page of the matching customers ordered by name,
   * starting at offset (page - 1) * limit. `from` and `to` number the rows of
   * the page within the whole listing; there is a next page exactly when rows
   * remain after `to`, and a previous one exactly when rows precede `from`.
   * A page below 1 makes the offset negative, which the database refuses.
   */
  function GetCustomers(customers: map<CustomerId, Customer>, f: CustomerFilter, page: int, limit: int)
    : (r: Result<CustomerPage, CustomerReason>)
    requires limit >= 1
    ensures r.Ok? || r.ServerError?
    ensures r.ServerError? <==> page < 1
    ensures r.Ok? ==> r.value.total == |MatchingCustomerIds(customers, f)|
    ensures r.Ok? ==> forall k :: 0 <= k < |r.value.rows| ==>
      r.value.rows[k] in customers.Values && CustomerMatches(f, r.value.rows[k])
    ensures r.Ok? ==> SortedByKey(r.value.rows, CustomerSortKey)
    ensures r.Ok? ==> r.value.from == (page - 1) * limit + 1 >= 1 && r.value.to == r.value.from - 1 + |r.value.rows|
    ensures r.Ok? ==> r.value.rows == PageOf(OrderedCustomers(customers, f), r.value.from - 1, limit)
    ensures r.Ok? ==> |r.value.rows| <= limit
    ensures r.Ok? ==> r.value.totalPages == TotalPages(r.value.total, limit)
    ensures r.Ok? ==> (r.value.hasNext <==> r.value.to < r.value.total)
    ensures r.Ok? ==> (r.value.hasPrev <==> r.value.from > 1)
    ensures r.Ok? ==> r.value.currentPage == page && r.value.perPage == limit
  {
    if page < 1 then ServerError
    else
      var offset := (page - 1) * limit;
      var all := OrderedCustomers(customers, f);
      PageFields(all, page, limit, offset);
      var rows := PageOf(all, offset, limit);
      ListedCustomersMatch(customers, f, offset, limit);
      var totalPages := TotalPages(|all|, limit);
      Ok(CustomerPage(rows, |all|, limit, page, totalPages, offset + 1, offset + |rows|,
                      page < totalPages, page > 1))
  }

  // ---------------------------------------------------------------------
  // The customer table
  // ---------------------------------------------------------------------

  /** The customers table, as the customer controller reads and writes it. */
  class CustomerStore {
    var customers: map<CustomerId, Customer>

    ghost predicate Valid()
      reads this
    {
      CustomersValid(customers)
    }

    constructor ()
      ensures Valid() && customers == map[]
    {
      customers := map[];
    }

    /** `getCustomerById`. */
    method GetCustomerById(id: CustomerId) returns (r: Result<Customer, CustomerReason>)
      ensures r.Ok? || r.NotFound?
      ensures r.NotFound? <==> id !in customers
      ensures r.Ok? ==> r.value == customers[id]
    {
      if id !in customers {
        return NotFound;
      }
      r := Ok(customers[id]);
    }

    /** `getCustomerByIdentification`: under the invariant, the one customer holding it. */
    method GetCustomerByIdentification(identification: string) returns (r: Result<Customer, CustomerReason>)
      requires Valid()
      ensures r.Ok? || r.NotFound?
      ensures r.NotFound? <==> !HasIdentification(customers, identification)
      ensures r.Ok? ==> forall id :: id in customers && customers[id].identification == identification ==>
        r.value == customers[id]
      ensures r.Ok? ==> r.value in customers.Values
    {
      if !HasIdentification(customers, identification) {
        return NotFound;
      }
      var id :| id in customers && customers[id].identification == identification;
      r := Ok(customers[id]);
    }

    /** `getFinalConsumer`: some customer of type `final_consumer`, if there is one. */
    method GetFinalConsumer() returns (r: Result<Customer, CustomerReason>)
      ensures r.Ok? || r.NotFound?
      ensures r.NotFound? <==> forall id :: id in customers ==> customers[id].idType != FinalConsumer
      ensures r.Ok? ==> r.value in customers.Values && r.value.idType == FinalConsumer
    {
      if forall id :: id in customers ==> customers[id].idType != FinalConsumer {
        return NotFound;
      }
      var id :| id in customers && customers[id].idType == FinalConsumer;
      r := Ok(customers[id]);
    }

    /**
     * `createCustomer`, with its checks in order: identification and name are
     * required; a given type must be valid; the identification must be new;
     * a given e-mail must be well-formed. A refusal changes nothing; otherwise
     * exactly one customer is added under the fresh id `id`.
     */
    method CreateCustomer(id: CustomerId, body: CustomerBody) returns (r: Result<Customer, CustomerReason>)
      requires Valid()
      modifies this
      ensures Valid()
      ensures r.Ok? || r.BadRequest? || r.ServerError?
      ensures var missing := body.identification == "" || body.name == "";
              var badType := !TypeAcceptable(body.identificationType);
              var duplicate := HasIdentification(old(customers), body.identification);
              var badEmail := !EmailAcceptable(body.email);
              && (missing ==> r == BadRequest(MissingRequired))
              && (!missing && badType ==> r == BadRequest(InvalidIdType))
              && (!missing && !badType && duplicate ==> r == BadRequest(DuplicateIdentification))
              && (!missing && !badType && !duplicate && badEmail ==> r == BadRequest(InvalidEmail))
              && (!missing && !badType && !duplicate && !badEmail ==>
                    if id in old(customers) then r == ServerError else r == Ok(NewCustomer(body)))
      ensures !r.Ok? ==> customers == old(customers)
      ensures r.Ok? ==> customers == old(customers)[id := r.value] && id !in old(customers)
    {
      if body.identification == "" || body.name == "" {
        return BadRequest(MissingRequired);
      }
      if !TypeAcceptable(body.identificationType) {
        return BadRequest(InvalidIdType);
      }
      if HasIdentification(customers, body.identification) {
        return BadRequest(DuplicateIdentification);
      }
      if !EmailAcceptable(body.email) {
        return BadRequest(InvalidEmail);
      }
      if id in customers {
        // the generated primary key collides
        return ServerError;
      }
      var c := NewCustomer(body);
      customers := customers[id := c];
      r := Ok(c);
    }

    /**
     * `updateCustomer`, with its checks in order: NotFound for an unknown id;
     * a changed identification must be new; a given e-mail must be
     * well-formed; a given type must be valid. A refusal changes nothing;
     * otherwise only customer `id` changes, to the merge of its old value and
     * the body.
     */
    method UpdateCustomer(id: CustomerId, body: CustomerBody) returns (r: Result<Customer, CustomerReason>)
      requires Valid()
      modifies this
      ensures Valid()
      ensures r.Ok? || r.NotFound? || r.BadRequest?
      ensures r.NotFound? <==> id !in old(customers)
      ensures id in old(customers) ==>
        var c := old(customers)[id];
        var duplicate := body.identification != "" && body.identification != c.identification
                         && HasIdentification(old(customers), body.identification);
        var badEmail := !EmailAcceptable(body.email);
        var badType := !TypeAcceptable(body.identificationType);
        && (duplicate ==> r == BadRequest(DuplicateIdentification))
        && (!duplicate && badEmail ==> r == BadRequest(InvalidEmail))
        && (!duplicate && !badEmail && badType ==> r == BadRequest(InvalidIdType))
        && (!duplicate && !badEmail && !badType ==> r == Ok(MergeCustomer(c, body)))
      ensures !r.Ok? ==> customers == old(customers)
      ensures r.Ok? ==> customers == old(customers)[id := r.value]
    {
      if id !in customers {
        return NotFound;
      }
      var c := customers[id];
      if body.identification != "" && body.identification != c.identification
         && HasIdentification(customers, body.identification) {
        return BadRequest(DuplicateIdentification);
      }
      if !EmailAcceptable(body.email) {
        return BadRequest(InvalidEmail);
      }
      if !TypeAcceptable(body.identificationType) {
        return BadRequest(InvalidIdType);
      }
      var merged := MergeCustomer(c, body);
      customers := customers[id := merged];
      r := Ok(merged);
    }

    /**
     * `deleteCustomer`: NotFound for an unknown id; a final consumer is never
     * deleted; otherwise exactly that customer is removed.
     */
    method DeleteCustomer(id: CustomerId) returns (r: Result<(), CustomerReason>)
      requires Valid()
      modifies this
      ensures Valid()
      ensures r.Ok? || r.NotFound? || r.BadRequest?
      ensures r.NotFound? <==> id !in old(customers)
      ensures r.BadRequest? <==> id in old(customers) && old(customers)[id].idType == FinalConsumer
      ensures r.BadRequest? ==> r.reason == CannotDeleteFinalConsumer
      ensures !r.Ok? ==> customers == old(customers)
      ensures r.Ok? ==> customers == old(customers) - {id}
    {
      if id !in customers {
        return NotFound;
      }
      if customers[id].idType == FinalConsumer {
        return BadRequest(CannotDeleteFinalConsumer);
      }
      customers := customers - {id};
      r := Ok(());
    }

    /**
     * `toggleCustomerStatus`: NotFound for an unknown id; an active final
     * consumer is never deactivated; otherwise only the `active` flag of that
     * customer flips.
     */
    method ToggleCustomerStatus(id: CustomerId) returns (r: Result<Customer, CustomerReason>)
      requires Valid()
      modifies this
      ensures Valid()
      ensures r.Ok? || r.NotFound? || r.BadRequest?
      ensures r.NotFound? <==> id !in old(customers)
      ensures r.BadRequest? <==> id in old(customers) && old(customers)[id].idType == FinalConsumer
                                 && old(customers)[id].active
      ensures r.BadRequest? ==> r.reason == CannotDeactivateFinalConsumer
      ensures !r.Ok? ==> customers == old(customers)
      ensures r.Ok? ==> customers == old(customers)[id := r.value]
                        && r.value == old(customers)[id].(active := !old(customers)[id].active)
    {
      if id !in customers {
        return NotFound;
      }
      var c := customers[id];
      if c.idType == FinalConsumer && c.active {
        return BadRequest(CannotDeactivateFinalConsumer);
      }
      var toggled := c.(active := !c.active);
      customers := customers[id := toggled];
      r := Ok(toggled);
    }
  }
}

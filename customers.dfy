/** The customer registry page: a list of customers with name, email and
    phone, the form validation (including the email pattern) that gates
    adding and editing, and delete by id. */
module Customers {
  import opened JsRuntime

  datatype Customer = Customer(id: int, name: string, email: string, phone: string)

  /** The three text fields of the customer form. */
  datatype CustomerForm = CustomerForm(name: string, email: string, phone: string)

  /** The messages the form shows under a field. */
  datatype Message = NameRequired | EmailRequired | EmailInvalid | PhoneRequired

  function MessageText(m: Message): string
  {
    match m
    case NameRequired => "Name is required"
    case EmailRequired => "Email is required"
    case EmailInvalid => "Valid email is required"
    case PhoneRequired => "Phone is required"
  }

  // ---------------------------------------------------------------------------
  // The email pattern
  // ---------------------------------------------------------------------------

  predicate NoWhiteSpace(s: string)
  {
    forall i | 0 <= i < |s| :: !IsWhiteSpace(s[i])
  }

  /** A match of the pattern with its '@' at `at` and its '.' at `dot`: a
      non-space character just before the '@', at least one character between
      them and none of those a space, and a non-space character just after
      the '.'. Shorter runs suffice because every longer match contains one
      of these. */
  predicate EmailMatchAt(s: string, at: int, dot: int)
  {
    && 0 < at && at + 1 < dot && dot + 1 < |s|
    && s[at] == '@' && s[dot] == '.'
    && !IsWhiteSpace(s[at - 1]) && !IsWhiteSpace(s[dot + 1])
    && NoWhiteSpace(s[at + 1..dot])
  }

  /** `/\S+@\S+\.\S+/.test(s)`: the pattern is not anchored, so any match
      anywhere in the string will do. */
  predicate MatchesEmailPattern(s: string)
  {
    exists at, dot | 0 < at < |s| && at + 1 < dot < |s| - 1 :: EmailMatchAt(s, at, dot)
  }

  /** Every string of the pattern's language, with anything around it, matches. */
  lemma EmbeddedAddressMatches(pre: string, user: string, domain: string, tld: string, post: string)
    requires user != [] && domain != [] && tld != []
    requires NoWhiteSpace(user) && NoWhiteSpace(domain) && NoWhiteSpace(tld)
    ensures MatchesEmailPattern(pre + user + "@" + domain + "." + tld + post)
  {
    var s := pre + user + "@" + domain + "." + tld + post;
    var at := |pre| + |user|;
    var dot := at + 1 + |domain|;
    assert s[at - 1] == user[|user| - 1];
    assert s[at] == '@';
    assert s[dot] == '.';
    assert s[dot + 1] == tld[0];
    assert s[at + 1..dot] == domain;
    assert EmailMatchAt(s, at, dot);
  }

  /** Conversely, a match splits the string into text before, a non-space
      user part, '@', a non-space domain, '.', a non-space suffix, and text after. */
  lemma MatchSplits(s: string) returns (pre: string, user: string, domain: string, tld: string, post: string)
    requires MatchesEmailPattern(s)
    ensures s == pre + user + "@" + domain + "." + tld + post
    ensures user != [] && domain != [] && tld != []
    ensures NoWhiteSpace(user) && NoWhiteSpace(domain) && NoWhiteSpace(tld)
  {
    var at, dot :| EmailMatchAt(s, at, dot);
    assert EmailMatchAt(s, at, dot);
    pre, user, domain, tld, post := s[..at - 1], [s[at - 1]], s[at + 1..dot], [s[dot + 1]], s[dot + 2..];
    assert s == s[..at - 1] + [s[at - 1]] + [s[at]] + s[at + 1..dot] + [s[dot]] + [s[dot + 1]] + s[dot + 2..];
  }

  /** A match contains '@', which is not white space, so it is never blank. */
  lemma MatchIsNotBlank(s: string)
    requires MatchesEmailPattern(s)
    ensures !IsBlank(s)
  {
    var at, dot :| EmailMatchAt(s, at, dot);
    assert EmailMatchAt(s, at, dot);
    assert !IsWhiteSpace(s[at]);
  }

  /** The pattern asks for no more than one character around '@' and '.',
      and text around the address does not stop a match. */
  lemma EmailAccepted()
    ensures MatchesEmailPattern("a@b.c")
    ensures MatchesEmailPattern("Mail: ali@shop.uz please")
  {
    assert EmailMatchAt("a@b.c", 1, 3);
    var t := "Mail: ali@shop.uz please";
    assert t[10..14] == "shop";
    assert EmailMatchAt(t, 9, 14);
  }

  /** Without a '.' after the '@' there is no match, and neither is there
      when a space stands right before the '@'. */
  lemma EmailRejected()
    ensures !MatchesEmailPattern("a@b")
    ensures !MatchesEmailPattern("a @b.c")
  {
    var t := "a @b.c";
    forall at, dot | 0 < at < |t| && at + 1 < dot < |t| - 1 ensures !EmailMatchAt(t, at, dot) {
      assert at == 1 || at == 2;
      assert t[1] == ' ' && IsWhiteSpace(t[1]);
    }
  }

  // ---------------------------------------------------------------------------
  // Validation
  // ---------------------------------------------------------------------------

  /** The error map of the form: the message shown under each field, if any. */
  datatype Errors = Errors(name: Option<Message>, email: Option<Message>, phone: Option<Message>)
  {
    /** `Object.keys(newErrors).length === 0` */
    predicate IsEmpty()
    {
      name.None? && email.None? && phone.None?
    }
  }

  /** Adds `key: text` to the map when the field has a message. */
  function WithEntry(m: map<string, string>, key: string, msg: Option<Message>): map<string, string>
  {
    if msg.Some? then m[key := MessageText(msg.value)] else m
  }

  /** The `newErrors` object itself: a key per field that has a message,
      mapped to that message's text. */
  function ErrorMap(e: Errors): (m: map<string, string>)
    ensures ("name" in m <==> e.name.Some?) && (e.name.Some? ==> m["name"] == MessageText(e.name.value))
    ensures ("email" in m <==> e.email.Some?) && (e.email.Some? ==> m["email"] == MessageText(e.email.value))
    ensures ("phone" in m <==> e.phone.Some?) && (e.phone.Some? ==> m["phone"] == MessageText(e.phone.value))
    ensures m.Keys <= {"name", "email", "phone"}
    ensures |m| == 0 <==> e.IsEmpty()
  {
    var m0 := WithEntry(map[], "name", e.name);
    var m1 := WithEntry(m0, "email", e.email);
    var m := WithEntry(m1, "phone", e.phone);
    assert e.name.Some? ==> "name" in m;
    assert m.Keys == {} ==> m == map[];
    m
  }

  function NameError(f: CustomerForm): Option<Message>
  {
    if IsBlank(f.name) then Some(NameRequired) else None
  }

  /** A blank email is reported as missing; only a non-blank one is matched
      against the pattern. */
  function EmailError(f: CustomerForm): Option<Message>
  {
    if IsBlank(f.email) then Some(EmailRequired)
    else if !MatchesEmailPattern(f.email) then Some(EmailInvalid)
    else None
  }

  function PhoneError(f: CustomerForm): Option<Message>
  {
    if IsBlank(f.phone) then Some(PhoneRequired) else None
  }

  /** A form the page accepts: a name, an email matching the pattern, a phone. */
  predicate FormAccepted(f: CustomerForm)
  {
    !IsBlank(f.name) && MatchesEmailPattern(f.email) && !IsBlank(f.phone)
  }

  /** validateForm: each field gets its own message; the form is valid
      exactly when no field has one, which is when the form is accepted. */
  method ValidateForm(form: CustomerForm) returns (errors: Errors, valid: bool)
    ensures errors == Errors(NameError(form), EmailError(form), PhoneError(form))
    ensures valid <==> errors.IsEmpty()
    ensures valid <==> FormAccepted(form)
  {
    errors := Errors(None, None, None);
    var nameBlank := IsBlankAfterTrim(form.name);
    if nameBlank {
      errors := errors.(name := Some(NameRequired));
    }
    var emailBlank := IsBlankAfterTrim(form.email);
    if emailBlank {
      errors := errors.(email := Some(EmailRequired));
    } else if !MatchesEmailPattern(form.email) {
      errors := errors.(email := Some(EmailInvalid));
    }
    var phoneBlank := IsBlankAfterTrim(form.phone);
    if phoneBlank {
      errors := errors.(phone := Some(PhoneRequired));
    }
    valid := errors.IsEmpty();
    if MatchesEmailPattern(form.email) {
      MatchIsNotBlank(form.email);
    }
  }

  // ---------------------------------------------------------------------------
  // The customer list
  // ---------------------------------------------------------------------------

  function CustomerId(c: Customer): int
  {
    c.id
  }

  function OtherCustomer(id: int): Customer -> bool
  {
    (c: Customer) => c.id != id
  }

  predicate HasCustomer(cs: seq<Customer>, id: int)
  {
    exists i | 0 <= i < |cs| :: cs[i].id == id
  }

  /** `Math.max(...customers.map((c) => c.id), 0) + 1`: above every id in use. */
  function NextCustomerId(cs: seq<Customer>): (id: int)
    ensures id > 0
    ensures forall i | 0 <= i < |cs| :: cs[i].id < id
  {
    var ids := seq(|cs|, i requires 0 <= i < |cs| => cs[i].id);
    assert forall i | 0 <= i < |cs| :: cs[i].id == ids[i];
    MaxOrZero(ids) + 1
  }

  /** handleAddCustomer */
  function Added(cs: seq<Customer>, form: CustomerForm): (r: seq<Customer>)
    ensures !FormAccepted(form) ==> r == cs
    ensures FormAccepted(form) ==>
      && |r| == |cs| + 1
      && r[..|cs|] == cs
      && r[|cs|].id > 0
      && (forall i | 0 <= i < |cs| :: cs[i].id < r[|cs|].id)
      && r[|cs|].name == form.name && r[|cs|].email == form.email && r[|cs|].phone == form.phone
  {
    if !FormAccepted(form) then cs
    else cs + [Customer(NextCustomerId(cs), form.name, form.email, form.phone)]
  }

  /** `{ ...c, name, email, phone }`: the id stays. */
  function Edited(c: Customer, form: CustomerForm): Customer
  {
    c.(name := form.name, email := form.email, phone := form.phone)
  }

  /** `customers.map((c) => c.id === editingId ? { ...edited } : c)` */
  function Rewrite(cs: seq<Customer>, editingId: int, form: CustomerForm): seq<Customer>
  {
    seq(|cs|, i requires 0 <= i < |cs| => if cs[i].id == editingId then Edited(cs[i], form) else cs[i])
  }

  /** handleUpdateCustomer, for the customer being edited */
  function Updated(cs: seq<Customer>, editingId: int, form: CustomerForm): seq<Customer>
  {
    if !FormAccepted(form) then cs else Rewrite(cs, editingId, form)
  }

  /** handleDeleteCustomer: `customers.filter((c) => c.id !== id)` */
  function Without(cs: seq<Customer>, id: int): (r: seq<Customer>)
    ensures forall c | c in r :: c in cs && c.id != id
    ensures forall c | c in cs && c.id != id :: c in r
  {
    Filter(cs, OtherCustomer(id))
  }

  /** Adding keeps the ids distinct. */
  lemma AddKeepsIdsDistinct(cs: seq<Customer>, form: CustomerForm)
    requires DistinctBy(cs, CustomerId)
    ensures DistinctBy(Added(cs, form), CustomerId)
  {
    var r := Added(cs, form);
    if FormAccepted(form) {
      forall i, j | 0 <= i < j < |r| ensures CustomerId(r[i]) != CustomerId(r[j]) {
        if j < |cs| {
          assert r[i] == cs[i] && r[j] == cs[j];
        }
      }
    }
  }

  /** Editing rewrites name, email and phone of the customers with the edited
      id, keeps every id, and leaves the other customers as they were; an
      invalid form or an absent id changes nothing. */
  lemma UpdateCustomerEffect(cs: seq<Customer>, editingId: int, form: CustomerForm)
    ensures var r := Updated(cs, editingId, form);
      && |r| == |cs|
      && (forall i | 0 <= i < |cs| :: r[i].id == cs[i].id)
      && (forall i | 0 <= i < |cs| && cs[i].id != editingId :: r[i] == cs[i])
      && (FormAccepted(form) ==> forall i | 0 <= i < |cs| && cs[i].id == editingId ::
            r[i] == Customer(editingId, form.name, form.email, form.phone))
      && (!FormAccepted(form) || !HasCustomer(cs, editingId) ==> r == cs)
  {
    var r := Updated(cs, editingId, form);
    if FormAccepted(form) && !HasCustomer(cs, editingId) {
      assert r == cs;
    }
  }

  /** Editing keeps the ids distinct. */
  lemma UpdateKeepsIdsDistinct(cs: seq<Customer>, editingId: int, form: CustomerForm)
    requires DistinctBy(cs, CustomerId)
    ensures DistinctBy(Updated(cs, editingId, form), CustomerId)
  {
    var r := Updated(cs, editingId, form);
    UpdateCustomerEffect(cs, editingId, form);
    forall i, j | 0 <= i < j < |r| ensures CustomerId(r[i]) != CustomerId(r[j]) {
      assert CustomerId(cs[i]) != CustomerId(cs[j]);
    }
  }

  /** With distinct ids, deleting the customer at `k` removes exactly that
      entry and keeps the others in order; deleting an absent id changes
      nothing; the ids stay distinct. */
  lemma DeleteCustomerEffect(cs: seq<Customer>, id: int)
    requires DistinctBy(cs, CustomerId)
    ensures DistinctBy(Without(cs, id), CustomerId)
    ensures forall k | 0 <= k < |cs| && cs[k].id == id :: Without(cs, id) == cs[..k] + cs[k + 1..]
    ensures !HasCustomer(cs, id) ==> Without(cs, id) == cs
  {
    FilterDistinct(cs, OtherCustomer(id), CustomerId);
    forall k | 0 <= k < |cs| && cs[k].id == id ensures Without(cs, id) == cs[..k] + cs[k + 1..] {
      forall i | 0 <= i < |cs| && i != k ensures OtherCustomer(id)(cs[i]) {
        if i < k { assert CustomerId(cs[i]) != CustomerId(cs[k]); }
        else { assert CustomerId(cs[k]) != CustomerId(cs[i]); }
      }
      FilterDropsOne(cs, OtherCustomer(id), k);
    }
    if !HasCustomer(cs, id) {
      FilterKeepsAll(cs, OtherCustomer(id));
    }
  }

  // ---------------------------------------------------------------------------
  // The page state
  // ---------------------------------------------------------------------------

  /** The `customers` state of the page; every handler replaces it as the
      functions above say. */
  class CustomersPage {
    var customers: seq<Customer>

    predicate Valid()
      reads this
    {
      DistinctBy(customers, CustomerId)
    }

    constructor ()
      ensures Valid()
      ensures customers == []
    {
      customers := [];
    }

    method AddCustomer(form: CustomerForm)
      requires Valid()
      modifies this
      ensures Valid()
      ensures customers == Added(old(customers), form)
    {
      var errors, valid := ValidateForm(form);
      if !valid {
        return;
      }
      var newCustomer := Customer(NextCustomerId(customers), form.name, form.email, form.phone);
      AddKeepsIdsDistinct(customers, form);
      customers := customers + [newCustomer];
    }

    method UpdateCustomer(editingId: int, form: CustomerForm)
      requires Valid()
      modifies this
      ensures Valid()
      ensures customers == Updated(old(customers), editingId, form)
    {
      var errors, valid := ValidateForm(form);
      if !valid {
        return;
      }
      UpdateKeepsIdsDistinct(customers, editingId, form);
      customers := Rewrite(customers, editingId, form);
    }

    method DeleteCustomer(id: int)
      requires Valid()
      modifies this
      ensures Valid()
      ensures customers == Without(old(customers), id)
    {
      DeleteCustomerEffect(customers, id);
      customers := Filter(customers, OtherCustomer(id));
    }
  }
}

/**
 * The request checks the handlers run before they touch any table: email normalisation,
 * the signup password rule, and the item name / quantity / id rules.
 *
 * A body field reaches these checks already coerced the way the handlers coerce it:
 * strings through `String(...)`, numbers through `Number(...)` followed by `Number.isInteger`,
 * which the model records as a `Num`.
 */
module Validation {
  import opened Wrappers
  import opened Text

  /** Every error answer the handlers give, with its status code and message. */
  datatype Failure =
    | Unauthorized
    | CredentialsMissing
    | PasswordTooShort
    | EmailInUse
    | InvalidCredentials
    | NameRequired
    | NameEmpty
    | QuantityInvalid
    | InvalidId
    | ItemNotFound
  {
    /** 401 for the two authentication failures, 409 for a taken email, 404 for a missing row, 400 for bad input. */
    function Status(): (code: int)
      ensures 400 <= code < 500
      ensures code == 401 <==> Unauthorized? || InvalidCredentials?
      ensures code == 400 <==>
        CredentialsMissing? || PasswordTooShort? || NameRequired? || NameEmpty? || QuantityInvalid? || InvalidId?
      ensures code == 409 <==> EmailInUse?
      ensures code == 404 <==> ItemNotFound?
    {
      if Unauthorized? || InvalidCredentials? then 401
      else if EmailInUse? then 409
      else if ItemNotFound? then 404
      else 400
    }

    function Message(): (m: string)
      ensures m != []
    {
      match this
      case Unauthorized => "Unauthorized"
      case CredentialsMissing => "Email and password required"
      case PasswordTooShort => "Password must be at least 8 characters"
      case EmailInUse => "Email already in use"
      case InvalidCredentials => "Invalid credentials"
      case NameRequired => "Name is required"
      case NameEmpty => "Name cannot be empty"
      case QuantityInvalid => "Quantity must be a non-negative integer"
      case InvalidId => "Invalid id"
      case ItemNotFound => "Item not found"
    }
  }

  /** A number from the request after `Number(...)`: an integer value, or anything `Number.isInteger` rejects. */
  datatype Num = Int(n: int) | NotInt

  const MIN_PASSWORD_LENGTH: nat := 8

  /** No two failures share a message, so a client can tell every error answer apart by its text. */
  lemma MessagesIdentifyFailures(f: Failure, g: Failure)
    ensures f.Message() == g.Message() ==> f == g
  {
  }

  /** A signup request that passed validation. */
  datatype Credentials = Credentials(email: string, password: string)

  /** A create-item request that passed validation. */
  datatype NewItem = NewItem(name: string, quantity: nat)

  /** The columns a PATCH supplies; `None` is a column the request left out. */
  datatype Patch = Patch(name: Option<string>, quantity: Option<nat>)

  datatype PatchRequest = PatchRequest(id: int, patch: Patch)

  /** The stored form of an email: no white space at either end and no capital letter. */
  predicate IsNormalEmail(e: string) {
    Trimmed(e) && forall i :: 0 <= i < |e| ==> !IsUpper(e[i])
  }

  /** An item name as stored: trimmed and not empty. */
  predicate IsItemName(name: string) {
    name != [] && Trimmed(name)
  }

  predicate IsValidPatch(p: Patch) {
    p.name.Some? ==> IsItemName(p.name.value)
  }

  /** `String(email).trim().toLowerCase()`. */
  function NormalizeEmail(raw: string): (email: string)
    ensures IsNormalEmail(email)
    ensures email == [] <==> AllSpace(raw)
  {
    var t := Trim(raw);
    LowerCaseKeepsTrimmed(t);
    LowerCase(t)
  }

  lemma NormalizeEmailFixesNormal(e: string)
    requires IsNormalEmail(e)
    ensures NormalizeEmail(e) == e
  {
    TrimFixesTrimmed(e);
  }

  lemma NormalizeEmailIdempotent(raw: string)
    ensures NormalizeEmail(NormalizeEmail(raw)) == NormalizeEmail(raw)
  {
    NormalizeEmailFixesNormal(NormalizeEmail(raw));
  }

  /** Two spellings of an address that differ in letter case or surrounding white space name one account. */
  lemma NormalizeEmailIgnoresCaseAndPadding(pre: string, raw: string, post: string)
    requires AllSpace(pre) && AllSpace(post)
    ensures NormalizeEmail(pre + LowerCase(raw) + post) == NormalizeEmail(raw)
  {
    TrimIgnoresPadding(pre, LowerCase(raw), post);
    LowerCaseCommutesWithTrim(raw);
    LowerCaseIdempotent(Trim(raw));
  }

  /** The signup checks, in the handler's order: both fields present, then the password length. */
  function CheckSignup(rawEmail: string, rawPassword: string): (r: Result<Credentials, Failure>)
    ensures r.Ok? ==> r.value == Credentials(NormalizeEmail(rawEmail), rawPassword) && r.value.email != []
    ensures r.Err? ==> r.error == CredentialsMissing || r.error == PasswordTooShort
  {
    var email := NormalizeEmail(rawEmail);
    if email == [] || rawPassword == [] then Err(CredentialsMissing)
    else if Utf16Length(rawPassword) < MIN_PASSWORD_LENGTH then Err(PasswordTooShort)
    else Ok(Credentials(email, rawPassword))
  }

  /** Which signups pass: an address that is not all white space and a password of at least 8 UTF-16 code units. */
  lemma CheckSignupAccepts(rawEmail: string, rawPassword: string)
    ensures CheckSignup(rawEmail, rawPassword).Ok? <==>
      !AllSpace(rawEmail) && Utf16Length(rawPassword) >= MIN_PASSWORD_LENGTH
  {
  }

  /** A blank field is reported before a short password; both answer 400. */
  lemma CheckSignupRejects(rawEmail: string, rawPassword: string)
    ensures CheckSignup(rawEmail, rawPassword).Err? ==>
      && (CheckSignup(rawEmail, rawPassword).error == CredentialsMissing <==> AllSpace(rawEmail) || rawPassword == [])
      && CheckSignup(rawEmail, rawPassword).error.Status() == 400
  {
  }

  /** The create-item checks: the trimmed name, then the quantity, which defaults to 0. */
  function CheckNewItem(rawName: string, quantity: Option<Num>): (r: Result<NewItem, Failure>)
    ensures r.Ok? ==> IsItemName(r.value.name) && r.value.name == Trim(rawName)
    ensures r.Ok? && quantity.None? ==> r.value.quantity == 0
    ensures r.Ok? && quantity.Some? ==> quantity.value.Int? && r.value.quantity == quantity.value.n
    ensures r.Err? ==> r.error == NameRequired || r.error == QuantityInvalid
  {
    var name := Trim(rawName);
    var q := if quantity.None? then Int(0) else quantity.value;
    if name == [] then Err(NameRequired)
    else if q.NotInt? || q.n < 0 then Err(QuantityInvalid)
    else Ok(NewItem(name, q.n))
  }

  /** Which create requests pass: a name that is not all white space, and a quantity that is absent or a non-negative integer. */
  lemma CheckNewItemAccepts(rawName: string, quantity: Option<Num>)
    ensures CheckNewItem(rawName, quantity).Ok? <==>
      !AllSpace(rawName) && (quantity.None? || (quantity.value.Int? && quantity.value.n >= 0))
  {
  }

  /** A missing name is reported before a bad quantity; both answer 400. */
  lemma CheckNewItemRejects(rawName: string, quantity: Option<Num>)
    ensures CheckNewItem(rawName, quantity).Err? ==>
      && (CheckNewItem(rawName, quantity).error == NameRequired <==> AllSpace(rawName))
      && CheckNewItem(rawName, quantity).error.Status() == 400
  {
    if Trim(rawName) == [] {
      assert CheckNewItem(rawName, quantity) == Err(NameRequired);
    } else {
      assert !AllSpace(rawName);
    }
  }

  /** The path id check: `Number(req.params.id)` must be an integer. */
  function CheckItemId(id: Num): (r: Result<int, Failure>)
    ensures r.Ok? <==> id.Int?
    ensures r.Ok? ==> r.value == id.n
    ensures r.Err? ==> r.error == InvalidId
  {
    match id
    case Int(n) => Ok(n)
    case NotInt => Err(InvalidId)
  }

  /** The PATCH checks, in the handler's order: the id, then each supplied field. */
  function CheckPatch(id: Num, name: Option<string>, quantity: Option<Num>): (r: Result<PatchRequest, Failure>)
    ensures r.Ok? ==> id.Int? && r.value.id == id.n && IsValidPatch(r.value.patch)
    ensures r.Ok? ==> r.value.patch.name == (if name.None? then None else Some(Trim(name.value)))
    ensures r.Ok? && quantity.None? ==> r.value.patch.quantity == None
    ensures r.Ok? && quantity.Some? ==> quantity.value.Int? && r.value.patch.quantity == Some(quantity.value.n)
    ensures r.Err? ==> r.error == InvalidId || r.error == NameEmpty || r.error == QuantityInvalid
  {
    match CheckItemId(id)
    case Err(f) => Err(f)
    case Ok(n) =>
      var trimmed := if name.None? then None else Some(Trim(name.value));
      if trimmed.Some? && trimmed.value == [] then Err(NameEmpty)
      else if quantity.Some? && (quantity.value.NotInt? || quantity.value.n < 0) then Err(QuantityInvalid)
      else
        var q: Option<nat> := if quantity.None? then None else Some(quantity.value.n);
        Ok(PatchRequest(n, Patch(trimmed, q)))
  }

  /**
   * Which PATCH requests pass: an integer id, and each field either left out or valid; an
   * absent field is never an error.
   */
  lemma CheckPatchAccepts(id: Num, name: Option<string>, quantity: Option<Num>)
    ensures CheckPatch(id, name, quantity).Ok? <==>
      && id.Int?
      && (name.Some? ==> !AllSpace(name.value))
      && (quantity.Some? ==> quantity.value.Int? && quantity.value.n >= 0)
  {
  }

  /**
   * A bad id is reported before anything else, a blank name before a bad quantity;
   * every rejection answers 400.
   */
  lemma CheckPatchRejects(id: Num, name: Option<string>, quantity: Option<Num>)
    ensures CheckPatch(id, name, quantity).Err? ==>
      && (CheckPatch(id, name, quantity).error == InvalidId <==> id.NotInt?)
      && (CheckPatch(id, name, quantity).error == NameEmpty <==> id.Int? && name.Some? && AllSpace(name.value))
      && CheckPatch(id, name, quantity).error.Status() == 400
  {
  }
}

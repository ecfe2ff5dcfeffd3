/**
 * What each route handler does, as a function from the state a request arrives in (the two
 * tables, their id sequences and the request's session) to the response and the state it
 * leaves behind; then what the handlers promise, as lemmas about those functions.
 */
module Routes {
  import opened Wrappers
  import opened Text
  import opened Validation
  import opened Tables

  /** The JSON bodies the routes answer with. */
  datatype Body =
    | UserJson(id: int, email: string)   // { user: { id, email } }
    | NoUser                             // { user: null }
    | ItemJson(item: Item)               // { item }
    | ItemsJson(rows: seq<Item>)         // { items }
    | OkJson                             // { ok: true }
    | ErrorJson(error: string)           // { error }

  datatype Response = Response(status: int, body: Body)

  function Fail(f: Failure): Response {
    Response(f.Status(), ErrorJson(f.Message()))
  }

  /** The user `requireAuth` lets through: the session's user id when it is set and truthy (not 0). */
  function SessionUser(session: Option<int>): (r: Option<int>)
    ensures r.Some? <==> session.Some? && session.value != 0
    ensures r.Some? ==> r == session
  {
    if session.Some? && session.value != 0 then session else None
  }

  /**
   * The tables, the next values of their id sequences, and `req.session.userId` (`None` when
   * no session is established).
   */
  datatype State = State(
    users: seq<User>,
    items: seq<Item>,
    session: Option<int>,
    nextUserId: int,
    nextItemId: int)

  /** Empty tables, sequences starting at 1, no session. */
  const Initial: State := State([], [], None, 1, 1)

  /**
   * The table constraints and what the handlers maintain on top of them: unique ids drawn from
   * the sequences, unique normalised emails, valid item rows owned by existing users, and a
   * session that names an existing user.
   */
  predicate Invariant(st: State) {
    && UsersValid(st.users, st.nextUserId)
    && ItemsValid(st.items, st.users, st.nextItemId)
    && (st.session.Some? ==> HasUser(st.users, st.session.value))
  }

  /** A route's response and the state it leaves behind. */
  datatype Outcome = Outcome(resp: Response, next: State)

  // ---------------------------------------------------------------- POST /auth/signup

  /**
   * Validate, then insert the normalised email with the password's digest; the unique
   * constraint on `email` turns a second signup into 409. A new row also opens the session.
   */
  function SignupRoute(st: State, rawEmail: string, rawPassword: string, salt: nat, now: int): (r: Outcome)
    ensures r.next.items == st.items && r.next.nextItemId == st.nextItemId
    ensures r.resp.status == 201 || r.next == st
  {
    match CheckSignup(rawEmail, rawPassword)
    case Err(f) => Outcome(Fail(f), st)
    case Ok(c) =>
      if UserByEmail(st.users, c.email).Some? then Outcome(Fail(EmailInUse), st)
      else
        var u := User(st.nextUserId, c.email, Hash(c.password, salt), now);
        Outcome(
          Response(201, UserJson(u.id, u.email)),
          st.(users := st.users + [u], nextUserId := st.nextUserId + 1, session := Some(u.id)))
  }

  lemma SignupKeepsInvariant(st: State, rawEmail: string, rawPassword: string, salt: nat, now: int)
    requires Invariant(st)
    ensures Invariant(SignupRoute(st, rawEmail, rawPassword, salt, now).next)
  {
    var check := CheckSignup(rawEmail, rawPassword);
    if check.Ok? && UserByEmail(st.users, check.value.email).None? {
      var u := User(st.nextUserId, check.value.email, Hash(check.value.password, salt), now);
      InsertUserKeepsUsersValid(st.users, st.nextUserId, u);
      MoreUsersKeepItemsValid(st.items, st.users, st.nextItemId, u);
      assert u in st.users + [u];
    }
  }

  /**
   * A signup succeeds exactly when the request is valid and no account has the normalised
   * address.
   */
  lemma SignupSucceedsExactly(st: State, rawEmail: string, rawPassword: string, salt: nat, now: int)
    ensures SignupRoute(st, rawEmail, rawPassword, salt, now).resp.status == 201 <==>
      && !AllSpace(rawEmail) && Utf16Length(rawPassword) >= MIN_PASSWORD_LENGTH
      && forall u :: u in st.users ==> u.email != NormalizeEmail(rawEmail)
  {
    CheckSignupAccepts(rawEmail, rawPassword);
    CheckSignupRejects(rawEmail, rawPassword);
  }

  /** A successful signup stores a fresh id, the normalised address and a digest of the password, and logs in. */
  lemma SignupCreatesAccount(st: State, rawEmail: string, rawPassword: string, salt: nat, now: int)
    requires Invariant(st)
    requires SignupRoute(st, rawEmail, rawPassword, salt, now).resp.status == 201
    ensures var r := SignupRoute(st, rawEmail, rawPassword, salt, now);
      && !HasUser(st.users, st.nextUserId)
      && r.next.users == st.users + [User(st.nextUserId, NormalizeEmail(rawEmail), Hash(rawPassword, salt), now)]
      && r.next.session == Some(st.nextUserId)
      && r.resp.body == UserJson(st.nextUserId, NormalizeEmail(rawEmail))
  {
    CheckSignupRejects(rawEmail, rawPassword);
  }

  /** An address that is already registered, in any letter case or padding, answers 409 and changes nothing. */
  lemma SignupRejectsTakenEmail(st: State, rawEmail: string, rawPassword: string, salt: nat, now: int, owner: User)
    requires owner in st.users && owner.email == NormalizeEmail(rawEmail)
    requires CheckSignup(rawEmail, rawPassword).Ok?
    ensures SignupRoute(st, rawEmail, rawPassword, salt, now) == Outcome(Fail(EmailInUse), st)
  {
  }

  /** An invalid signup answers 400 with its message, before any lookup or insert, and changes nothing. */
  lemma SignupRejectsInvalidInput(st: State, rawEmail: string, rawPassword: string, salt: nat, now: int)
    requires CheckSignup(rawEmail, rawPassword).Err?
    ensures var f := CheckSignup(rawEmail, rawPassword).error;
      SignupRoute(st, rawEmail, rawPassword, salt, now) == Outcome(Fail(f), st) && Fail(f).status == 400
  {
    CheckSignupRejects(rawEmail, rawPassword);
  }

  // ---------------------------------------------------------------- POST /auth/login

  /** Look the normalised address up, compare the password with its digest, and open the session. */
  function LoginRoute(st: State, rawEmail: string, rawPassword: string): (r: Outcome)
    ensures r.next == st.(session := r.next.session)
    ensures r.resp.status == 200 || r == Outcome(Fail(InvalidCredentials), st)
  {
    match UserByEmail(st.users, NormalizeEmail(rawEmail))
    case None => Outcome(Fail(InvalidCredentials), st)
    case Some(u) =>
      if !Verify(rawPassword, u.passwordHash) then Outcome(Fail(InvalidCredentials), st)
      else Outcome(Response(200, UserJson(u.id, u.email)), st.(session := Some(u.id)))
  }

  lemma LoginKeepsInvariant(st: State, rawEmail: string, rawPassword: string)
    requires Invariant(st)
    ensures Invariant(LoginRoute(st, rawEmail, rawPassword).next)
  {
  }

  /**
   * A login succeeds exactly for the password of the account with the normalised address, and
   * then opens a session for that account; an unknown address and a wrong password get the same
   * 401.
   */
  lemma LoginSucceedsForTheAccount(st: State, rawEmail: string, rawPassword: string, u: User)
    requires Invariant(st)
    requires u in st.users && u.email == NormalizeEmail(rawEmail)
    ensures var r := LoginRoute(st, rawEmail, rawPassword);
      && (Verify(rawPassword, u.passwordHash) ==>
            r.resp == Response(200, UserJson(u.id, u.email)) && r.next.session == Some(u.id))
      && (!Verify(rawPassword, u.passwordHash) ==> r == Outcome(Fail(InvalidCredentials), st))
  {
    UserByEmailFindsTheRow(st.users, u);
  }

  lemma LoginFailsForUnknownEmail(st: State, rawEmail: string, rawPassword: string)
    requires forall u :: u in st.users ==> u.email != NormalizeEmail(rawEmail)
    ensures LoginRoute(st, rawEmail, rawPassword) == Outcome(Fail(InvalidCredentials), st)
  {
  }

  /** What signup stores lets the same password in again, under any spelling of the address. */
  lemma SignupThenLogin(st: State, rawEmail: string, rawPassword: string, salt: nat, now: int, again: string)
    requires Invariant(st)
    requires SignupRoute(st, rawEmail, rawPassword, salt, now).resp.status == 201
    requires NormalizeEmail(again) == NormalizeEmail(rawEmail)
    ensures LoginRoute(SignupRoute(st, rawEmail, rawPassword, salt, now).next, again, rawPassword).resp
      == Response(200, UserJson(st.nextUserId, NormalizeEmail(rawEmail)))
  {
    var next := SignupRoute(st, rawEmail, rawPassword, salt, now).next;
    SignupCreatesAccount(st, rawEmail, rawPassword, salt, now);
    SignupKeepsInvariant(st, rawEmail, rawPassword, salt, now);
    var u := User(st.nextUserId, NormalizeEmail(rawEmail), Hash(rawPassword, salt), now);
    assert u in next.users;
    LoginSucceedsForTheAccount(next, again, rawPassword, u);
  }

  // ---------------------------------------------------------------- GET /me

  /** The session's user, or `{ user: null }` without a session or for a session whose user is gone. */
  function MeRoute(st: State): (r: Response)
    ensures r.status == 200
    ensures r.body.UserJson? || r.body == NoUser
    ensures r.body.UserJson? <==> SessionUser(st.session).Some? && HasUser(st.users, st.session.value)
    ensures r.body.UserJson? ==>
      && st.session == Some(r.body.id)
      && exists u :: u in st.users && u.id == r.body.id && u.email == r.body.email
  {
    match SessionUser(st.session)
    case None => Response(200, NoUser)
    case Some(uid) =>
      match UserById(st.users, uid)
      case None => Response(200, NoUser)
      case Some(u) => Response(200, UserJson(u.id, u.email))
  }

  // ---------------------------------------------------------------- POST /auth/logout

  /** Destroys the session: afterwards `/me` has no user and `/items` answers 401; no table changes. */
  function LogoutRoute(st: State): (r: Outcome)
    ensures r.resp == Response(200, OkJson)
    ensures r.next == st.(session := None)
    ensures MeRoute(r.next) == Response(200, NoUser)
    ensures ListRoute(r.next) == Fail(Unauthorized)
  {
    Outcome(Response(200, OkJson), st.(session := None))
  }

  lemma LogoutKeepsInvariant(st: State)
    requires Invariant(st)
    ensures Invariant(LogoutRoute(st).next)
  {
  }

  // ---------------------------------------------------------------- GET /items

  /** The session user's rows, most recent first. */
  function ListRoute(st: State): (r: Response)
    ensures SessionUser(st.session).None? ==> r == Fail(Unauthorized)
    ensures SessionUser(st.session).Some? ==>
      && r.status == 200 && r.body.ItemsJson?
      && NewestFirst(r.body.rows)
      && multiset(r.body.rows) == multiset(Owned(st.items, st.session.value))
      && (forall it :: it in r.body.rows <==> it in st.items && it.userId == st.session.value)
  {
    match SessionUser(st.session)
    case None => Fail(Unauthorized)
    case Some(uid) =>
      var rows := SortNewestFirst(Owned(st.items, uid));
      assert forall it :: it in rows <==> it in multiset(rows);
      Response(200, ItemsJson(rows))
  }

  /** A user who owns no rows gets an empty list, not an error. */
  lemma ListOfNothingOwnedIsEmpty(st: State)
    requires SessionUser(st.session).Some?
    requires forall it :: it in st.items ==> it.userId != st.session.value
    ensures ListRoute(st) == Response(200, ItemsJson([]))
  {
    assert multiset(Owned(st.items, st.session.value)) == multiset{};
  }

  // ---------------------------------------------------------------- POST /items

  /** Validate, then insert a row owned by the session user with the next id. */
  function CreateRoute(st: State, rawName: string, quantity: Option<Num>, now: int): (r: Outcome)
    ensures r.next == st.(items := r.next.items, nextItemId := r.next.nextItemId)
    ensures r.resp.status == 201 || r.next == st
  {
    match SessionUser(st.session)
    case None => Outcome(Fail(Unauthorized), st)
    case Some(uid) =>
      match CheckNewItem(rawName, quantity)
      case Err(f) => Outcome(Fail(f), st)
      case Ok(n) =>
        var it := Item(st.nextItemId, uid, n.name, None, None, n.quantity, None, now, now);
        Outcome(Response(201, ItemJson(it)), st.(items := st.items + [it], nextItemId := st.nextItemId + 1))
  }

  lemma CreateKeepsInvariant(st: State, rawName: string, quantity: Option<Num>, now: int)
    requires Invariant(st)
    ensures Invariant(CreateRoute(st, rawName, quantity, now).next)
  {
    var uid := SessionUser(st.session);
    var check := CheckNewItem(rawName, quantity);
    if uid.Some? && check.Ok? {
      var it := Item(st.nextItemId, uid.value, check.value.name, None, None, check.value.quantity, None, now, now);
      assert CreateRoute(st, rawName, quantity, now).next
        == st.(items := st.items + [it], nextItemId := st.nextItemId + 1);
      AddItemKeepsInvariant(st, it);
    }
  }

  /** Appending a valid row with the next id and an existing owner keeps the invariant. */
  lemma AddItemKeepsInvariant(st: State, it: Item)
    requires Invariant(st)
    requires it.id == st.nextItemId && IsValidItem(it) && HasUser(st.users, it.userId)
    ensures Invariant(st.(items := st.items + [it], nextItemId := st.nextItemId + 1))
  {
    InsertItemKeepsItemsValid(st.items, st.users, st.nextItemId, it);
  }

  /**
   * A create succeeds exactly for a logged-in user and a valid request; the new row has a fresh
   * id, belongs to the session user, carries the trimmed name, and is the only row added.
   */
  lemma CreateAddsOwnedRow(st: State, rawName: string, quantity: Option<Num>, now: int)
    requires Invariant(st)
    ensures var r := CreateRoute(st, rawName, quantity, now);
      && (r.resp.status == 201 <==> SessionUser(st.session).Some? && CheckNewItem(rawName, quantity).Ok?)
      && (r.resp.status == 201 ==>
          && r.resp.body.ItemJson?
          && r.next.items == st.items + [r.resp.body.item]
          && r.resp.body.item.userId == st.session.value
          && r.resp.body.item.id == st.nextItemId
          && r.resp.body.item.name == Trim(rawName)
          && r.resp.body.item.quantity == CheckNewItem(rawName, quantity).value.quantity
          && r.resp.body.item.category == None && r.resp.body.item.status == None && r.resp.body.item.notes == None
          && r.resp.body.item.createdAt == r.resp.body.item.updatedAt == now
          && forall it :: it in st.items ==> it.id != r.resp.body.item.id)
  {
  }

  /** An invalid create from a logged-in user answers 400 with its message and changes nothing. */
  lemma CreateRejectsInvalidInput(st: State, rawName: string, quantity: Option<Num>, now: int)
    requires SessionUser(st.session).Some? && CheckNewItem(rawName, quantity).Err?
    ensures var f := CheckNewItem(rawName, quantity).error;
      CreateRoute(st, rawName, quantity, now) == Outcome(Fail(f), st) && Fail(f).status == 400
  {
    CheckNewItemRejects(rawName, quantity);
  }

  // ---------------------------------------------------------------- PATCH /items/:id

  /**
   * Validate, then update the columns the request supplies in the row with this id that the
   * session user owns, stamping `updated_at`; the row the UPDATE returns is the answer, and
   * no row means 404.
   */
  function PatchRoute(st: State, id: Num, name: Option<string>, quantity: Option<Num>, now: int): (r: Outcome)
    ensures r.next == st.(items := r.next.items)
    ensures |r.next.items| == |st.items|
  {
    match SessionUser(st.session)
    case None => Outcome(Fail(Unauthorized), st)
    case Some(uid) =>
      match CheckPatch(id, name, quantity)
      case Err(f) => Outcome(Fail(f), st)
      case Ok(req) =>
        var items := UpdateOwned(st.items, req.id, uid, req.patch, now);
        match FindOwned(st.items, req.id, uid)
        case None => Outcome(Fail(ItemNotFound), st.(items := items))
        case Some(hit) => Outcome(Response(200, ItemJson(ApplyPatch(hit, req.patch, now))), st.(items := items))
  }

  lemma PatchKeepsInvariant(st: State, id: Num, name: Option<string>, quantity: Option<Num>, now: int)
    requires Invariant(st)
    ensures Invariant(PatchRoute(st, id, name, quantity, now).next)
  {
    var uid := SessionUser(st.session);
    var check := CheckPatch(id, name, quantity);
    if uid.Some? && check.Ok? {
      UpdateOwnedKeepsItemsValid(st.items, st.users, st.nextItemId, check.value.id, uid.value, check.value.patch, now);
    }
  }

  /** No row of another user, and no row with another id, is changed by a PATCH. */
  lemma PatchTouchesOnlyTheOwnedRow(st: State, id: Num, name: Option<string>, quantity: Option<Num>, now: int)
    ensures var r := PatchRoute(st, id, name, quantity, now);
      forall i ::
        (&& 0 <= i < |st.items|
         && (SessionUser(st.session).None? || id.NotInt? || !Matches(st.items[i], id.n, st.session.value)))
        ==> r.next.items[i] == st.items[i]
  {
  }

  /** A PATCH that finds no row it may change answers 404 and leaves the table as it was. */
  lemma PatchMissChangesNothing(st: State, id: Num, name: Option<string>, quantity: Option<Num>, now: int)
    requires SessionUser(st.session).Some? && CheckPatch(id, name, quantity).Ok?
    requires FindOwned(st.items, id.n, st.session.value).None?
    ensures PatchRoute(st, id, name, quantity, now) == Outcome(Fail(ItemNotFound), st)
  {
    var req := CheckPatch(id, name, quantity).value;
    UpdateOwnedMissChangesNothing(st.items, req.id, st.session.value, req.patch, now);
  }

  /**
   * A PATCH that finds the row answers 200 with the row as now stored: supplied columns
   * replaced, the others kept, `updated_at` stamped.
   */
  lemma PatchHitReturnsStoredRow(st: State, id: Num, name: Option<string>, quantity: Option<Num>, now: int)
    requires Invariant(st)
    requires SessionUser(st.session).Some? && CheckPatch(id, name, quantity).Ok?
    requires FindOwned(st.items, id.n, st.session.value).Some?
    ensures var r := PatchRoute(st, id, name, quantity, now);
      && r.resp.status == 200 && r.resp.body.ItemJson?
      && FindOwned(r.next.items, id.n, st.session.value) == Some(r.resp.body.item)
      && r.resp.body.item == ApplyPatch(FindOwned(st.items, id.n, st.session.value).value,
                                        CheckPatch(id, name, quantity).value.patch, now)
  {
    var req := CheckPatch(id, name, quantity).value;
    UpdateOwnedReturnsPatchedRow(st.items, req.id, st.session.value, req.patch, now);
  }

  /** An invalid PATCH from a logged-in user answers 400 with its message and changes nothing. */
  lemma PatchRejectsInvalidInput(st: State, id: Num, name: Option<string>, quantity: Option<Num>, now: int)
    requires SessionUser(st.session).Some? && CheckPatch(id, name, quantity).Err?
    ensures var f := CheckPatch(id, name, quantity).error;
      PatchRoute(st, id, name, quantity, now) == Outcome(Fail(f), st) && Fail(f).status == 400
  {
    CheckPatchRejects(id, name, quantity);
  }

  // ---------------------------------------------------------------- DELETE /items/:id

  /** Delete the row with this id that the session user owns; no row means 404. */
  function DeleteRoute(st: State, id: Num): (r: Outcome)
    ensures r.next == st.(items := r.next.items)
  {
    match SessionUser(st.session)
    case None => Outcome(Fail(Unauthorized), st)
    case Some(uid) =>
      match CheckItemId(id)
      case Err(f) => Outcome(Fail(f), st)
      case Ok(n) =>
        var items := DeleteOwned(st.items, n, uid);
        if FindOwned(st.items, n, uid).None? then Outcome(Fail(ItemNotFound), st.(items := items))
        else Outcome(Response(200, OkJson), st.(items := items))
  }

  lemma DeleteKeepsInvariant(st: State, id: Num)
    requires Invariant(st)
    ensures Invariant(DeleteRoute(st, id).next)
  {
    var uid := SessionUser(st.session);
    if uid.Some? && id.Int? {
      DeleteOwnedKeepsItemsValid(st.items, st.users, st.nextItemId, id.n, uid.value);
    }
  }

  /** A DELETE removes no row of another user and no row with another id, and adds none. */
  lemma DeleteKeepsOtherRows(st: State, id: Num)
    ensures var r := DeleteRoute(st, id);
      && (forall it :: it in r.next.items ==> it in st.items)
      && forall it ::
           (&& it in st.items
            && (SessionUser(st.session).None? || id.NotInt? || !Matches(it, id.n, st.session.value)))
           ==> it in r.next.items
  {
  }

  /** A DELETE answers 200 exactly when it finds the row, and then removes exactly that one row; otherwise nothing changes. */
  lemma DeleteRemovesTheOwnedRow(st: State, id: Num)
    requires Invariant(st)
    requires SessionUser(st.session).Some? && id.Int?
    ensures var r := DeleteRoute(st, id);
      && (FindOwned(st.items, id.n, st.session.value).None? ==> r == Outcome(Fail(ItemNotFound), st))
      && (FindOwned(st.items, id.n, st.session.value).Some? ==>
            && r.resp == Response(200, OkJson)
            && |r.next.items| == |st.items| - 1
            && FindOwned(r.next.items, id.n, st.session.value).None?)
  {
    var uid := st.session.value;
    if FindOwned(st.items, id.n, uid).None? {
      DeleteOwnedMissChangesNothing(st.items, id.n, uid);
    } else {
      DeleteOwnedRemovesOne(st.items, id.n, uid);
    }
  }

  /** A DELETE whose id is not an integer answers 400 and changes nothing. */
  lemma DeleteRejectsInvalidId(st: State, id: Num)
    requires SessionUser(st.session).Some? && id.NotInt?
    ensures DeleteRoute(st, id) == Outcome(Response(400, ErrorJson("Invalid id")), st)
  {
  }

  // ---------------------------------------------------------------- guards shared by the routes

  /** Without a (truthy) session user every item route answers 401 and changes nothing. */
  lemma ItemRoutesNeedSession(st: State, rawName: string, id: Num, name: Option<string>, quantity: Option<Num>, now: int)
    requires SessionUser(st.session).None?
    ensures ListRoute(st) == Fail(Unauthorized)
    ensures CreateRoute(st, rawName, quantity, now) == Outcome(Fail(Unauthorized), st)
    ensures PatchRoute(st, id, name, quantity, now) == Outcome(Fail(Unauthorized), st)
    ensures DeleteRoute(st, id) == Outcome(Fail(Unauthorized), st)
  {
  }
}

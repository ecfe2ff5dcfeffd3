/**
 * Request sequences against a fresh server, proved from the route contracts and the lemmas
 * about the routes: what a client of the API can rely on across several requests.
 */
module Scenarios {
  import opened Wrappers
  import opened Text
  import opened Validation
  import opened Tables
  import opened Routes
  import opened Api

  /** A fresh server after one successful signup: one user with id 1, logged in. */
  method SignedUp(email: string, password: string, salt: nat, t: int) returns (s: Server, resp: Response)
    requires !AllSpace(email) && Utf16Length(password) >= MIN_PASSWORD_LENGTH
    ensures fresh(s) && s.Valid()
    ensures s.Snapshot() == State([User(1, NormalizeEmail(email), Hash(password, salt), t)], [], Some(1), 2, 1)
    ensures resp == Response(201, UserJson(1, NormalizeEmail(email)))
  {
    s := new Server();
    SignupSucceedsExactly(s.Snapshot(), email, password, salt, t);
    SignupCreatesAccount(s.Snapshot(), email, password, salt, t);
    resp := s.Signup(email, password, salt, t);
  }

  /** A signed-up user who has created one item with the given quantity. */
  method WithOneItem(email: string, password: string, name: string, quantity: nat, salt: nat, t0: int, t1: int)
    returns (s: Server, created: Response)
    requires !AllSpace(email) && Utf16Length(password) >= MIN_PASSWORD_LENGTH
    requires !AllSpace(name)
    ensures fresh(s) && s.Valid()
    ensures s.Snapshot() == State(
      [User(1, NormalizeEmail(email), Hash(password, salt), t0)],
      [Item(1, 1, Trim(name), None, None, quantity, None, t1, t1)],
      Some(1), 2, 2)
    ensures created == Response(201, ItemJson(Item(1, 1, Trim(name), None, None, quantity, None, t1, t1)))
  {
    var signedUp;
    s, signedUp := SignedUp(email, password, salt, t0);
    CheckNewItemAccepts(name, Some(Int(quantity)));
    CreateAddsOwnedRow(s.Snapshot(), name, Some(Int(quantity)), t1);
    created := s.CreateItem(name, Some(Int(quantity)), t1);
  }

  /** A second signup with the same address, in another letter case and with padding, is a conflict. */
  method DuplicateSignupConflicts(
    email: string, pre: string, post: string, password1: string, password2: string,
    salt1: nat, salt2: nat, t1: int, t2: int)
    returns (first: Response, second: Response)
    requires !AllSpace(email) && AllSpace(pre) && AllSpace(post)
    requires Utf16Length(password1) >= MIN_PASSWORD_LENGTH && Utf16Length(password2) >= MIN_PASSWORD_LENGTH
    ensures first == Response(201, UserJson(1, NormalizeEmail(email)))
    ensures second == Fail(EmailInUse)
  {
    var s;
    s, first := SignedUp(email, password1, salt1, t1);
    var again := pre + LowerCase(email) + post;
    NormalizeEmailIgnoresCaseAndPadding(pre, email, post);
    CheckSignupAccepts(again, password2);
    assert s.users[0] in s.users;
    SignupRejectsTakenEmail(s.Snapshot(), again, password2, salt2, t2, s.users[0]);
    second := s.Signup(again, password2, salt2, t2);
  }

  /** Logins against a table holding one account: its password gets in, anything else gets the one 401. */
  lemma LoginToOnlyAccount(st: State, u: User, email: string, password: string, salt: nat, wrong: string, stranger: string)
    requires st.users == [u] && u.email == NormalizeEmail(email) && u.passwordHash == Hash(password, salt)
    requires wrong != password && NormalizeEmail(stranger) != u.email
    ensures LoginRoute(st, email, wrong) == Outcome(Fail(InvalidCredentials), st)
    ensures LoginRoute(st, stranger, password) == Outcome(Fail(InvalidCredentials), st)
    ensures LoginRoute(st, email, password) == Outcome(Response(200, UserJson(u.id, u.email)), st.(session := Some(u.id)))
  {
    assert st.users[1..] == [];
    assert Verify(password, u.passwordHash) && !Verify(wrong, u.passwordHash);
    assert UserByEmail(st.users, NormalizeEmail(email)) == Some(u);
    assert UserByEmail(st.users, NormalizeEmail(stranger)) == None;
  }

  /**
   * After signup and logout, the stored password logs in again; a wrong password and an
   * unknown address get one and the same answer.
   */
  method LoginAfterSignup(email: string, password: string, wrong: string, stranger: string, salt: nat, t: int)
    returns (ok: Response, badPassword: Response, unknown: Response)
    requires !AllSpace(email) && Utf16Length(password) >= MIN_PASSWORD_LENGTH
    requires wrong != password
    requires NormalizeEmail(stranger) != NormalizeEmail(email)
    ensures ok == Response(200, UserJson(1, NormalizeEmail(email)))
    ensures badPassword == Fail(InvalidCredentials)
    ensures unknown == badPassword
  {
    var s, created := SignedUp(email, password, salt, t);
    var out := s.Logout();
    var u := User(1, NormalizeEmail(email), Hash(password, salt), t);
    LoginToOnlyAccount(s.Snapshot(), u, email, password, salt, wrong, stranger);
    badPassword := s.Login(email, wrong);
    unknown := s.Login(stranger, password);
    ok := s.Login(email, password);
  }

  /** Logging out ends access: `/me` answers `{ user: null }` and `/items` answers 401. */
  method LogoutEndsSession(email: string, password: string, salt: nat, t: int)
    returns (meBefore: Response, meAfter: Response, itemsAfter: Response)
    requires !AllSpace(email) && Utf16Length(password) >= MIN_PASSWORD_LENGTH
    ensures meBefore == Response(200, UserJson(1, NormalizeEmail(email)))
    ensures meAfter == Response(200, NoUser)
    ensures itemsAfter == Fail(Unauthorized)
  {
    var s, created := SignedUp(email, password, salt, t);
    assert s.users == [User(1, NormalizeEmail(email), Hash(password, salt), t)];
    meBefore := s.Me();
    var out := s.Logout();
    meAfter := s.Me();
    itemsAfter := s.ListItems();
  }

  /** Changing only the quantity of a user's only row: 200 with the patched row, which replaces it. */
  lemma PatchQuantityOfOnlyRow(st: State, row: Item, q: nat, now: int)
    requires st.items == [row] && st.session == Some(row.userId) && row.userId != 0
    ensures PatchRoute(st, Int(row.id), None, Some(Int(q)), now)
         == Outcome(Response(200, ItemJson(row.(quantity := q, updatedAt := now))),
                    st.(items := [row.(quantity := q, updatedAt := now)]))
  {
    assert CheckPatch(Int(row.id), None, Some(Int(q))) == Ok(PatchRequest(row.id, Patch(None, Some(q))));
    assert FindOwned(st.items, row.id, row.userId) == Some(row);
    assert UpdateOwned(st.items, row.id, row.userId, Patch(None, Some(q)), now)
        == [row.(quantity := q, updatedAt := now)];
  }

  /** A signed-up user's item created with quantity 3 and then patched to quantity 5. */
  method CreatedThenPatched(email: string, password: string, name: string, salt: nat, t0: int, t1: int, t2: int)
    returns (s: Server, created: Response, patched: Response)
    requires !AllSpace(email) && Utf16Length(password) >= MIN_PASSWORD_LENGTH
    requires !AllSpace(name)
    ensures fresh(s) && s.Valid()
    ensures s.session == Some(1)
    ensures s.items == [Item(1, 1, Trim(name), None, None, 5, None, t1, t2)]
    ensures created == Response(201, ItemJson(Item(1, 1, Trim(name), None, None, 3, None, t1, t1)))
    ensures patched == Response(200, ItemJson(Item(1, 1, Trim(name), None, None, 5, None, t1, t2)))
  {
    s, created := WithOneItem(email, password, name, 3, salt, t0, t1);
    var row := Item(1, 1, Trim(name), None, None, 3, None, t1, t1);
    PatchQuantityOfOnlyRow(s.Snapshot(), row, 5, t2);
    patched := s.PatchItem(Int(1), None, Some(Int(5)), t2);
  }

  /**
   * Create with quantity 3, patch the quantity to 5, delete, list: the name survives the patch
   * and the row is gone at the end.
   */
  method ItemLifecycle(email: string, password: string, name: string, salt: nat, t0: int, t1: int, t2: int)
    returns (created: Response, patched: Response, deleted: Response, listed: Response)
    requires !AllSpace(email) && Utf16Length(password) >= MIN_PASSWORD_LENGTH
    requires !AllSpace(name)
    ensures created == Response(201, ItemJson(Item(1, 1, Trim(name), None, None, 3, None, t1, t1)))
    ensures patched == Response(200, ItemJson(Item(1, 1, Trim(name), None, None, 5, None, t1, t2)))
    ensures deleted == Response(200, OkJson)
    ensures listed == Response(200, ItemsJson([]))
  {
    var s;
    s, created, patched := CreatedThenPatched(email, password, name, salt, t0, t1, t2);
    var row := Item(1, 1, Trim(name), None, None, 5, None, t1, t2);
    assert FindOwned(s.items, 1, 1) == Some(row);
    DeleteRemovesTheOwnedRow(s.Snapshot(), Int(1));
    DeleteKeepsOtherRows(s.Snapshot(), Int(1));
    deleted := s.DeleteItem(Int(1));
    assert s.items == [] by {
      assert forall it :: it in s.items ==> it == row && !Matches(it, 1, 1);
    }
    ListOfNothingOwnedIsEmpty(s.Snapshot());
    listed := s.ListItems();
  }

  /** The owner's one item, and a second user signed up and logged in. */
  method IntruderLoggedIn(owner: string, intruder: string, password: string, name: string, salt: nat, t: int)
    returns (s: Server)
    requires !AllSpace(owner) && !AllSpace(intruder) && NormalizeEmail(owner) != NormalizeEmail(intruder)
    requires Utf16Length(password) >= MIN_PASSWORD_LENGTH
    requires !AllSpace(name)
    ensures fresh(s) && s.Valid()
    ensures s.session == Some(2)
    ensures s.items == [Item(1, 1, Trim(name), None, None, 0, None, t, t)]
  {
    var created;
    s, created := WithOneItem(owner, password, name, 0, salt, t, t);
    assert s.users == [User(1, NormalizeEmail(owner), Hash(password, salt), t)];
    SignupSucceedsExactly(s.Snapshot(), intruder, password, salt, t);
    SignupCreatesAccount(s.Snapshot(), intruder, password, salt, t);
    var second := s.Signup(intruder, password, salt, t);
  }

  /** Another user's only row: PATCH and DELETE both answer 404 and change nothing. */
  lemma OthersRowIsNotFound(st: State, row: Item, uid: int, name: string, now: int)
    requires st.items == [row] && st.session == Some(uid) && uid != 0 && uid != row.userId
    requires !AllSpace(name)
    ensures PatchRoute(st, Int(row.id), Some(name), Some(Int(0)), now) == Outcome(Fail(ItemNotFound), st)
    ensures DeleteRoute(st, Int(row.id)) == Outcome(Fail(ItemNotFound), st)
  {
    CheckPatchAccepts(Int(row.id), Some(name), Some(Int(0)));
    assert FindOwned(st.items, row.id, uid).None?;
    PatchMissChangesNothing(st, Int(row.id), Some(name), Some(Int(0)), now);
    DeleteOwnedMissChangesNothing(st.items, row.id, uid);
  }

  /**
   * A second user can neither change nor delete the first user's row, and gets the same 404 as
   * for an id that does not exist; the row is still there, unchanged, afterwards.
   */
  method OtherUsersRowIsNotFound(
    owner: string, intruder: string, password: string, name: string, salt: nat, t: int)
    returns (patched: Response, deleted: Response, rows: seq<Item>)
    requires !AllSpace(owner) && !AllSpace(intruder) && NormalizeEmail(owner) != NormalizeEmail(intruder)
    requires Utf16Length(password) >= MIN_PASSWORD_LENGTH
    requires !AllSpace(name)
    ensures patched == Fail(ItemNotFound)
    ensures deleted == Fail(ItemNotFound)
    ensures rows == [Item(1, 1, Trim(name), None, None, 0, None, t, t)]
  {
    var s := IntruderLoggedIn(owner, intruder, password, name, salt, t);
    var row := Item(1, 1, Trim(name), None, None, 0, None, t, t);
    OthersRowIsNotFound(s.Snapshot(), row, 2, name, t);
    patched := s.PatchItem(Int(1), Some(name), Some(Int(0)), t);
    deleted := s.DeleteItem(Int(1));
    rows := s.items;
  }

  /** Another user's only row is not listed: the list is empty. */
  lemma OthersRowIsNotListed(st: State, row: Item, uid: int)
    requires st.items == [row] && st.session == Some(uid) && uid != 0 && uid != row.userId
    ensures ListRoute(st) == Response(200, ItemsJson([]))
  {
    ListOfNothingOwnedIsEmpty(st);
  }

  /** The second user's listing does not show the first user's row. */
  method OtherUsersRowIsNotListed(
    owner: string, intruder: string, password: string, name: string, salt: nat, t: int)
    returns (listed: Response)
    requires !AllSpace(owner) && !AllSpace(intruder) && NormalizeEmail(owner) != NormalizeEmail(intruder)
    requires Utf16Length(password) >= MIN_PASSWORD_LENGTH
    requires !AllSpace(name)
    ensures listed == Response(200, ItemsJson([]))
  {
    var s := IntruderLoggedIn(owner, intruder, password, name, salt, t);
    OthersRowIsNotListed(s.Snapshot(), Item(1, 1, Trim(name), None, None, 0, None, t, t), 2);
    listed := s.ListItems();
  }
}

/**
 * The `users` and `items` tables, in memory, and the SQL statements the handlers issue against
 * them, each written as a function from the old rows to the new rows (or to the rows returned).
 * A table is a sequence of rows; the order of the sequence carries no meaning except where a
 * statement says `ORDER BY`.
 */
module Tables {
  import opened Wrappers
  import opened Validation

  /** The cost factor the signup handler passes to bcrypt. */
  const BCRYPT_COST: nat := 10

  /**
   * A bcrypt digest, kept abstract: the random salt it was drawn with, its cost factor and
   * the secret it was made from. Only `Verify` looks inside it.
   */
  datatype Digest = Digest(salt: nat, cost: nat, secret: string)

  /** `bcrypt.hash(password, 10)`, with the salt it would draw at random given as a parameter. */
  function Hash(password: string, salt: nat): (d: Digest)
    ensures Verify(password, d)
    ensures d.cost == BCRYPT_COST
    ensures forall other :: Verify(other, d) ==> other == password
  {
    Digest(salt, BCRYPT_COST, password)
  }

  /** `bcrypt.compare(password, digest)`. */
  predicate Verify(password: string, d: Digest) {
    d.secret == password
  }

  /** `bcrypt.compare` against a stored digest accepts the password it was made from, and only that one, whatever the salt. */
  lemma CompareAcceptsOnlyHashedPassword(password: string, attempt: string, salt: nat)
    ensures Verify(attempt, Hash(password, salt)) <==> attempt == password
  {
  }

  /** A row of `users`. */
  datatype User = User(id: int, email: string, passwordHash: Digest, createdAt: int)

  /** A row of `items`; `category`, `status` and `notes` are columns no request can set. */
  datatype Item = Item(
    id: int,
    userId: int,
    name: string,
    category: Option<string>,
    status: Option<string>,
    quantity: int,
    notes: Option<string>,
    createdAt: int,
    updatedAt: int)

  /** The row invariant the handlers' checks maintain: a trimmed, non-empty name and a non-negative quantity. */
  predicate IsValidItem(it: Item) {
    IsItemName(it.name) && it.quantity >= 0
  }

  /** The primary key of `users`. */
  predicate UniqueUserIds(users: seq<User>) {
    forall i, j :: 0 <= i < j < |users| ==> users[i].id != users[j].id
  }

  /** The unique constraint on `users.email`. */
  predicate UniqueEmails(users: seq<User>) {
    forall i, j :: 0 <= i < j < |users| ==> users[i].email != users[j].email
  }

  /** The primary key of `items`. */
  predicate UniqueItemIds(items: seq<Item>) {
    forall i, j :: 0 <= i < j < |items| ==> items[i].id != items[j].id
  }

  predicate HasUser(users: seq<User>, id: int) {
    exists u :: u in users && u.id == id
  }

  /** `SELECT ... FROM users WHERE email = $1`, first row. */
  function UserByEmail(users: seq<User>, email: string): (r: Option<User>)
    ensures r.Some? ==> r.value in users && r.value.email == email
    ensures r.None? <==> forall u :: u in users ==> u.email != email
  {
    if users == [] then None
    else if users[0].email == email then Some(users[0])
    else
      var r := UserByEmail(users[1..], email);
      assert forall u :: u in users ==> u == users[0] || u in users[1..];
      r
  }

  /** Under the unique constraint the row a lookup by email finds is the one row with that email. */
  lemma {:induction false} UserByEmailFindsTheRow(users: seq<User>, u: User)
    requires UniqueEmails(users) && u in users
    ensures UserByEmail(users, u.email) == Some(u)
  {
    if users[0] != u {
      assert u in users[1..];
      assert users[0].email != u.email by {
        var k :| 0 <= k < |users| && users[k] == u;
        assert k != 0;
      }
      assert UniqueEmails(users[1..]) by {
        forall i, j | 0 <= i < j < |users| - 1 ensures users[1..][i].email != users[1..][j].email {
          assert users[1..][i] == users[i + 1] && users[1..][j] == users[j + 1];
        }
      }
      UserByEmailFindsTheRow(users[1..], u);
    }
  }

  /** `SELECT ... FROM users WHERE id = $1`, first row. */
  function UserById(users: seq<User>, id: int): (r: Option<User>)
    ensures r.Some? ==> r.value in users && r.value.id == id
    ensures r.None? <==> !HasUser(users, id)
  {
    if users == [] then None
    else if users[0].id == id then Some(users[0])
    else
      var r := UserById(users[1..], id);
      assert forall u :: u in users ==> u == users[0] || u in users[1..];
      r
  }

  /** The filter `WHERE id = $id AND user_id = $uid` of the UPDATE and DELETE statements. */
  predicate Matches(it: Item, id: int, uid: int) {
    it.id == id && it.userId == uid
  }

  /** The row an ownership-filtered statement would hit, if any. */
  function FindOwned(items: seq<Item>, id: int, uid: int): (r: Option<Item>)
    ensures r.Some? ==> r.value in items && Matches(r.value, id, uid)
    ensures r.None? <==> forall it :: it in items ==> !Matches(it, id, uid)
  {
    if items == [] then None
    else if Matches(items[0], id, uid) then Some(items[0])
    else
      var r := FindOwned(items[1..], id, uid);
      assert forall it :: it in items ==> it == items[0] || it in items[1..];
      r
  }

  /**
   * One row under `SET name = COALESCE($1, name), quantity = COALESCE($2, quantity), updated_at = NOW()`:
   * a column the patch leaves out keeps its value, and no other column changes except `updated_at`.
   */
  function ApplyPatch(it: Item, p: Patch, now: int): (r: Item)
    ensures r.name == (if p.name.Some? then p.name.value else it.name)
    ensures r.quantity == (if p.quantity.Some? then p.quantity.value else it.quantity)
    ensures r.updatedAt == now
    ensures r.id == it.id && r.userId == it.userId && r.createdAt == it.createdAt
    ensures r.category == it.category && r.status == it.status && r.notes == it.notes
    ensures p == Patch(None, None) ==> r == it.(updatedAt := now)
  {
    var name := if p.name.Some? then p.name.value else it.name;
    var quantity := if p.quantity.Some? then p.quantity.value else it.quantity;
    it.(name := name, quantity := quantity, updatedAt := now)
  }

  /** `UPDATE items SET ... WHERE id = $3 AND user_id = $4`: the rows afterwards. */
  function UpdateOwned(items: seq<Item>, id: int, uid: int, p: Patch, now: int): (r: seq<Item>)
    ensures |r| == |items|
    ensures forall i :: 0 <= i < |items| && !Matches(items[i], id, uid) ==> r[i] == items[i]
    ensures forall i :: 0 <= i < |items| && Matches(items[i], id, uid) ==> r[i] == ApplyPatch(items[i], p, now)
  {
    if items == [] then []
    else
      var head := if Matches(items[0], id, uid) then ApplyPatch(items[0], p, now) else items[0];
      [head] + UpdateOwned(items[1..], id, uid, p, now)
  }

  /** An UPDATE whose filter matches no row leaves the table as it was. */
  lemma UpdateOwnedMissChangesNothing(items: seq<Item>, id: int, uid: int, p: Patch, now: int)
    requires FindOwned(items, id, uid).None?
    ensures UpdateOwned(items, id, uid, p, now) == items
  {
    var r := UpdateOwned(items, id, uid, p, now);
    forall i | 0 <= i < |items| ensures r[i] == items[i] {
      assert items[i] in items;
    }
  }

  /** Under the primary key, two positions holding the same id are one position. */
  lemma SameIdSamePosition(items: seq<Item>, i: int, k: int)
    requires UniqueItemIds(items) && 0 <= i < |items| && 0 <= k < |items|
    ensures items[i].id == items[k].id ==> i == k
  {
  }

  /** Under the primary key an UPDATE that hits changes one row: every other row, of this owner or another, is untouched. */
  lemma UpdateOwnedChangesOneRow(items: seq<Item>, id: int, uid: int, p: Patch, now: int)
    requires UniqueItemIds(items) && FindOwned(items, id, uid).Some?
    ensures var hit := FindOwned(items, id, uid).value;
      forall i :: 0 <= i < |items| && items[i] != hit ==> UpdateOwned(items, id, uid, p, now)[i] == items[i]
  {
    var hit := FindOwned(items, id, uid).value;
    var k :| 0 <= k < |items| && items[k] == hit;
    forall i | 0 <= i < |items| && items[i] != hit ensures !Matches(items[i], id, uid) {
      SameIdSamePosition(items, i, k);
    }
  }

  /** The row `RETURNING` hands back is the patched row, and the table now holds it under the same id and owner. */
  lemma UpdateOwnedReturnsPatchedRow(items: seq<Item>, id: int, uid: int, p: Patch, now: int)
    requires UniqueItemIds(items) && FindOwned(items, id, uid).Some?
    ensures FindOwned(UpdateOwned(items, id, uid, p, now), id, uid) == Some(ApplyPatch(FindOwned(items, id, uid).value, p, now))
  {
    var hit := FindOwned(items, id, uid).value;
    var r := UpdateOwned(items, id, uid, p, now);
    var k :| 0 <= k < |items| && items[k] == hit;
    assert r[k] == ApplyPatch(hit, p, now) && Matches(r[k], id, uid);
    assert r[k] in r;
    var found := FindOwned(r, id, uid).value;
    var j :| 0 <= j < |r| && r[j] == found;
    assert Matches(items[j], id, uid);
    SameIdSamePosition(items, j, k);
  }

  /** `DELETE FROM items WHERE id = $1 AND user_id = $2`: the rows afterwards. */
  function DeleteOwned(items: seq<Item>, id: int, uid: int): (r: seq<Item>)
    ensures forall it :: it in r <==> it in items && !Matches(it, id, uid)
    ensures forall it :: multiset(r)[it] == if Matches(it, id, uid) then 0 else multiset(items)[it]
  {
    if items == [] then []
    else
      var rest := DeleteOwned(items[1..], id, uid);
      assert items == [items[0]] + items[1..];
      if Matches(items[0], id, uid) then rest else [items[0]] + rest
  }

  /** A DELETE whose filter matches no row leaves the table as it was. */
  lemma {:induction false} DeleteOwnedMissChangesNothing(items: seq<Item>, id: int, uid: int)
    requires FindOwned(items, id, uid).None?
    ensures DeleteOwned(items, id, uid) == items
  {
    if items != [] {
      assert items[0] in items;
      assert FindOwned(items[1..], id, uid).None?;
      DeleteOwnedMissChangesNothing(items[1..], id, uid);
      assert items == [items[0]] + items[1..];
    }
  }

  /** The rows after the first all carry ids other than the first row's. */
  lemma UniqueItemIdsTail(items: seq<Item>)
    requires UniqueItemIds(items) && items != []
    ensures UniqueItemIds(items[1..])
    ensures forall it :: it in items[1..] ==> it.id != items[0].id
  {
    forall it | it in items[1..] ensures it.id != items[0].id {
      var k :| 0 <= k < |items[1..]| && items[1..][k] == it;
      assert items[k + 1] == it;
    }
  }

  /** A row put in front of rows with other ids keeps the primary key. */
  lemma ConsKeepsUniqueItemIds(x: Item, rest: seq<Item>)
    requires UniqueItemIds(rest)
    requires forall it :: it in rest ==> it.id != x.id
    ensures UniqueItemIds([x] + rest)
  {
    var r := [x] + rest;
    forall i, j | 0 <= i < j < |r| ensures r[i].id != r[j].id {
      assert r[j] == rest[j - 1];
      if i == 0 {
        assert rest[j - 1] in rest;
      } else {
        assert r[i] == rest[i - 1];
      }
    }
  }

  /** Deleting rows keeps the primary key. */
  lemma {:induction false} DeleteOwnedKeepsUniqueIds(items: seq<Item>, id: int, uid: int)
    requires UniqueItemIds(items)
    ensures UniqueItemIds(DeleteOwned(items, id, uid))
  {
    if items != [] {
      UniqueItemIdsTail(items);
      DeleteOwnedKeepsUniqueIds(items[1..], id, uid);
      if !Matches(items[0], id, uid) {
        ConsKeepsUniqueItemIds(items[0], DeleteOwned(items[1..], id, uid));
      }
    }
  }

  /** With unique ids, a DELETE that matches removes exactly one row. */
  lemma {:induction false} DeleteOwnedRemovesOne(items: seq<Item>, id: int, uid: int)
    requires UniqueItemIds(items) && FindOwned(items, id, uid).Some?
    ensures |DeleteOwned(items, id, uid)| == |items| - 1
  {
    assert items == [items[0]] + items[1..];
    UniqueItemIdsTail(items);
    if Matches(items[0], id, uid) {
      assert FindOwned(items[1..], id, uid).None?;
      DeleteOwnedMissChangesNothing(items[1..], id, uid);
    } else {
      assert FindOwned(items[1..], id, uid).Some? by {
        var hit := FindOwned(items, id, uid).value;
        assert hit in items[1..];
      }
      DeleteOwnedRemovesOne(items[1..], id, uid);
    }
  }

  /** `WHERE user_id = $1`: the rows of one owner, each as often as in the table. */
  function Owned(items: seq<Item>, uid: int): (r: seq<Item>)
    ensures forall it :: it in r <==> it in items && it.userId == uid
    ensures forall it :: multiset(r)[it] == if it.userId == uid then multiset(items)[it] else 0
  {
    if items == [] then []
    else
      var rest := Owned(items[1..], uid);
      assert items == [items[0]] + items[1..];
      if items[0].userId == uid then [items[0]] + rest else rest
  }

  /** `ORDER BY created_at DESC`: most recent first. */
  predicate NewestFirst(s: seq<Item>) {
    forall i, j :: 0 <= i < j < |s| ==> s[i].createdAt >= s[j].createdAt
  }

  /** A row no older than any of a newest-first list can go in front of it. */
  lemma ConsNewestFirst(x: Item, s: seq<Item>)
    requires NewestFirst(s)
    requires forall y :: y in s ==> y.createdAt <= x.createdAt
    ensures NewestFirst([x] + s)
  {
    var r := [x] + s;
    forall i, j | 0 <= i < j < |r| ensures r[i].createdAt >= r[j].createdAt {
      assert r[j] == s[j - 1] && s[j - 1] in s;
      if i > 0 {
        assert r[i] == s[i - 1];
      }
    }
  }

  /** Inserts one row into a newest-first list, keeping it newest-first. */
  function InsertNewestFirst(x: Item, s: seq<Item>): (r: seq<Item>)
    requires NewestFirst(s)
    ensures NewestFirst(r)
    ensures multiset(r) == multiset(s) + multiset{x}
    ensures forall y :: y in r <==> y in s || y == x
  {
    if s == [] || x.createdAt >= s[0].createdAt then
      ConsNewestFirst(x, s);
      [x] + s
    else
      NewestFirstTail(s);
      var rest := InsertNewestFirst(x, s[1..]);
      ConsNewestFirst(s[0], rest);
      assert s == [s[0]] + s[1..];
      [s[0]] + rest
  }

  /** Below the head of a newest-first list: a newest-first list of rows no newer than the head. */
  lemma NewestFirstTail(s: seq<Item>)
    requires NewestFirst(s) && s != []
    ensures NewestFirst(s[1..])
    ensures forall y :: y in s[1..] ==> y.createdAt <= s[0].createdAt
  {
    forall y | y in s[1..] ensures y.createdAt <= s[0].createdAt {
      var j :| 0 <= j < |s[1..]| && s[1..][j] == y;
      assert s[j + 1] == y;
    }
  }

  /** The rows in `ORDER BY created_at DESC` order; rows with equal timestamps may come in any order. */
  function SortNewestFirst(s: seq<Item>): (r: seq<Item>)
    ensures NewestFirst(r)
    ensures multiset(r) == multiset(s)
  {
    if s == [] then []
    else
      assert s == [s[0]] + s[1..];
      InsertNewestFirst(s[0], SortNewestFirst(s[1..]))
  }

  /**
   * What the `users` table holds between requests: ids drawn from its sequence and unique,
   * and every email stored normalised, non-empty and unique.
   */
  predicate UsersValid(users: seq<User>, nextUserId: int) {
    && 1 <= nextUserId
    && (forall u :: u in users ==> 1 <= u.id < nextUserId && u.email != [] && IsNormalEmail(u.email))
    && UniqueUserIds(users)
    && UniqueEmails(users)
  }

  /**
   * What the `items` table holds between requests: ids drawn from its sequence and unique,
   * every row valid and owned by an existing user.
   */
  predicate ItemsValid(items: seq<Item>, users: seq<User>, nextItemId: int) {
    && 1 <= nextItemId
    && (forall it :: it in items ==> 1 <= it.id < nextItemId && IsValidItem(it) && HasUser(users, it.userId))
    && UniqueItemIds(items)
  }

  /** Signup's INSERT: a fresh id and an email no row has keep the `users` constraints. */
  lemma InsertUserKeepsUsersValid(users: seq<User>, nextUserId: int, u: User)
    requires UsersValid(users, nextUserId)
    requires u.id == nextUserId && u.email != [] && IsNormalEmail(u.email)
    requires UserByEmail(users, u.email).None?
    ensures UsersValid(users + [u], nextUserId + 1)
    ensures !HasUser(users, u.id)
  {
    var r := users + [u];
    forall i, j | 0 <= i < j < |r| ensures r[i].id != r[j].id && r[i].email != r[j].email {
      assert r[i] == users[i] && users[i] in users;
      if j < |users| {
        assert r[j] == users[j];
      }
    }
  }

  /** Adding a user never orphans an item. */
  lemma MoreUsersKeepItemsValid(items: seq<Item>, users: seq<User>, nextItemId: int, u: User)
    requires ItemsValid(items, users, nextItemId)
    ensures ItemsValid(items, users + [u], nextItemId)
  {
    forall it | it in items ensures HasUser(users + [u], it.userId) {
      var owner :| owner in users && owner.id == it.userId;
      assert owner in users + [u];
    }
  }

  /** Item creation's INSERT: a fresh id, a valid row and an existing owner keep the `items` constraints. */
  lemma InsertItemKeepsItemsValid(items: seq<Item>, users: seq<User>, nextItemId: int, it: Item)
    requires ItemsValid(items, users, nextItemId)
    requires it.id == nextItemId && IsValidItem(it) && HasUser(users, it.userId)
    ensures ItemsValid(items + [it], users, nextItemId + 1)
  {
    var r := items + [it];
    forall i, j | 0 <= i < j < |r| ensures r[i].id != r[j].id {
      assert r[i] == items[i] && items[i] in items;
      if j < |items| {
        assert r[j] == items[j];
      }
    }
  }

  /** A valid patch keeps the `items` constraints: ids and owners stay where they were. */
  lemma UpdateOwnedKeepsItemsValid(items: seq<Item>, users: seq<User>, nextItemId: int, id: int, uid: int, p: Patch, now: int)
    requires ItemsValid(items, users, nextItemId) && IsValidPatch(p)
    ensures ItemsValid(UpdateOwned(items, id, uid, p, now), users, nextItemId)
  {
    UpdateOwnedKeepsRowsValid(items, users, nextItemId, id, uid, p, now);
    UpdateOwnedKeepsUniqueIds(items, id, uid, p, now);
  }

  /** Every row after a valid patch is a valid row with an id below the counter and an existing owner. */
  lemma UpdateOwnedKeepsRowsValid(items: seq<Item>, users: seq<User>, nextItemId: int, id: int, uid: int, p: Patch, now: int)
    requires forall it :: it in items ==> 1 <= it.id < nextItemId && IsValidItem(it) && HasUser(users, it.userId)
    requires IsValidPatch(p)
    ensures forall it :: it in UpdateOwned(items, id, uid, p, now) ==>
      1 <= it.id < nextItemId && IsValidItem(it) && HasUser(users, it.userId)
  {
    var r := UpdateOwned(items, id, uid, p, now);
    forall it | it in r ensures 1 <= it.id < nextItemId && IsValidItem(it) && HasUser(users, it.userId) {
      var i :| 0 <= i < |r| && r[i] == it;
      assert items[i] in items;
    }
  }

  /** An UPDATE never touches the `id` column, so the primary key still holds. */
  lemma UpdateOwnedKeepsUniqueIds(items: seq<Item>, id: int, uid: int, p: Patch, now: int)
    requires UniqueItemIds(items)
    ensures UniqueItemIds(UpdateOwned(items, id, uid, p, now))
  {
    var r := UpdateOwned(items, id, uid, p, now);
    forall i, j | 0 <= i < j < |r| ensures r[i].id != r[j].id {
      assert r[i].id == items[i].id && r[j].id == items[j].id;
    }
  }

  /** The DELETE keeps the `items` constraints. */
  lemma DeleteOwnedKeepsItemsValid(items: seq<Item>, users: seq<User>, nextItemId: int, id: int, uid: int)
    requires ItemsValid(items, users, nextItemId)
    ensures ItemsValid(DeleteOwned(items, id, uid), users, nextItemId)
  {
    DeleteOwnedKeepsUniqueIds(items, id, uid);
  }
}

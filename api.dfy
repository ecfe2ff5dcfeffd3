/**
 * The server: the two tables, the id counters that stand for the tables' id sequences, and the
 * one session the requests arrive with, updated in place by one method per route. Each method
 * is proved to answer and leave the state exactly as the route's function in `Routes` says.
 */
module Api {
  import opened Wrappers
  import opened Validation
  import opened Tables
  import opened Routes

  class Server {
    var users: seq<User>
    var items: seq<Item>
    /** `req.session.userId`; `None` when no session is established. */
    var session: Option<int>
    /** The next value of the `users.id` sequence. */
    var nextUserId: int
    /** The next value of the `items.id` sequence. */
    var nextItemId: int

    function Snapshot(): State
      reads this
    {
      State(users, items, session, nextUserId, nextItemId)
    }

    ghost predicate Valid()
      reads this
    {
      Invariant(Snapshot())
    }

    constructor ()
      ensures Valid()
      ensures Snapshot() == Initial
    {
      users, items, session := [], [], None;
      nextUserId, nextItemId := 1, 1;
    }

    /** POST /auth/signup */
    method Signup(rawEmail: string, rawPassword: string, salt: nat, now: int) returns (resp: Response)
      requires Valid()
      modifies this`users, this`session, this`nextUserId
      ensures Outcome(resp, Snapshot()) == SignupRoute(old(Snapshot()), rawEmail, rawPassword, salt, now)
      ensures Valid()
    {
      SignupKeepsInvariant(Snapshot(), rawEmail, rawPassword, salt, now);
      var out := SignupRoute(Snapshot(), rawEmail, rawPassword, salt, now);
      users, session, nextUserId := out.next.users, out.next.session, out.next.nextUserId;
      resp := out.resp;
      assert Snapshot() == out.next;
    }

    /** POST /auth/login */
    method Login(rawEmail: string, rawPassword: string) returns (resp: Response)
      requires Valid()
      modifies this`session
      ensures Outcome(resp, Snapshot()) == LoginRoute(old(Snapshot()), rawEmail, rawPassword)
      ensures Valid()
    {
      LoginKeepsInvariant(Snapshot(), rawEmail, rawPassword);
      var out := LoginRoute(Snapshot(), rawEmail, rawPassword);
      session := out.next.session;
      resp := out.resp;
      assert Snapshot() == out.next;
    }

    /** GET /me */
    method Me() returns (resp: Response)
      ensures resp == MeRoute(Snapshot())
    {
      if session.None? || session.value == 0 {
        return Response(200, NoUser);
      }
      var found := UserById(users, session.value);
      if found.None? {
        return Response(200, NoUser);
      }
      resp := Response(200, UserJson(found.value.id, found.value.email));
    }

    /** POST /auth/logout */
    method Logout() returns (resp: Response)
      requires Valid()
      modifies this`session
      ensures Outcome(resp, Snapshot()) == LogoutRoute(old(Snapshot()))
      ensures Valid()
    {
      LogoutKeepsInvariant(Snapshot());
      session := None;
      resp := Response(200, OkJson);
    }

    /** GET /items */
    method ListItems() returns (resp: Response)
      ensures resp == ListRoute(Snapshot())
    {
      if session.None? || session.value == 0 {
        return Fail(Unauthorized);
      }
      var rows := SortNewestFirst(Owned(items, session.value));
      resp := Response(200, ItemsJson(rows));
    }

    /** POST /items */
    method CreateItem(rawName: string, quantity: Option<Num>, now: int) returns (resp: Response)
      requires Valid()
      modifies this`items, this`nextItemId
      ensures Outcome(resp, Snapshot()) == CreateRoute(old(Snapshot()), rawName, quantity, now)
      ensures Valid()
    {
      CreateKeepsInvariant(Snapshot(), rawName, quantity, now);
      var out := CreateRoute(Snapshot(), rawName, quantity, now);
      items, nextItemId := out.next.items, out.next.nextItemId;
      resp := out.resp;
      assert Snapshot() == out.next;
    }

    /** PATCH /items/:id */
    method PatchItem(id: Num, name: Option<string>, quantity: Option<Num>, now: int) returns (resp: Response)
      requires Valid()
      modifies this`items
      ensures Outcome(resp, Snapshot()) == PatchRoute(old(Snapshot()), id, name, quantity, now)
      ensures Valid()
    {
      PatchKeepsInvariant(Snapshot(), id, name, quantity, now);
      var out := PatchRoute(Snapshot(), id, name, quantity, now);
      items := out.next.items;
      resp := out.resp;
      assert Snapshot() == out.next;
    }

    /** DELETE /items/:id */
    method DeleteItem(id: Num) returns (resp: Response)
      requires Valid()
      modifies this`items
      ensures Outcome(resp, Snapshot()) == DeleteRoute(old(Snapshot()), id)
      ensures Valid()
    {
      DeleteKeepsInvariant(Snapshot(), id);
      var out := DeleteRoute(Snapshot(), id);
      items := out.next.items;
      resp := out.resp;
      assert Snapshot() == out.next;
    }
  }
}

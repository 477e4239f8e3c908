/** The shared application state and the four HTTP handlers. Each handler's
    attempt to lock the state is given as `lockOk`: true when the lock was
    acquired, false when acquiring it failed. */
module Handlers {
  import opened Users
  import History

  const OK: nat := 200
  const CREATED: nat := 201
  const NOT_FOUND: nat := 404
  const INTERNAL_SERVER_ERROR: nat := 500

  const GREETING: string := "Hello, actix-web!"
  const LOCK_FAILED: string := "Failed to lock application state"

  /** A response body: plain text, the 404 message naming the missing id, or
      a JSON user or list of users. */
  datatype Body =
    | Text(text: string)
    | UserNotFound(id: U32)
    | UserJson(user: User)
    | UsersJson(users: seq<User>)

  datatype Response = Response(status: nat, body: Body)

  /** The answer every store handler gives when the lock cannot be taken. */
  function LockFailure(): Response {
    Response(INTERNAL_SERVER_ERROR, Text(LOCK_FAILED))
  }

  /** `AppState`: the users in insertion order and the last id issued. */
  class AppState {
    var users: seq<User>
    var userCounter: U32

    function Model(): Store
      reads this
    {
      Store(users, userCounter)
    }

    ghost predicate Valid()
      reads this
    {
      Users.Valid(Model())
    }

    /** The state built at startup: Alice and Bob, counter 2. */
    constructor ()
      ensures Model() == SeedStore()
      ensures Valid()
    {
      users := SeedStore().users;
      userCounter := SeedStore().counter;
    }
  }

  /** `GET /`: a fixed greeting, independent of the store. */
  function Hello(): (r: Response)
    ensures r.status == OK && r.body == Text(GREETING)
  {
    Response(OK, Text(GREETING))
  }

  /** `GET /users`: every stored record, in insertion order. */
  function GetUsers(data: AppState, lockOk: bool): (r: Response)
    reads data
    ensures r.status == OK <==> lockOk
    ensures lockOk ==> (
      && r.body.UsersJson?
      && |r.body.users| == |data.users|
      && forall i :: 0 <= i < |data.users| ==> r.body.users[i] == data.users[i])
    ensures !lockOk ==> r == LockFailure()
  {
    if !lockOk then LockFailure() else Response(OK, UsersJson(data.users))
  }

  /** `GET /users/{id}`: the first record with that id, or 404 naming the id
      exactly when no record carries it. */
  function GetUser(userId: U32, data: AppState, lockOk: bool): (r: Response)
    reads data
    ensures !lockOk ==> r == LockFailure()
    ensures lockOk ==> r.status == OK || r.status == NOT_FOUND
    ensures lockOk && r.status == OK ==>
      exists i :: FirstWithId(data.users, i, userId) && r.body == UserJson(data.users[i])
    ensures lockOk ==>
      (r.status == NOT_FOUND <==> forall i :: 0 <= i < |data.users| ==> data.users[i].id != userId)
    ensures lockOk && r.status == NOT_FOUND ==> r.body == UserNotFound(userId)
  {
    if !lockOk then LockFailure()
    else match FindUser(data.users, userId)
      case Some(user) => Response(OK, UserJson(user))
      case None => Response(NOT_FOUND, UserNotFound(userId))
  }

  /** `POST /users`: append a record with id counter + 1 and set the counter
      to it. Returns None when the handler panics, which happens when the
      counter is already `u32::MAX`: the addition overflows before anything
      is written. */
  method CreateUser(user: NewUser, data: AppState, lockOk: bool) returns (r: Option<Response>)
    requires data.Valid()
    modifies data
    ensures data.Valid()
    ensures !lockOk ==> r == Some(LockFailure()) && unchanged(data)
    ensures lockOk && old(data.userCounter) == U32_MAX ==> r == None && unchanged(data)
    ensures lockOk && old(data.userCounter) < U32_MAX ==>
      var created := User(old(data.userCounter) + 1, user.name, user.email);
      && data.users == old(data.users) + [created]
      && data.userCounter == created.id
      && r == Some(Response(CREATED, UserJson(created)))
    ensures lockOk ==> data.Model() == Apply(old(data.Model()), user)
    ensures r.Some? && r.value.status == CREATED ==>
      r.value.body.UserJson? && GetUser(r.value.body.user.id, data, true) == Response(OK, r.value.body)
  {
    if !lockOk {
      return Some(LockFailure());
    }
    if data.userCounter == U32_MAX {
      return None;
    }
    ghost var before := data.Model();
    var userId := data.userCounter + 1;
    var newUser := User(userId, user.name, user.email);
    data.users := data.users + [newUser];
    data.userCounter := userId;
    assert Insert(before, user) == Inserted(data.Model(), newUser);
    InsertPreservesValid(before, user);
    ReadYourWrite(before, user);
    r := Some(Response(CREATED, UserJson(newUser)));
  }

  /** Startup followed by the creation of Carol and two lookups: Carol is
      created with id 3 and read back, and id 99 is not found. */
  method CarolScenario() returns (created: Option<Response>, fetched: Response, missing: Response)
    ensures created == Some(Response(CREATED, UserJson(User(3, "Carol", "carol@example.com"))))
    ensures fetched == Response(OK, UserJson(User(3, "Carol", "carol@example.com")))
    ensures missing == Response(NOT_FOUND, UserNotFound(99))
  {
    var data := new AppState();
    created := CreateUser(NewUser("Carol", "carol@example.com"), data, true);
    fetched := GetUser(3, data, true);
    missing := GetUser(99, data, true);
  }

  /** Startup followed by the creation requests `reqs`, each handled with
      the lock acquired. What `GET /users` and `GET /users/{id}` then see is
      the replay of `reqs` from the seed: the list holds the seed records and
      then the created ones, and exactly the ids 1 .. counter are found. */
  method ServeCreations(reqs: seq<NewUser>) returns (data: AppState)
    ensures data.Valid()
    ensures data.Model() == History.Replay(SeedStore(), reqs)
    ensures data.userCounter == 2 + History.Min(|reqs|, U32_MAX - 2)
    ensures |GetUsers(data, true).body.users| == data.userCounter
    ensures GetUsers(data, true).body.users[..2] == SeedStore().users
    ensures forall k :: 0 <= k < data.userCounter - 2 ==>
      GetUsers(data, true).body.users[2 + k] == User(3 + k, reqs[k].name, reqs[k].email)
    ensures forall id: U32 :: GetUser(id, data, true).status == OK <==> 1 <= id <= data.userCounter
  {
    data := new AppState();
    for i := 0 to |reqs|
      invariant data.Valid()
      invariant data.Model() == History.Replay(SeedStore(), reqs[..i])
    {
      History.ReplaySnoc(SeedStore(), reqs[..i], reqs[i]);
      assert reqs[..i + 1] == reqs[..i] + [reqs[i]];
      var _ := CreateUser(reqs[i], data, true);
    }
    assert reqs[..|reqs|] == reqs;
    History.ReplayAppendsInOrder(SeedStore(), reqs);
    forall id: U32 ensures GetUser(id, data, true).status == OK <==> 1 <= id <= data.userCounter {
      History.ReachableLookup(reqs, id);
    }
  }
}

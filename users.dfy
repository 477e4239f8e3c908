/** The user record, the in-memory store as a value, and the store operations
    that the request handlers perform while holding the store's lock. */
module Users {

  /** Largest value of Rust's `u32`, the type of ids and of the counter. */
  const U32_MAX: int := 0xFFFF_FFFF

  type U32 = x: int | 0 <= x <= U32_MAX

  datatype Option<T> = None | Some(value: T)

  /** `User`: a stored record. */
  datatype User = User(id: U32, name: string, email: string)

  /** `CreateUser`: the JSON body of a creation request (no id). */
  datatype NewUser = NewUser(name: string, email: string)

  /** `AppState` as a value: the users in insertion order and the counter
      holding the last id issued. */
  datatype Store = Store(users: seq<User>, counter: U32)

  /** No two stored records share an id. */
  ghost predicate UniqueIds(users: seq<User>) {
    forall i, j :: 0 <= i < j < |users| ==> users[i].id != users[j].id
  }

  /** The counter is at least every stored id. */
  ghost predicate CounterCovers(users: seq<User>, counter: int) {
    forall i :: 0 <= i < |users| ==> users[i].id <= counter
  }

  /** The store invariant. */
  ghost predicate Valid(s: Store) {
    UniqueIds(s.users) && CounterCovers(s.users, s.counter)
  }

  /** The stronger shape of every store reachable from the seed: the record at
      position i has id i + 1, and the counter is the number of records. */
  ghost predicate Dense(s: Store) {
    s.counter == |s.users| && forall i :: 0 <= i < |s.users| ==> s.users[i].id == i + 1
  }

  /** Index i holds the first record whose id is `id`. */
  ghost predicate FirstWithId(users: seq<User>, i: int, id: int) {
    0 <= i < |users| && users[i].id == id && forall k :: 0 <= k < i ==> users[k].id != id
  }

  /** The state the server starts with: Alice (id 1), Bob (id 2), counter 2. */
  function SeedStore(): (s: Store)
    ensures Valid(s) && Dense(s)
    ensures |s.users| == 2 && s.users[0].name == "Alice" && s.users[1].name == "Bob"
  {
    Store([User(1, "Alice", "alice@example.com"), User(2, "Bob", "bob@example.com")], 2)
  }

  /** `users.iter().find(|u| u.id == user_id)`: the first record with the id,
      scanning in insertion order. */
  function FindUser(users: seq<User>, id: int): (r: Option<User>)
    ensures r.None? <==> forall i :: 0 <= i < |users| ==> users[i].id != id
    ensures r.Some? ==> exists i :: FirstWithId(users, i, id) && users[i] == r.value
  {
    if users == [] then None
    else if users[0].id == id then
      assert FirstWithId(users, 0, id);
      Some(users[0])
    else
      var r := FindUser(users[1..], id);
      assert r.Some? ==> exists i :: FirstWithId(users, i, id) && users[i] == r.value by {
        if r.Some? {
          var i :| FirstWithId(users[1..], i, id) && users[1..][i] == r.value;
          assert FirstWithId(users, i + 1, id);
        }
      }
      r
  }

  /** With unique ids, the record found for an id is the only one carrying it. */
  lemma FindUnique(users: seq<User>, i: int)
    requires UniqueIds(users) && 0 <= i < |users|
    ensures FindUser(users, users[i].id) == Some(users[i])
  {
  }

  /** Outcome of the insertion done by `create_user` under the lock. */
  datatype Insertion = Inserted(store: Store, user: User) | Overflow

  /** `create_user`'s state change. It overflows exactly when the counter is
      already `u32::MAX`: the checked addition panics before anything is
      written. Otherwise it appends exactly one record carrying the request's
      name and email and the id counter + 1, keeps every earlier record where
      it was, and sets the counter to the new id. */
  function Insert(s: Store, req: NewUser): (r: Insertion)
    ensures r.Overflow? <==> s.counter == U32_MAX
    ensures r.Inserted? ==>
      && r.user.id == s.counter + 1 && r.user.name == req.name && r.user.email == req.email
      && |r.store.users| == |s.users| + 1 && r.store.users[..|s.users|] == s.users
      && r.store.users[|s.users|] == r.user && r.store.counter == r.user.id
  {
    if s.counter == U32_MAX then Overflow
    else
      var user := User(s.counter + 1, req.name, req.email);
      Inserted(Store(s.users + [user], user.id), user)
  }

  /** The state after an insert, whether it succeeded or panicked. */
  function Apply(s: Store, req: NewUser): Store {
    match Insert(s, req)
    case Inserted(t, _) => t
    case Overflow => s
  }

  /** Inserting keeps the store invariant, and the new id was not in use. */
  lemma InsertPreservesValid(s: Store, req: NewUser)
    requires Valid(s)
    ensures Valid(Apply(s, req))
    ensures Insert(s, req).Inserted? ==>
      forall i :: 0 <= i < |s.users| ==> s.users[i].id != Insert(s, req).user.id
  {
  }

  /** Inserting keeps the ids dense. */
  lemma InsertPreservesDense(s: Store, req: NewUser)
    requires Dense(s)
    ensures Dense(Apply(s, req))
  {
  }

  /** Read-your-write: after an insert returns record R, looking up R's id
      finds R. */
  lemma ReadYourWrite(s: Store, req: NewUser)
    requires Valid(s)
    requires Insert(s, req).Inserted?
    ensures FindUser(Insert(s, req).store.users, Insert(s, req).user.id) == Some(Insert(s, req).user)
  {
  }

  /** Inserting is not idempotent: the same request twice gives two records
      whose ids differ by exactly one. */
  lemma TwoInsertsConsecutive(s: Store, req: NewUser)
    requires s.counter < U32_MAX - 1
    ensures Insert(s, req).Inserted?
    ensures Insert(Insert(s, req).store, req).Inserted?
    ensures Insert(Insert(s, req).store, req).user.id == Insert(s, req).user.id + 1
    ensures Insert(Insert(s, req).store, req).store.users == s.users + [Insert(s, req).user, Insert(Insert(s, req).store, req).user]
  {
  }
}

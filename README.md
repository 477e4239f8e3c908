# User store of the actix-web tracing example, in Dafny

The service keeps an in-memory list of users behind one mutex and serves four
HTTP handlers: `GET /` (a greeting), `GET /users` (all users), `GET /users/{id}`
(one user or 404) and `POST /users` (create a user with the next id). This
project models that store and those handlers, and proves what they promise:
- ids are unique and never above the counter;
- a created user gets id counter + 1 and is appended after every existing record;
- a created user can be read back;
- a lookup fails exactly when no record carries the id;
- a failed lock gives 500 and leaves the state alone.

- `users.dfy` (module `Users`) holds the value-level model:
  - the `User` record, the creation request `NewUser` and the store value `Store` (users in insertion order plus the `u32` counter);
  - the store invariant `Valid`: unique ids, and a counter at least every id;
  - the seed state;
  - the first-match scan `FindUser`;
  - the insert performed by `create_user`, and the lemmas about them.
- `history.dfy` (module `History`) replays any sequence of creations. The
  lock serializes handlers, so concurrent creations take effect in some such
  order. Over a replay it proves uniqueness, gap-free increasing ids, list
  completeness, and that from the seed exactly the ids 1 .. counter can be found.
- `handlers.dfy` (module `Handlers`) holds the `AppState` class, whose fields
  the creation handler updates in place, and the four handlers. Each handler
  returns a `Response` made of a status and a body. Whether `data.lock()`
  succeeded is the parameter `lockOk`.

The counter is a Rust `u32`, and `user_counter + 1` is checked arithmetic in
a debug build. When the counter is already `u32::MAX`, the handler panics
before writing anything. The model gives that path explicitly: `Insert`
returns `Overflow`, `CreateUser` returns `None` (no response) and the state
is unchanged. It is not excluded by a precondition. `create_user` itself has
no overflow branch; the panic comes from Rust's checked `+`.

## Model

| member | source | states |
|---|---|---|
| `Users.SeedStore` | src/main.rs:175-181 | the startup state (Alice id 1, Bob id 2, counter 2) satisfies the store invariant and has dense ids |
| `Users.FindUser` | src/main.rs:77 | the lookup returns nothing exactly when no record has the id; otherwise it returns the first record, in insertion order, whose id matches |
| `Users.FindUnique` | src/main.rs:77 | when ids are unique, looking up the id of any stored record returns that record |
| `Users.Insert` | src/main.rs:105-114 | an insert overflows exactly when the counter is `u32::MAX`; otherwise it creates id counter + 1 with the request's name and email, appends it as the last element after the unchanged old records, and sets the counter to the new id |
| `Users.InsertPreservesValid` | src/main.rs:105-114 | an insert keeps ids unique and the counter at least every id; the new id was not in use |
| `Users.InsertPreservesDense` | src/main.rs:105-114 | if record i has id i + 1 and the counter equals the number of records, an insert keeps this |
| `Users.ReadYourWrite` | src/main.rs:77-114 | after an insert returns record R, looking up R's id returns R |
| `Users.TwoInsertsConsecutive` | src/main.rs:105-114 | the same request handled twice creates two records whose ids differ by one, appended in that order |
| `History.Replay` | src/main.rs:105-114 | a run of creations handled one after another never lowers the counter or shortens the list, and keeps the records present before the run as a prefix |
| `History.ReplaySnoc` | src/main.rs:105-114 | handling one more creation after a run gives the same store as running the longer sequence |
| `History.ReplayPreservesValid` | src/main.rs:105-114 | after any sequence of inserts, ids are unique and the counter is at least every id |
| `History.ReplayAppendsInOrder` | src/main.rs:105-114 | a sequence of n inserts (limited by the room below `u32::MAX`) appends the requests in order with ids counter + 1 .. counter + n. The earlier records are kept, and the counter advances by n. |
| `History.ReplayPreservesDense` | src/main.rs:105-114 | any sequence of inserts keeps ids dense |
| `History.DenseLookup` | src/main.rs:77-86 | in a store with dense ids, the lookup finds id k exactly when 1 <= k <= counter, and then finds the record at position k - 1 |
| `History.ReachableLookup` | src/main.rs:175-181 | from the seed, after any sequence of inserts, the invariant holds and a lookup succeeds exactly for ids 1 .. 2 + number of successful inserts |
| `Handlers.AppState.constructor` | src/main.rs:175-181 | the state built at startup is the seed state and satisfies the invariant |
| `Handlers.Hello` | src/main.rs:35-37 | `GET /` answers 200 with the fixed greeting |
| `Handlers.GetUsers` | src/main.rs:42-59 | 200 exactly when the lock is acquired, with every stored record in insertion order; otherwise 500 with the lock-failure text |
| `Handlers.GetUser` | src/main.rs:64-87 | with the lock: 200 with the first record carrying the id, or 404 naming the id exactly when no record carries it. Without the lock: 500 with the lock-failure text. |
| `Handlers.CreateUser` | src/main.rs:92-120 | without the lock: 500 and no change. On overflow: no response and no change. Otherwise: appends a record with id old counter + 1, sets the counter to it and returns 201 with that record. The invariant is kept, and looking up the new id returns the record. |
| `Handlers.CarolScenario` | src/main.rs:64-120 | from the seed, creating Carol gives 201 with id 3, `GET /users/3` returns her, and `GET /users/99` is 404 naming 99 |
| `Handlers.ServeCreations` | src/main.rs:92-120 | startup followed by any sequence of `POST /users` with the lock acquired leaves the class state equal to the replay from the seed. The state keeps the invariant. `GET /users` lists the two seed records and then each created record with id 3, 4, ... in request order. `GET /users/{id}` succeeds exactly for ids 1 .. counter. |

## Left out

- Process bootstrap (`main`, `init_telemetry`, `get_env_or_default`): environment variables, the OTLP exporter, the tracing subscriber, binding to 127.0.0.1:8080 and the Ctrl-C handler are I/O and foreign libraries.
- The `info!` events and `#[instrument]` spans: observability only, with no effect on state or responses.
- The `Mutex` and concurrent scheduling: each lock attempt is the input `lockOk`. Linearizability is not proved. The replay lemmas cover any serial order of creations.
- Mutex poisoning: after a panic while the lock is held (the overflow path), later lock attempts fail. The model leaves that to the `lockOk` input and does not link the two.
- What actix-web does with a panicking handler (the connection is dropped); the model only reports "no response".
- Release-build wrap-around of `user_counter + 1` (without overflow checks the id would wrap to 0 and later ids would repeat); the model follows the checked, debug-build arithmetic.
- Routing, serde JSON (de)serialisation and the 400 answers for a malformed path or body, which happen in the framework before a handler runs.
- The exact text produced by `format!` for the 404 body: the body is `UserNotFound(id)`, a message carrying the id rather than a rendered string.

/** Runs of `create_user` calls. The store's lock serializes all handlers, so
    any set of concurrent creations takes effect as some sequence of inserts;
    these lemmas hold for every such sequence. */
module History {
  import opened Users

  /** The store after the creation requests `reqs` are handled in order. An
      insert that overflows leaves the store as it was. */
  function Replay(s: Store, reqs: seq<NewUser>): (r: Store)
    ensures r.counter >= s.counter && |r.users| >= |s.users|
    ensures r.users[..|s.users|] == s.users
    decreases |reqs|
  {
    if reqs == [] then s else Replay(Apply(s, reqs[0]), reqs[1..])
  }

  /** Handling one more request after a run is the same as running the
      longer sequence. */
  lemma {:induction false} ReplaySnoc(s: Store, reqs: seq<NewUser>, req: NewUser)
    ensures Replay(s, reqs + [req]) == Apply(Replay(s, reqs), req)
    decreases |reqs|
  {
    if reqs == [] {
      assert [] + [req] == [req];
    } else {
      assert (reqs + [req])[1..] == reqs[1..] + [req];
      ReplaySnoc(Apply(s, reqs[0]), reqs[1..], req);
    }
  }

  function Min(a: int, b: int): int {
    if a <= b then a else b
  }

  /** Uniqueness: however many inserts run, no two records share an id and the
      counter stays at least every id. */
  lemma {:induction false} ReplayPreservesValid(s: Store, reqs: seq<NewUser>)
    requires Valid(s)
    ensures Valid(Replay(s, reqs))
    decreases |reqs|
  {
    if reqs != [] {
      InsertPreservesValid(s, reqs[0]);
      ReplayPreservesValid(Apply(s, reqs[0]), reqs[1..]);
    }
  }

  /** Monotonicity and list completeness: the first n requests (n limited by
      the room left below `u32::MAX`) are appended in order, after the records
      already present, with the gap-free ids counter + 1, ..., counter + n; the
      counter ends at counter + n. */
  lemma {:induction false} ReplayAppendsInOrder(s: Store, reqs: seq<NewUser>)
    ensures var r, n := Replay(s, reqs), Min(|reqs|, U32_MAX - s.counter);
      && r.counter == s.counter + n
      && |r.users| == |s.users| + n
      && r.users[..|s.users|] == s.users
      && forall k :: 0 <= k < n ==>
           r.users[|s.users| + k] == User(s.counter + 1 + k, reqs[k].name, reqs[k].email)
    decreases |reqs|
  {
    if reqs == [] {
    } else if s.counter == U32_MAX {
      ReplayAppendsInOrder(s, reqs[1..]);
    } else {
      var t := Apply(s, reqs[0]);
      ReplayAppendsInOrder(t, reqs[1..]);
      var r, n := Replay(s, reqs), Min(|reqs|, U32_MAX - s.counter);
      assert r == Replay(t, reqs[1..]);
      assert n == Min(|reqs[1..]|, U32_MAX - t.counter) + 1;
      assert r.users[..|t.users|] == t.users;
      assert r.users[..|s.users|] == s.users by {
        assert r.users[..|s.users|] == r.users[..|t.users|][..|s.users|];
      }
      forall k | 0 <= k < n
        ensures r.users[|s.users| + k] == User(s.counter + 1 + k, reqs[k].name, reqs[k].email)
      {
        if k == 0 {
          assert r.users[|s.users|] == r.users[..|t.users|][|s.users|];
        } else {
          assert reqs[1..][k - 1] == reqs[k];
        }
      }
    }
  }

  /** Every store reachable from the seed has dense ids. */
  lemma {:induction false} ReplayPreservesDense(s: Store, reqs: seq<NewUser>)
    requires Dense(s)
    ensures Dense(Replay(s, reqs))
    decreases |reqs|
  {
    if reqs != [] {
      InsertPreservesDense(s, reqs[0]);
      ReplayPreservesDense(Apply(s, reqs[0]), reqs[1..]);
    }
  }

  /** In a store with dense ids, exactly the ids 1 .. counter are found, each
      at position id - 1. */
  lemma DenseLookup(s: Store, id: int)
    requires Dense(s)
    ensures FindUser(s.users, id) == if 1 <= id <= s.counter then Some(s.users[id - 1]) else None
  {
  }

  /** Not-found correctness: starting from the seed, a lookup succeeds exactly
      for the seeded ids 1 and 2 and the ids issued by the inserts so far, and
      every store reached keeps the invariant. */
  lemma ReachableLookup(reqs: seq<NewUser>, id: int)
    ensures Valid(Replay(SeedStore(), reqs))
    ensures var s := Replay(SeedStore(), reqs);
      FindUser(s.users, id).Some? <==> 1 <= id <= 2 + Min(|reqs|, U32_MAX - 2)
  {
    ReplayPreservesValid(SeedStore(), reqs);
    ReplayPreservesDense(SeedStore(), reqs);
    ReplayAppendsInOrder(SeedStore(), reqs);
    DenseLookup(Replay(SeedStore(), reqs), id);
  }
}

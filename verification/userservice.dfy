/** The request logic of the user service (webservice/main.go) with the HTTP
    plumbing, the locks and the JSON encoding taken away: each handler is a
    function from the request's method and its parsed parameters, plus the
    user store and the user cache, to a status code, a body and (for the
    lookup by id) the new cache. */
module UserService {

  import opened Wrappers
  import opened Search
  import Recurrences

  /** A stored user. The creation time and the data buffer are not modelled:
      they are filled from the clock and from random draws and no handler's
      decision depends on them. */
  datatype User = User(id: int, name: string, email: string)

  /** Both the main storage `users` and the cache `userCache` map ids to users. */
  type Store = map<int, User>

  const StatusOK := 200
  const StatusBadRequest := 400
  const StatusNotFound := 404
  const StatusMethodNotAllowed := 405

  datatype Body =
    | UserList(users: seq<User>)
    | OneUser(user: User)
    | Computed(result: int)
    | ErrorText(message: string)

  datatype Response = Response(status: int, body: Body)

  /** The answer of a lookup by id together with the cache it leaves behind. */
  datatype Served = Served(response: Response, cache: Store)

  /** Every handler accepts only the GET method. */
  predicate IsGet(verb: string)
  {
    verb == "GET"
  }

  function MethodNotAllowed(): Response
  {
    Response(StatusMethodNotAllowed, ErrorText("Method not allowed"))
  }

  /** `order` is one possible iteration order of a Go `range` over `users`:
      it lists every id of the store exactly once. */
  ghost predicate Enumerates(order: seq<int>, users: Store)
  {
    && (forall id :: id in users <==> id in order)
    && (forall i, j :: 0 <= i < j < |order| ==> order[i] != order[j])
  }

  // ---------------------------------------------------------------- /users

  /** `getAllUsers`: all stored users, in the store's iteration order. Each
      user value appears as often as there are ids storing it. */
  function GetAllUsers(verb: string, users: Store, order: seq<int>): (r: Response)
    requires Enumerates(order, users)
    ensures !IsGet(verb) ==> r == MethodNotAllowed()
    ensures IsGet(verb) ==> r.status == StatusOK && r.body.UserList?
    ensures IsGet(verb) ==> |r.body.users| == |users|
    ensures IsGet(verb) ==> forall id :: id in users ==> users[id] in r.body.users
    ensures IsGet(verb) ==> forall u :: u in r.body.users ==> u in users.Values
    ensures IsGet(verb) ==>
      forall u :: multiset(r.body.users)[u] == |set id | id in users && users[id] == u|
  {
    if !IsGet(verb) then MethodNotAllowed()
    else
      EnumerationLength(order, users);
      EnumeratedIdsAreStored(order, users);
      var list := Project(order, users);
      forall u ensures multiset(list)[u] == |set id | id in users && users[id] == u| {
        ProjectMultiplicity(order, users, u);
        SameIds(order, users);
        var a := set id | id in order && users[id] == u;
        var b := set id | id in users && users[id] == u;
        forall x | x in a ensures x in b {
          var k: int := x;
          assert k in order;
        }
        forall x | x in b ensures x in a {
          var k: int := x;
          assert k in users;
        }
        assert a == b;
      }
      forall id | id in users ensures users[id] in list {
        var k: int := id;
        var same := set id | id in users && users[id] == users[k];
        assert k in same;
        assert |same| > 0;
        assert multiset(list)[users[k]] > 0;
      }
      Response(StatusOK, UserList(list))
  }

  /** The users stored under the ids of `order`, in that order: the body of
      the `range` loop that appends every user. */
  function Project(order: seq<int>, users: Store): (list: seq<User>)
    requires forall i :: 0 <= i < |order| ==> order[i] in users
    ensures |list| == |order|
    ensures forall u :: u in list ==> u in users.Values
  {
    if order == [] then [] else [users[order[0]]] + Project(order[1..], users)
  }

  /** A user value occurs in the projection once per listed id storing it. */
  lemma {:induction false} ProjectMultiplicity(order: seq<int>, users: Store, u: User)
    requires forall i :: 0 <= i < |order| ==> order[i] in users
    requires forall i, j :: 0 <= i < j < |order| ==> order[i] != order[j]
    ensures multiset(Project(order, users))[u] == |set id | id in order && users[id] == u|
  {
    if order != [] {
      ProjectMultiplicity(order[1..], users, u);
      IdsSplit(order, users, u);
      assert Project(order, users) == [users[order[0]]] + Project(order[1..], users);
      assert multiset(Project(order, users))
          == multiset{users[order[0]]} + multiset(Project(order[1..], users));
    }
  }

  /** Splitting off the first listed id: the ids storing `u` are that id,
      when it stores `u`, and those among the rest of the list. */
  lemma IdsSplit(order: seq<int>, users: Store, u: User)
    requires order != []
    requires forall i :: 0 <= i < |order| ==> order[i] in users
    requires forall i, j :: 0 <= i < j < |order| ==> order[i] != order[j]
    ensures |set id | id in order && users[id] == u|
            == (if users[order[0]] == u then 1 else 0)
               + |set id | id in order[1..] && users[id] == u|
  {
    var here := set id | id in order && users[id] == u;
    var later := set id | id in order[1..] && users[id] == u;
    assert order[0] !in later;
    forall id | id in here && id != order[0] ensures id in later {
      var i :| 0 <= i < |order| && order[i] == id;
      assert order[1..][i - 1] == id;
    }
    if users[order[0]] == u {
      assert here == {order[0]} + later;
    } else {
      assert here == later;
    }
  }

  /** An enumeration and its store have the same ids. */
  lemma SameIds(order: seq<int>, users: Store)
    requires Enumerates(order, users)
    ensures forall id :: id in order <==> id in users
  {
    forall id | id in users ensures id in order {
      var k: int := id;
      assert k in users;
    }
    forall id | id in order ensures id in users {
      var k: int := id;
      assert k in order;
    }
  }

  /** Every id an enumeration lists is stored. */
  lemma EnumeratedIdsAreStored(order: seq<int>, users: Store)
    requires Enumerates(order, users)
    ensures forall i :: 0 <= i < |order| ==> order[i] in users
  {
    forall i | 0 <= i < |order| ensures order[i] in users {
      var k: int := order[i];
      assert k in order;
    }
  }

  /** An enumeration has exactly as many entries as the store has ids. */
  lemma EnumerationLength(order: seq<int>, users: Store)
    requires Enumerates(order, users)
    ensures |order| == |users|
  {
    DistinctCardinality(order);
    assert (set i | i in order) == users.Keys;
  }

  /** A duplicate-free sequence has as many elements as its set of entries. */
  lemma {:induction false} DistinctCardinality(order: seq<int>)
    requires forall i, j :: 0 <= i < j < |order| ==> order[i] != order[j]
    ensures |set i | i in order| == |order|
  {
    if order != [] {
      DistinctCardinality(order[1..]);
      assert (set i | i in order) == {order[0]} + (set i | i in order[1..]);
      assert order[0] !in order[1..];
    }
  }

  // ---------------------------------------------------------------- /search

  /** A user is a search hit when the query occurs in the name or the e-mail. */
  predicate Matches(u: User, q: string)
  {
    Contains(u.name, q) || Contains(u.email, q)
  }

  /** The ids of the store whose user is a hit. */
  ghost function Hits(users: Store, q: string): set<int>
  {
    set id | id in users && Matches(users[id], q)
  }

  /** The scan of `searchUsers`: the hits among the users named by `order`,
      in that order. */
  function Filter(order: seq<int>, users: Store, q: string): (results: seq<User>)
    requires forall i :: 0 <= i < |order| ==> order[i] in users
    ensures |results| <= |order|
    ensures forall u :: u in results ==> Matches(u, q) && u in users.Values
    ensures forall i :: 0 <= i < |order| && Matches(users[order[i]], q) ==> users[order[i]] in results
  {
    if order == [] then []
    else
      var rest := Filter(order[1..], users, q);
      var u := users[order[0]];
      if Matches(u, q) then [u] + rest else rest
  }

  /** The scan keeps exactly one user per hit id (when `order` lists each id
      once). */
  lemma {:induction false} FilterCount(order: seq<int>, users: Store, q: string)
    requires forall i :: 0 <= i < |order| ==> order[i] in users
    requires forall i, j :: 0 <= i < j < |order| ==> order[i] != order[j]
    ensures |Filter(order, users, q)| == |set id | id in order && Matches(users[id], q)|
  {
    if order != [] {
      FilterCount(order[1..], users, q);
      var here := set id | id in order && Matches(users[id], q);
      var later := set id | id in order[1..] && Matches(users[id], q);
      assert order[0] !in later;
      if Matches(users[order[0]], q) {
        assert here == {order[0]} + later;
      } else {
        assert here == later;
      }
    }
  }

  /** Splitting off the first scanned id: the hit ids storing `u` are that
      id, when it is one, and those among the rest of the scan. */
  lemma HitIdsSplit(order: seq<int>, users: Store, q: string, u: User)
    requires order != []
    requires forall i :: 0 <= i < |order| ==> order[i] in users
    requires forall i, j :: 0 <= i < j < |order| ==> order[i] != order[j]
    ensures |set id | id in order && Matches(users[id], q) && users[id] == u|
            == (if Matches(users[order[0]], q) && users[order[0]] == u then 1 else 0)
               + |set id | id in order[1..] && Matches(users[id], q) && users[id] == u|
  {
    var here := set id | id in order && Matches(users[id], q) && users[id] == u;
    var later := set id | id in order[1..] && Matches(users[id], q) && users[id] == u;
    assert order[0] !in later;
    forall id | id in here && id != order[0] ensures id in later {
      var i :| 0 <= i < |order| && order[i] == id;
      assert order[1..][i - 1] == id;
    }
    if Matches(users[order[0]], q) && users[order[0]] == u {
      assert here == {order[0]} + later;
    } else {
      assert here == later;
    }
  }

  /** A hit occurs in the scan's results once per scanned id storing it;
      a user that is not a hit does not occur. */
  lemma {:induction false} FilterMultiplicity(order: seq<int>, users: Store, q: string, u: User)
    requires forall i :: 0 <= i < |order| ==> order[i] in users
    requires forall i, j :: 0 <= i < j < |order| ==> order[i] != order[j]
    ensures multiset(Filter(order, users, q))[u]
            == |set id | id in order && Matches(users[id], q) && users[id] == u|
  {
    if order != [] {
      FilterMultiplicity(order[1..], users, q, u);
      HitIdsSplit(order, users, q, u);
      var first, rest := users[order[0]], Filter(order[1..], users, q);
      if Matches(first, q) {
        assert Filter(order, users, q) == [first] + rest;
        assert multiset(Filter(order, users, q)) == multiset{first} + multiset(rest);
      } else {
        assert Filter(order, users, q) == rest;
      }
    }
  }

  /** `searchUsers`: 405 for a method other than GET, 400 for an empty query
      before any user is looked at, and otherwise 200 with exactly the users
      whose name or e-mail contains the query: every hit once, nothing else. */
  function SearchUsers(verb: string, q: string, users: Store, order: seq<int>): (r: Response)
    requires Enumerates(order, users)
    ensures !IsGet(verb) ==> r == MethodNotAllowed()
    ensures IsGet(verb) && q == "" ==> r.status == StatusBadRequest && r.body.ErrorText?
    ensures IsGet(verb) && q != "" ==> r.status == StatusOK && r.body.UserList?
    ensures IsGet(verb) && q != "" ==>
      forall id :: id in users ==> (users[id] in r.body.users <==> Matches(users[id], q))
    ensures IsGet(verb) && q != "" ==> forall u :: u in r.body.users ==> u in users.Values
    ensures IsGet(verb) && q != "" ==> |r.body.users| == |Hits(users, q)|
    ensures IsGet(verb) && q != "" ==>
      forall u :: multiset(r.body.users)[u] == |set id | id in Hits(users, q) && users[id] == u|
  {
    if !IsGet(verb) then MethodNotAllowed()
    else if q == "" then Response(StatusBadRequest, ErrorText("Query parameter 'q' is required"))
    else
      EnumeratedIdsAreStored(order, users);
      var results := Filter(order, users, q);
      FilterCount(order, users, q);
      assert (set id | id in order && Matches(users[id], q)) == Hits(users, q) by {
        forall id | id in users ensures id in order {
          var k: int := id;
          assert k in users;
        }
      }
      assert forall id :: id in users ==> (Matches(users[id], q) ==> users[id] in results) by {
        forall id | id in users && Matches(users[id], q) ensures users[id] in results {
          var i :| 0 <= i < |order| && order[i] == id;
        }
      }
      forall u ensures multiset(results)[u] == |set id | id in Hits(users, q) && users[id] == u| {
        FilterMultiplicity(order, users, q, u);
        SameIds(order, users);
        assert (set id | id in Hits(users, q) && users[id] == u)
            == (set id | id in order && Matches(users[id], q) && users[id] == u);
      }
      Response(StatusOK, UserList(results))
  }

  // ---------------------------------------------------------------- /users/{id}

  /** `getUser`. `id` is the outcome of parsing the path: `None` when it does
      not read as `/users/<integer>`. A cached id is answered from the cache;
      otherwise storage is consulted and a found user is added to the cache. */
  function GetUser(verb: string, id: Option<int>, users: Store, cache: Store): (s: Served)
    ensures !IsGet(verb) ==> s == Served(MethodNotAllowed(), cache)
    ensures IsGet(verb) && id.None? ==> s.response.status == StatusBadRequest && s.cache == cache
    // the cache only ever gains the requested entry, and keeps every other one
    ensures forall k :: k in cache ==> k in s.cache && s.cache[k] == cache[k]
    ensures forall k :: k in s.cache && k !in cache ==> id == Some(k) && k in users && s.cache[k] == users[k]
    // a hit answers from the cache; a miss answers from storage or with 404
    ensures IsGet(verb) && id.Some? && id.value in cache ==>
      s.response == Response(StatusOK, OneUser(cache[id.value])) && s.cache == cache
    ensures IsGet(verb) && id.Some? && id.value !in cache && id.value in users ==>
      s.response == Response(StatusOK, OneUser(users[id.value]))
      && s.cache == cache[id.value := users[id.value]]
    ensures IsGet(verb) && id.Some? && id.value !in cache && id.value !in users ==>
      s.response.status == StatusNotFound && s.cache == cache
  {
    if !IsGet(verb) then Served(MethodNotAllowed(), cache)
    else if id.None? then Served(Response(StatusBadRequest, ErrorText("Invalid user ID")), cache)
    else if id.value in cache then Served(Response(StatusOK, OneUser(cache[id.value])), cache)
    else if id.value !in users then Served(Response(StatusNotFound, ErrorText("User not found")), cache)
    else
      var user := users[id.value];
      Served(Response(StatusOK, OneUser(user)), cache[id.value := user])
  }

  /** The cache agrees with storage: every cached id is stored, with the
      same user. */
  ghost predicate Coherent(cache: Store, users: Store)
  {
    forall k :: k in cache ==> k in users && cache[k] == users[k]
  }

  /** The reference answer a lookup by id would give without any cache. */
  function DirectLookup(verb: string, id: Option<int>, users: Store): Response
  {
    if !IsGet(verb) then MethodNotAllowed()
    else if id.None? then Response(StatusBadRequest, ErrorText("Invalid user ID"))
    else if id.value in users then Response(StatusOK, OneUser(users[id.value]))
    else Response(StatusNotFound, ErrorText("User not found"))
  }

  /** A cache hit does not depend on storage at all. */
  lemma CacheHitIgnoresStorage(verb: string, id: int, users: Store, users': Store, cache: Store)
    requires id in cache
    ensures GetUser(verb, Some(id), users, cache) == GetUser(verb, Some(id), users', cache)
  {
  }

  /** A lookup keeps a coherent cache coherent. */
  lemma LookupKeepsCoherence(verb: string, id: Option<int>, users: Store, cache: Store)
    requires Coherent(cache, users)
    ensures Coherent(GetUser(verb, id, users, cache).cache, users)
  {
  }

  /** While the cache is coherent, the cache is invisible to clients: every
      lookup answers what storage alone would answer. */
  lemma CacheIsTransparent(verb: string, id: Option<int>, users: Store, cache: Store)
    requires Coherent(cache, users)
    ensures GetUser(verb, id, users, cache).response == DirectLookup(verb, id, users)
  {
    if id.Some? && id.value in cache {
      var k: int := id.value;
      assert k in cache;
    }
  }

  /** Asking twice for the same id gives the same answer, and the second
      request leaves the cache as the first one left it. */
  lemma RepeatedLookupIsStable(verb: string, id: Option<int>, users: Store, cache: Store)
    ensures
      var first := GetUser(verb, id, users, cache);
      GetUser(verb, id, users, first.cache) == Served(first.response, first.cache)
  {
  }

  // ---------------------------------------------------------------- /compute

  /** `computeExpensive`: the value of `expensiveComputation(20)`. The
      measured duration is not modelled. */
  function ComputeExpensive(verb: string): (r: Response)
    ensures !IsGet(verb) ==> r == MethodNotAllowed()
    ensures IsGet(verb) ==> r == Response(StatusOK, Computed(10946))
  {
    if !IsGet(verb) then MethodNotAllowed()
    else
      Recurrences.ExpensiveComputationOfTwenty();
      Response(StatusOK, Computed(Recurrences.ExpensiveComputation(20)))
  }

  // ---------------------------------------------------------------- method guard

  /** Every handler answers 405 to a method other than GET, and a rejected
      lookup leaves the cache as it was; with GET no handler answers 405. */
  lemma OnlyGetIsServed(verb: string, id: Option<int>, q: string, users: Store, cache: Store, order: seq<int>)
    requires Enumerates(order, users)
    ensures !IsGet(verb) <==> GetAllUsers(verb, users, order).status == StatusMethodNotAllowed
    ensures !IsGet(verb) <==> GetUser(verb, id, users, cache).response.status == StatusMethodNotAllowed
    ensures !IsGet(verb) <==> SearchUsers(verb, q, users, order).status == StatusMethodNotAllowed
    ensures !IsGet(verb) <==> ComputeExpensive(verb).status == StatusMethodNotAllowed
    ensures !IsGet(verb) ==> GetUser(verb, id, users, cache).cache == cache
  {
  }
}

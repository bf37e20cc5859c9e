/** The store as a value: the list of users and the id counter, and what each
    route does to them. The class in module Server runs these steps in place. */
module UserTable {
  import opened Schema

  /** The module-level `users` array and `uniqueID` counter. */
  datatype Table = Table(users: seq<User>, counter: int)

  /** What a route answers: 200 with a body, 400 naming the failing key, or 404. */
  datatype Reply<T> = Ok(value: T) | BadRequest(field: Field) | NotFound

  /** The store after a route, together with the route's reply. */
  datatype Outcome<T> = Outcome(table: Table, reply: Reply<T>)

  predicate IdsDistinct(s: seq<User>) {
    forall i, j :: 0 <= i < j < |s| ==> s[i].id != s[j].id
  }

  /** The store invariant: ids are pairwise distinct and none exceeds the counter. */
  predicate Consistent(t: Table) {
    && IdsDistinct(t.users)
    && forall i :: 0 <= i < |t.users| ==> t.users[i].id <= t.counter
  }

  /** `k` is the position of the first record whose id is `id`. */
  predicate FirstMatch(s: seq<User>, id: int, k: int) {
    && 0 <= k < |s|
    && s[k].id == id
    && forall j :: 0 <= j < k ==> s[j].id != id
  }

  /** The position `users.find(user => user.id === id)` stops at. */
  function FindIndex(s: seq<User>, id: int): (r: Option<nat>)
    ensures r.Some? ==> FirstMatch(s, id, r.value)
    ensures r.None? <==> forall j :: 0 <= j < |s| ==> s[j].id != id
  {
    if |s| == 0 then None
    else if s[0].id == id then Some(0)
    else match FindIndex(s[1..], id)
      case None => None
      case Some(k) => Some(k + 1)
  }

  /** `Math.max` over the ids of a non-empty list. */
  function MaxId(s: seq<User>): (m: int)
    requires |s| > 0
    ensures exists i :: 0 <= i < |s| && s[i].id == m
    ensures forall i :: 0 <= i < |s| ==> s[i].id <= m
  {
    if |s| == 1 then s[0].id
    else
      var rest := MaxId(s[1..]);
      if s[0].id >= rest then s[0].id else rest
  }

  /** Startup: the parsed file, or None when the file is missing or unreadable.
      The counter is recovered as the largest stored id, or 0 for no records. */
  function Loaded(file: Option<seq<User>>): (t: Table)
    requires file.Some? ==> IdsDistinct(file.value)
    ensures Consistent(t)
    ensures file.None? ==> t == Table([], 0)
    ensures file.Some? ==> t.users == file.value
    ensures t.users == [] ==> t.counter == 0
    ensures t.users != [] ==> exists i :: 0 <= i < |t.users| && t.users[i].id == t.counter
  {
    match file
    case None => Table([], 0)
    case Some(s) => Table(s, if |s| > 0 then MaxId(s) else 0)
  }

  /** GET /users/:id: the first record with that id, or 404. */
  function Lookup(s: seq<User>, id: int): (r: Reply<User>)
    ensures !r.BadRequest?
    ensures r.NotFound? <==> forall j :: 0 <= j < |s| ==> s[j].id != id
    ensures r.Ok? ==> exists k :: FirstMatch(s, id, k) && r.value == s[k]
  {
    match FindIndex(s, id)
    case None => NotFound
    case Some(k) => Ok(s[k])
  }

  /** POST /users. */
  function Created(t: Table, p: Payload): (o: Outcome<int>)
    ensures Validate(p).Some? ==> o == Outcome(t, BadRequest(Validate(p).value))
    ensures Validate(p).None? ==>
              && o.table.counter == t.counter + 1
              && o.reply == Ok(o.table.counter)
              && |o.table.users| == |t.users| + 1
              && o.table.users[..|t.users|] == t.users
              && o.table.users[|t.users|] == WithId(o.table.counter, p)
  {
    match Validate(p)
    case Some(f) => Outcome(t, BadRequest(f))
    case None =>
      var id := t.counter + 1;
      Outcome(Table(t.users + [WithId(id, p)], id), Ok(id))
  }

  /** PUT /users/:id: the body is validated before the id is looked up. */
  function Updated(t: Table, id: int, p: Payload): (o: Outcome<User>)
    ensures Validate(p).Some? ==> o == Outcome(t, BadRequest(Validate(p).value))
    ensures Validate(p).None? && FindIndex(t.users, id).None? ==> o == Outcome(t, NotFound)
    ensures Validate(p).None? && FindIndex(t.users, id).Some? ==>
              var k := FindIndex(t.users, id).value;
              && o.table.counter == t.counter
              && |o.table.users| == |t.users|
              && o.table.users[k] == WithId(id, p)
              && (forall j :: 0 <= j < |t.users| && j != k ==> o.table.users[j] == t.users[j])
              && o.reply == Ok(o.table.users[k])
  {
    match Validate(p)
    case Some(f) => Outcome(t, BadRequest(f))
    case None =>
      match FindIndex(t.users, id)
      case None => Outcome(t, NotFound)
      case Some(k) =>
        var user := t.users[k].(firstName := p.firstName, secondName := p.secondName,
                                age := p.age, city := p.city);
        Outcome(t.(users := t.users[k := user]), Ok(user))
  }

  /** DELETE /users/:id. */
  function Removed(t: Table, id: int): (o: Outcome<User>)
    ensures FindIndex(t.users, id).None? ==> o == Outcome(t, NotFound)
    ensures FindIndex(t.users, id).Some? ==>
              var k := FindIndex(t.users, id).value;
              && o.reply == Ok(t.users[k])
              && o.table.counter == t.counter
              && |o.table.users| == |t.users| - 1
              && o.table.users[..k] == t.users[..k]
              && o.table.users[k..] == t.users[k + 1..]
  {
    match FindIndex(t.users, id)
    case None => Outcome(t, NotFound)
    case Some(k) => Outcome(t.(users := t.users[..k] + t.users[k + 1..]), Ok(t.users[k]))
  }

  /** POST keeps the store invariant. */
  lemma CreatedConsistent(t: Table, p: Payload)
    requires Consistent(t)
    ensures Consistent(Created(t, p).table)
  {
  }

  /** PUT keeps the store invariant: ids are not touched. */
  lemma UpdatedConsistent(t: Table, id: int, p: Payload)
    requires Consistent(t)
    ensures Consistent(Updated(t, id, p).table)
  {
  }

  /** DELETE keeps the store invariant. */
  lemma RemovedConsistent(t: Table, id: int)
    requires Consistent(t)
    ensures Consistent(Removed(t, id).table)
  {
  }

  /** POST followed by GET of the returned id gives back the posted fields under that id. */
  lemma CreateThenLookup(t: Table, p: Payload)
    requires Consistent(t)
    requires Validate(p).None?
    ensures Created(t, p).reply == Ok(t.counter + 1)
    ensures Lookup(Created(t, p).table.users, t.counter + 1) == Ok(WithId(t.counter + 1, p))
  {
  }

  /** PUT followed by GET of the same id gives back the new fields under the old id. */
  lemma UpdateThenLookup(t: Table, id: int, p: Payload)
    requires Validate(p).None?
    requires FindIndex(t.users, id).Some?
    ensures Lookup(Updated(t, id, p).table.users, id) == Ok(WithId(id, p))
  {
  }

  /** After a successful DELETE the id is gone and exactly one record, the
      returned one, has left the store. */
  lemma RemoveThenLookup(t: Table, id: int)
    requires Consistent(t)
    requires Removed(t, id).reply.Ok?
    ensures Lookup(Removed(t, id).table.users, id) == NotFound
    ensures multiset(Removed(t, id).table.users) + multiset{Removed(t, id).reply.value} == multiset(t.users)
  {
    var k := FindIndex(t.users, id).value;
    var s := Removed(t, id).table.users;
    assert t.users == t.users[..k] + [t.users[k]] + t.users[k + 1..];
    assert s == t.users[..k] + t.users[k + 1..];
    forall j | 0 <= j < |s| ensures s[j].id != id {
      if j < k {
        assert s[j] == t.users[j];
      } else {
        assert s[j] == t.users[j + 1];
      }
    }
  }
}

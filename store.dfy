/** The process-wide store and the route handlers that update it in place. */
module Server {
  import opened Schema
  import opened UserTable

  class Store {
    /** The module-level `users` array. */
    var users: seq<User>
    /** The module-level `uniqueID` counter. */
    var uniqueID: int

    function Snapshot(): (t: Table)
      reads this
    {
      Table(users, uniqueID)
    }

    ghost predicate Valid()
      reads this
    {
      Consistent(Snapshot())
    }

    /** The globals before the file is read: no users, counter 0. */
    constructor ()
      ensures Valid()
      ensures Snapshot() == Table([], 0)
    {
      users := [];
      uniqueID := 0;
    }

    /** `loadUsersFromFile`: `file` is the parsed contents, or None when reading
        or parsing failed. */
    method Load(file: Option<seq<User>>)
      requires file.Some? ==> IdsDistinct(file.value)
      modifies this
      ensures Valid()
      ensures Snapshot() == Loaded(file)
    {
      match file
      case Some(s) =>
        users := s;
        uniqueID := if |users| > 0 then MaxId(users) else 0;
      case None =>
        users := [];
        uniqueID := 0;
    }

    /** GET /users: every record, in stored order. */
    method List() returns (r: seq<User>)
      ensures r == users
    {
      r := users;
    }

    /** GET /users/:id. */
    method Get(id: int) returns (r: Reply<User>)
      ensures r == Lookup(users, id)
    {
      var found := FindIndex(users, id);
      if found.Some? {
        r := Ok(users[found.value]);
      } else {
        r := NotFound;
      }
    }

    /** POST /users. */
    method Create(p: Payload) returns (r: Reply<int>)
      requires Valid()
      modifies this
      ensures Valid()
      ensures Snapshot() == Created(old(Snapshot()), p).table
      ensures r == Created(old(Snapshot()), p).reply
    {
      CreatedConsistent(Snapshot(), p);
      var error := Validate(p);
      if error.Some? {
        return BadRequest(error.value);
      }
      uniqueID := uniqueID + 1;
      var newUser := WithId(uniqueID, p);
      users := users + [newUser];
      r := Ok(uniqueID);
    }

    /** PUT /users/:id. */
    method Update(id: int, p: Payload) returns (r: Reply<User>)
      requires Valid()
      modifies this
      ensures Valid()
      ensures Snapshot() == Updated(old(Snapshot()), id, p).table
      ensures r == Updated(old(Snapshot()), id, p).reply
    {
      UpdatedConsistent(Snapshot(), id, p);
      var error := Validate(p);
      if error.Some? {
        return BadRequest(error.value);
      }
      var found := FindIndex(users, id);
      if found.Some? {
        var k := found.value;
        var user := users[k];
        user := user.(firstName := p.firstName, secondName := p.secondName, age := p.age, city := p.city);
        users := users[k := user];
        r := Ok(user);
      } else {
        r := NotFound;
      }
    }

    /** DELETE /users/:id. */
    method Delete(id: int) returns (r: Reply<User>)
      requires Valid()
      modifies this
      ensures Valid()
      ensures Snapshot() == Removed(old(Snapshot()), id).table
      ensures r == Removed(old(Snapshot()), id).reply
    {
      RemovedConsistent(Snapshot(), id);
      var found := FindIndex(users, id);
      if found.Some? {
        var userIndex := found.value;
        var user := users[userIndex];
        users := users[..userIndex] + users[userIndex + 1..];
        r := Ok(user);
      } else {
        r := NotFound;
      }
    }
  }
}

/** A run of the process: the store after a sequence of requests, the ids the
    POST requests hand out, and what a restart recovers from the saved file. */
module Requests {
  import opened Schema
  import opened UserTable

  datatype Request =
    | ListUsers
    | GetUser(id: int)
    | PostUser(body: Payload)
    | PutUser(id: int, body: Payload)
    | DeleteUser(id: int)

  function Step(t: Table, q: Request): (t': Table) {
    match q
    case ListUsers => t
    case GetUser(_) => t
    case PostUser(p) => Created(t, p).table
    case PutUser(id, p) => Updated(t, id, p).table
    case DeleteUser(id) => Removed(t, id).table
  }

  /** The id a request hands out: only a POST with a valid body does. */
  function IssuedBy(t: Table, q: Request): (ids: seq<int>) {
    if q.PostUser? && Created(t, q.body).reply.Ok? then [Created(t, q.body).reply.value] else []
  }

  function Run(t: Table, qs: seq<Request>): (t': Table)
    decreases |qs|
  {
    if qs == [] then t else Run(Step(t, qs[0]), qs[1..])
  }

  /** The ids returned by the successful POSTs of a run, in order. */
  function Issued(t: Table, qs: seq<Request>): (ids: seq<int>)
    decreases |qs|
  {
    if qs == [] then [] else IssuedBy(t, qs[0]) + Issued(Step(t, qs[0]), qs[1..])
  }

  lemma StepConsistent(t: Table, q: Request)
    requires Consistent(t)
    ensures Consistent(Step(t, q))
  {
  }

  /** Every request keeps the store invariant. */
  lemma {:induction false} RunConsistent(t: Table, qs: seq<Request>)
    requires Consistent(t)
    ensures Consistent(Run(t, qs))
    decreases |qs|
  {
    if qs != [] {
      StepConsistent(t, qs[0]);
      RunConsistent(Step(t, qs[0]), qs[1..]);
    }
  }

  /** Within a run the counter never goes down. */
  lemma {:induction false} CounterMonotone(t: Table, qs: seq<Request>)
    ensures Run(t, qs).counter >= t.counter
    decreases |qs|
  {
    if qs != [] {
      CounterMonotone(Step(t, qs[0]), qs[1..]);
    }
  }

  /** The ids a run hands out are strictly increasing, all above the counter the
      run started from and none above the counter it ends with. */
  lemma {:induction false} IssuedIncreasing(t: Table, qs: seq<Request>)
    ensures forall i :: 0 <= i < |Issued(t, qs)| ==> t.counter < Issued(t, qs)[i] <= Run(t, qs).counter
    ensures forall i, j :: 0 <= i < j < |Issued(t, qs)| ==> Issued(t, qs)[i] < Issued(t, qs)[j]
    decreases |qs|
  {
    if qs != [] {
      var t' := Step(t, qs[0]);
      IssuedIncreasing(t', qs[1..]);
      CounterMonotone(t', qs[1..]);
      var head := IssuedBy(t, qs[0]);
      var tail := Issued(t', qs[1..]);
      assert Issued(t, qs) == head + tail;
      assert t'.counter == if head == [] then t.counter else head[0];
    }
  }

  /** No id present in the store at some point is handed out again later in the
      run, even when its record has been deleted in between. */
  lemma NoIdReused(t: Table, qs: seq<Request>, k: nat)
    requires Consistent(t)
    requires k < |t.users|
    ensures t.users[k].id !in Issued(t, qs)
  {
    IssuedIncreasing(t, qs);
  }

  /** In particular, the id freed by a DELETE is never handed out by a later POST. */
  lemma DeletedIdNotReissued(t: Table, id: int, qs: seq<Request>)
    requires Consistent(t)
    requires Removed(t, id).reply.Ok?
    ensures id !in Issued(Removed(t, id).table, qs)
  {
    IssuedIncreasing(Removed(t, id).table, qs);
  }

  /** Saving writes `users`; loading that content back gives the same records
      and a counter no larger than the one the run had reached. */
  lemma ReloadKeepsRecords(t: Table)
    requires Consistent(t)
    requires t.counter >= 0
    ensures Loaded(Some(t.users)).users == t.users
    ensures Loaded(Some(t.users)).counter <= t.counter
  {
  }

  /** Across a restart an id can be issued twice: create id 1, delete it, restart
      from the saved (now empty) file, and the next POST returns id 1 again. */
  lemma RestartReusesId(p: Payload)
    requires Validate(p).None?
    ensures var first := Created(Loaded(None), p);
            var afterDelete := Removed(first.table, 1).table;
            var restarted := Loaded(Some(afterDelete.users));
            && first.reply == Ok(1)
            && Removed(first.table, 1).reply.Ok?
            && Created(restarted, p).reply == Ok(1)
  {
  }
}

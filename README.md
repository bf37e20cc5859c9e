# User store of the node-dz4 service

The service keeps its users in a process-wide array `users` and hands out ids
from a counter `uniqueID`. At startup it reads the array from a JSON file and
recovers the counter as the largest stored id. Four routes act on single
records. GET `/users/:id` finds a record. POST `/users` validates the body
and appends it under a fresh id. PUT `/users/:id` validates the body and
overwrites every field except `id`. DELETE `/users/:id` removes a record.
GET `/users` lists everything.

The model has four modules:

- `Schema` (schema.dfy): the request body (`Payload`) and the stored record (`User`). It also holds the body schema as `Validate`, which returns the first key whose rule fails, or `None`.
- `UserTable` (table.dfy): the store as a value (`Table`: the records and the counter), and each route as a function from the old store to the new store and the reply. A reply is `Ok(body)`, `BadRequest(field)` or `NotFound`.
- `Server` (store.dfy): class `Store`, whose `users` and `uniqueID` fields the handlers update in place. Each method follows its handler step by step. Its `ensures` ties the new state and the reply to the matching `UserTable` function, and it keeps the invariant `Valid()`: ids are pairwise distinct and none exceeds the counter.
- `Requests` (requests.dfy): a process run, meaning a sequence of requests applied to a store. It states what holds across several requests: the counter never decreases, issued ids strictly increase, and ids are not reused.

One would expect ids never to be reused after a deletion. The code keeps
that only within one process run, once the load has finished, and while the
counter stays below 2^53. On restart the counter is
recomputed from the records in the file, so when the record with the highest
id has been deleted, the next POST after a restart issues that id again.
`Requests.RestartReusesId` shows this with the smallest example. The model
follows the code.

## Model

| member | source | states |
|---|---|---|
| `Schema.Validate` | index.js:11-16 | a body is accepted exactly when `firstName` and `secondName` are non-empty, `age` is in [0,150] and `city` is absent or non-empty; otherwise the reported key breaks its rule and every key listed before it satisfies its own |
| `UserTable.FindIndex` | index.js:48 | the result is the position of the first record with the id; None exactly when no record has it |
| `UserTable.MaxId` | index.js:24 | the result is the id of some record and no record's id exceeds it |
| `UserTable.Loaded` | index.js:20-30 | a failed read gives no records and counter 0; a read file keeps its records, and the counter is 0 for no records or else equals some stored id; in both cases every id is at most the counter |
| `UserTable.Lookup` | index.js:46-54 | the reply is the first record with the id, or NotFound exactly when no record has it; never BadRequest |
| `UserTable.Created` | index.js:56-71 | an invalid body gives BadRequest for the failing key with store and counter unchanged; a valid body raises the counter by one, appends one record, `Schema.WithId` of the new counter and the body, so its id is the new counter and its other fields are the body's, keeps all earlier records in order and replies with the new id |
| `UserTable.Updated` | index.js:73-94 | an invalid body gives BadRequest with nothing changed, even for an unknown id; an unknown id gives NotFound with nothing changed; otherwise only the first matching record changes, to the body's fields under the same id at the same position, the counter stays, and the reply is the updated record |
| `UserTable.Removed` | index.js:96-108 | an unknown id gives NotFound with nothing changed; otherwise the reply is the first matching record, the list loses exactly that position with the records before and after it in order, and the counter stays |
| `UserTable.CreatedConsistent` | index.js:62-68 | POST keeps ids distinct and at most the counter |
| `UserTable.UpdatedConsistent` | index.js:80-87 | PUT keeps ids distinct and at most the counter |
| `UserTable.RemovedConsistent` | index.js:98-102 | DELETE keeps ids distinct and at most the counter |
| `UserTable.CreateThenLookup` | index.js:62-70 | after a valid POST, GET of the returned id gives the posted fields under that id |
| `UserTable.UpdateThenLookup` | index.js:80-90 | after a valid PUT of an existing id, GET of that id gives the new fields under the same id |
| `UserTable.RemoveThenLookup` | index.js:97-104 | after a successful DELETE, GET of that id gives NotFound, and the records left plus the reply make up the old records as a multiset |
| `Server.Store.constructor` | index.js:8-10 | the store starts with no records and counter 0 |
| `Server.Store.Load` | index.js:20-30 | the new state is `Loaded(file)`, and the invariant holds after it |
| `Server.Store.List` | index.js:42-44 | the reply is every stored record in stored order |
| `Server.Store.Get` | index.js:46-54 | the reply is `Lookup` of the current records; nothing changes |
| `Server.Store.Create` | index.js:56-71 | the new state and the reply are those of `Created` on the old state; the invariant is kept |
| `Server.Store.Update` | index.js:73-94 | the new state and the reply are those of `Updated` on the old state; the invariant is kept |
| `Server.Store.Delete` | index.js:96-108 | the new state and the reply are those of `Removed` on the old state; the invariant is kept |
| `Requests.RunConsistent` | index.js:56-108 | from a consistent store, any sequence of requests leaves the store consistent |
| `Requests.CounterMonotone` | index.js:62 | within a run the counter never decreases |
| `Requests.IssuedIncreasing` | index.js:62-70 | the ids a run's POSTs return are strictly increasing, above the starting counter and at most the final one |
| `Requests.NoIdReused` | index.js:62-70 | no id stored at the start of a run is returned by any later POST of the run |
| `Requests.DeletedIdNotReissued` | index.js:62-102 | the id freed by a DELETE is never returned by a later POST in the same run |
| `Requests.ReloadKeepsRecords` | index.js:20-38 | loading the saved records gives back the same records, with a counter no larger than the one before the restart |
| `Requests.RestartReusesId` | index.js:20-30 | create id 1, delete it, and restart from the saved empty list: the next POST returns id 1 again |

## Left out

- HTTP: Express routing, `app.listen`, request and response objects, and JSON envelopes. A reply is the `Reply` datatype. `BadRequest` carries the first failing key and not the library's full error detail.
- File I/O. `fs.readFile`, `JSON.parse` and their failures are modelled by `Load` taking the parsed list, or `None` when reading or parsing fails. The same `catch` also covers a throwing counter recovery, which is not modelled (see `UserTable.Loaded` below). `saveUsersToFile` has no effect on the store, so it is not modelled as a call. What it writes is the `users` list, which `ReloadKeepsRecords` feeds back to `Loaded`. Console logging is left out.
- `Server.Store.Load`, `UserTable.Loaded`: the loaded file must hold records with distinct ids. A file with duplicate ids, a record without a numeric `id`, a record with keys other than the five, or a non-array value is not modelled. PUT assigns only the four payload keys, so it overwrites every field except `id` only for five-key records.
- Validation library internals. The body is typed as exactly the four schema keys, so missing keys, wrong JSON types, unknown keys (such as an `id` in the body) and the library's type conversion are not modelled.
- `UserTable.Created`, `UserTable.Loaded`, `Requests.RunConsistent`, `Requests.IssuedIncreasing`, `Requests.NoIdReused`, `Requests.DeletedIdNotReissued`: ids and the counter are unbounded integers here, but in the source they are JavaScript numbers. Above 2^53, `uniqueID += 1` at index.js:62 no longer changes the value. From a counter of 2^53 − 1 (loaded, or reached after that many POSTs), two POSTs would both issue 2^53, and the store would hold a duplicate id. So the uniqueness and freshness these members state hold of the source only while every POST starts from a counter below 2^53.
- `Schema.Validate`: `age` is an integer, not a floating-point number. Only the bounds check is modelled.
- The path parameter is an `int`. The string-to-number coercion of `+req.params.id`, and its NaN result that matches no record, are not modelled.
- Object identity. Records are values, and PUT's field assignments become a replacement of the record at its position. `users.indexOf(user)` in DELETE is the position that `FindIndex` returns, because no earlier record has that id.
- `Server.Store.Load` and the `Requests` run lemmas: a run starts only after the load has finished. The source starts the load at index.js:40 without waiting for it and then serves requests. A request served while the read is pending acts on the empty store with counter 0, and the finishing load then overwrites both globals. So a GET may answer 404 for a stored id, and an id issued early may be reused by a record from the file. That POST's save may also overwrite the file being read. None of this interleaving is modelled.
- `UserTable.Loaded`: a read file is always kept, whatever its length. The source passes every id to `Math.max` as a separate argument at index.js:24. For a file above the engine's argument limit (engine-dependent, around 10^5 records) that call throws. The same `catch` then empties the store and resets the counter, and the next save overwrites the file. The model does not capture this size limit.
- Overlapping requests and the race between concurrent file writes. Each route runs to completion before the next one starts.

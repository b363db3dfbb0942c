# Mutation engine of the generic ORM mixins

This project models, in Dafny, the write side of the generic SQLAlchemy mixins of the
FastAPI ORM template: `AsyncCreateMixin` (insert, save, upsert, bulk insert) and
`UpdateMixin` (update by instance, by id, by object list, by filter, and over the whole
table), together with the commit/rollback handling wrapped around each of them.

- `Records` (records.dfy): column values (`Null` is Python's `None`), rows and requests as
  maps from column name to value, the exceptions the mixins raise, and the pure rules for
  writing a request into a row. The rules are: the generated `id` added when absent, raw
  assignment, the instance-update rule that skips `id` and `None`, and the upsert
  conflict-update set.
- `Store` (store.dfy): the table is a sequence of rows whose `id` column carries the
  primary-key constraint (non-NULL, no two rows alike). It holds the effect of each
  statement the mixins build (UPDATE ... WHERE, INSERT ... ON CONFLICT DO UPDATE), lookup by
  id and selection by filter. It also holds the `Session` class with its `committed`
  table and its `pending` table. `pending` is the table as the open transaction sees it.
  `Execute` runs a statement and checks it at once; `Add` adds an ORM object, which is
  checked when it is flushed at `Commit`; `Commit` copies pending to committed;
  `Rollback` copies committed to pending.
- `UpdateMixin` (update.dfy) and `CreateMixin` (create.dfy): one method per mixin
  operation, taking the session, the operation's flags (`autoCommit`, `checkExists`,
  `ormWay`, `returning`) and the request. The `setattr` loops are `while` loops over the
  request's keys, one `SetAttr` per key, on the object's row in `pending`.

An ORM object attached to the session is denoted by its position in `pending`, which plays
the part of the session's identity map. `create_unique_id` is a parameter (`newId`, or
`gen(i)` for entry `i` of a bulk insert); nothing assumes it is fresh, so a collision
shows up as an IntegrityError. A driver failure is the parameter `fault`: the first call
the operation makes into the store raises.

Behaviour modelled as the code is written:
- The insert and upsert error handlers log `kwargs['id']`. On the ORM way without an
  `id`, that read raises KeyError in place of the original error (create.py:82, 90, 229).
- The statement paths of `async_update_by_id` and `async_update_by_where` call
  `.scalars()` on an UPDATE that has no RETURNING when `returning` is false. That raises
  ResourceClosedError after the update ran, and the handler rolls back when `auto_commit`
  is set.
- The statement paths (`async_update_by_id` without `check_exists`, `async_update_by_where`,
  `async_update_all`) write the request as given, `None` included; only the instance paths
  skip `None`. `async_update_by_where` and `async_update_all` also write `id` as given, so a
  request naming `id` there can change a primary key, and `async_update_all` with `id`
  always fails on a table of two rows or more. `async_update_by_id` takes `id` as a named
  parameter, so its `kwargs` never holds `id`.
- The statement way of `async_upsert` builds `on_conflict_do_update` with the request minus
  `id`; for a request naming only `id` that set is empty, SQLAlchemy refuses it with a
  ValueError before any statement runs, and the handler rolls back under `auto_commit`.
- `kwargs` of `async_insert`/`async_upsert` is the callee's own dictionary, so the `id`
  added at create.py:60 and 198 is not seen by the caller. The entries of `raw_data` in
  `async_bulk_insert` are the caller's dictionaries and do receive their ids; they are an
  `array` here.

Update statements write `id` as given; only the instance paths skip it. A statement-way insert
without `returning` returns None; the ORM way returns the new object. Other failures are re-raised unchanged.

## Model

| member | source | states |
|---|---|---|
| Records.WithId | app/src/databases/rdb/mixins/async_/create.py:59-60 | the inserted request gains exactly the key `id`; every supplied value, a supplied `id` included, is kept; a generated id is used only when `id` is absent |
| Records.Assign | app/src/databases/rdb/mixins/async_/create.py:118-119 | raw assignment: every requested column takes the requested value (`id` and `None` included), every other column keeps its value |
| Records.Assignments | app/src/databases/rdb/mixins/update.py:43-47 | an instance update writes exactly the requested keys other than `id` whose value is not None, with the requested values |
| Records.ApplyUpdate | app/src/databases/rdb/mixins/update.py:43-47 | after an instance update the object's `id` is unchanged; fields requested as None keep their prior value; every other requested field equals the request; unrequested fields are unchanged |
| Records.UpdateSet | app/src/databases/rdb/mixins/async_/create.py:200-202 | the conflict-update set is the request minus `id`, with the request's values |
| Records.ApplyUpdateIdempotent | app/src/databases/rdb/mixins/update.py:43-47 | applying the same instance update twice gives the object that applying it once gives |
| Records.CleanRequestWrittenAlike | app/src/databases/rdb/mixins/update.py:96-113 | for a request without `id` and without None, the instance update and the statement update write the same row |
| Records.UpsertStrategiesAgree | app/src/databases/rdb/mixins/async_/create.py:175-209 | on an existing row, the statement upsert and the check-then-update upsert write the same row when no requested value is None |
| Records.UpsertStrategiesDifferOnNone | app/src/databases/rdb/mixins/async_/create.py:175-209 | a request setting a nullable column to None on a row where it holds a value: the statement upsert writes NULL, the check-then-update upsert keeps the stored value |
| Store.IndexOf | app/src/databases/rdb/mixins/async_/create.py:176-179 | lookup by primary key returns the first row carrying the id, or nothing exactly when no row carries it; NULL matches no row |
| Store.Matches | app/src/databases/rdb/mixins/update.py:209-211 | selection with the limit disabled returns every row satisfying the filter, only those, in table order |
| Store.UpdatedWhere | app/src/databases/rdb/mixins/update.py:220-222 | an UPDATE by filter keeps the table's length, gives every matching row each requested value, keeps unrequested columns, and leaves non-matching rows unchanged |
| Store.UpdatedAt | app/src/databases/rdb/mixins/update.py:155-161 | an instance update of a set of objects changes no other row and never changes an object's `id` |
| Store.Upserted | app/src/databases/rdb/mixins/async_/create.py:205-209 | on a new id the row is appended as given; on an existing id every non-`id` requested field is overwritten, the `id` and unrequested fields are kept, and no other row changes |
| Store.StatementError | app/src/databases/rdb/mixins/async_/create.py:66-71 | the store's acceptance rule for `execute` and `commit`: a driver failure raises; otherwise the statement or flush is refused with an IntegrityError exactly when the table it would leave breaks the primary-key constraint |
| Store.InsertAccepted | app/src/databases/rdb/mixins/async_/create.py:77-84 | a constrained table accepts a new row exactly when its id is non-NULL and no row has it, so inserting an existing id is an IntegrityError |
| Store.UpdateByIdTwoMatchesRejected | app/src/databases/rdb/mixins/update.py:107-111 | an update by id touching two rows cannot leave the table constrained, so a successful one returns at most one row to `one_or_none()` |
| Store.UpsertIdempotent | app/src/databases/rdb/mixins/async_/create.py:197-209 | applying the same statement upsert twice yields the same table as applying it once |
| Store.UpdatedAtStep | app/src/databases/rdb/mixins/update.py:156-161 | updating the objects one after another, a repeated object included, gives the instance update of the set of objects |
| Store.UpdateAllWithIdRejected | app/src/databases/rdb/mixins/update.py:261-262 | updating the whole table with a request naming `id` fails on the primary key whenever the table has two rows or more |
| Store.Session.Execute | app/src/databases/rdb/mixins/async_/create.py:66 | a statement either takes effect in the transaction or fails with its error and changes nothing; the committed table is untouched |
| Store.Session.Add | app/src/databases/rdb/mixins/async_/create.py:52 | an added object joins the transaction unchecked |
| Store.Session.SetAttr | app/src/databases/rdb/mixins/update.py:47 | `setattr` changes one column of one attached object and nothing else |
| Store.Session.Commit | app/src/databases/rdb/mixins/async_/create.py:70-71 | a commit flushes the transaction: it makes the pending table committed exactly when it succeeds, and keeps the committed table constrained |
| Store.Session.Rollback | app/src/databases/rdb/mixins/async_/create.py:78-79 | a rollback discards every pending write |
| UpdateMixin.AssignFields | app/src/databases/rdb/mixins/update.py:43-47 | the setattr loop leaves the object equal to the instance update of its prior state and changes no other row |
| UpdateMixin.Update | app/src/databases/rdb/mixins/update.py:17-61 | empty request: ValueError, nothing changes; otherwise the object receives the instance update; with `auto_commit` it is committed, and a failed commit rolls back and is re-raised; without it nothing can fail |
| UpdateMixin.UpdateById | app/src/databases/rdb/mixins/update.py:63-125 | empty request: ValueError; `kwargs` never holds `id`, which is a named parameter; `check_exists` on a missing id: NoResultFound with no rollback; a failing lookup is re-raised and leaves the transaction untouched without `auto_commit`; `check_exists` on a present id: instance update; otherwise the matching row receives the request as given, the result is None when no row has the id, and the commit happens only when a row came back; without `returning` the statement path fails with ResourceClosedError |
| UpdateMixin.UpdateObjects | app/src/databases/rdb/mixins/update.py:127-174 | empty request: ValueError; an empty list commits nothing and is returned; otherwise every listed object receives the instance update, the same list is returned, and a failed commit rolls back |
| UpdateMixin.UpdateByWhere | app/src/databases/rdb/mixins/update.py:176-237 | with `check_exists` the call always fails with TypeError (or the select's driver error), rolled back under `auto_commit`; otherwise every row satisfying the filter receives the request as given, other rows are unchanged, and the updated rows are returned |
| UpdateMixin.UpdateByWhereFixed | app/src/databases/rdb/mixins/update.py:208-218 | the intended `check_exists` path: a failing select fails the call, rolled back only under `auto_commit`; exactly the rows satisfying the filter receive the instance update, every other row is unchanged, and with no driver failure it succeeds exactly when `auto_commit` is off, nothing matched, or the updated table keeps the primary-key constraint, failing otherwise with IntegrityError |
| UpdateMixin.UpdateAll | app/src/databases/rdb/mixins/update.py:239-269 | empty request: ValueError; otherwise every row receives the request as given; a failure rolls back when `auto_commit` is set and is re-raised |
| UpdateMixin.UpdateByWherePathsAgree | app/src/databases/rdb/mixins/update.py:208-226 | for a request without `id` and without None, the intended `check_exists` path and the statement path leave the same table |
| CreateMixin.Insert | app/src/databases/rdb/mixins/async_/create.py:18-94 | empty request: ValueError before the session is touched; the new row is the request plus an id generated only when absent; it fails exactly when the driver fails or the constraint is violated (an existing id), and then rolls back only under `auto_commit`, keeping the committed table, and re-raises |
| CreateMixin.AssignAll | app/src/databases/rdb/mixins/async_/create.py:118-119 | the save loop leaves the object equal to the raw assignment of the request and changes no other row |
| CreateMixin.Save | app/src/databases/rdb/mixins/async_/create.py:96-142 | an attached object receives the request as given and is committed under `auto_commit`; a new object is returned updated but never reaches the session |
| CreateMixin.SaveAwaited | app/src/databases/rdb/mixins/async_/create.py:117-140 | with the existence check awaited, a failing lookup is re-raised after the assignment, rolled back only under `auto_commit`; otherwise a new object whose id no row has is added, so a successful commit persists it, and one whose id a row has is returned with the request assigned, and a commit refused by the primary key rolls back |
| CreateMixin.Upsert | app/src/databases/rdb/mixins/async_/create.py:144-233 | empty request: ValueError; statement way: a request naming only `id` is a ValueError from the empty update set, rolled back under `auto_commit`; otherwise the table becomes the upsert of the request plus id, and the returned row carries that id; ORM way: a found id gets the instance update, otherwise an ORM insert; its own handler never rolls back |
| CreateMixin.AssignIds | app/src/databases/rdb/mixins/async_/create.py:258-260 | after the id loop the list keeps its length and order, every entry has an `id`, entries that had one are unchanged, and the others gain the generated one |
| CreateMixin.BulkInsert | app/src/databases/rdb/mixins/async_/create.py:235-288 | the caller's entries receive their ids in place even when the insert fails; all entries are inserted in one statement; the result is `[]` without `returning`; a failure rolls back only under `auto_commit` |

## Left out

- `async`/`await` and event-loop scheduling, cancellation and concurrent use of a session: the model is sequential.
- `refresh` and store-side defaults and triggers (timestamps, the `server_default` of `point`). The `returning` flag of `async_update`, `async_update_objects` and `async_save` only triggers `refresh`, so it is not a parameter there.
- Logging: the row-count and error messages are not modelled. The KeyError that the `kwargs['id']` read in a log line raises is modelled.
- `create_unique_id`, `_build_where`, `async_get` and `async_select_by_where` are not part of this model. They are stood in for by a generated-id parameter, a filter predicate `Record -> bool`, lookup by id in the transaction's table, and selection of all matching rows.
- The ORM constructor (`AsyncBaseORM`) is not part of this model. A new ORM object is assumed to get its missing `id` from the same generator. Unknown column names and column types are not checked.
- Column constraints other than the primary key are not modelled: `TaskORM` declares `name` and `point` NOT NULL (app/src/resources/task/models.py:10-13), so on that table an insert or statement upsert that omits `name`, or writes None to either column, fails with an IntegrityError that the model does not raise.
- Objects that are not attached to the session (transient or detached) are modelled only for `async_save`. The update operations take attached objects, denoted by their row.
- Driver failures are a single `fault` flag on the operation's first store call. A commit that follows a successful statement in the same call does not fail. A failed statement does not abort the PostgreSQL transaction in the model.
- Autoflush before a statement is approximated: a statement is checked against the whole table it would leave, including unflushed ORM additions.
- `CreateMixin.BulkInsert`: on an empty `raw_data` the model inserts nothing; SQLAlchemy's handling of an empty parameter list is not modelled.
- `CreateMixin.BulkInsert`: the entries of `raw_data` are assumed to be distinct dicts. The array holds values, so aliasing is not captured: one dict listed twice gets a single id in the source (the second visit finds `id` set) and the insert fails on the primary key, while the model gives the two entries two ids.
- `UpdateMixin.Update`: the handler's `self.id` read after a rollback (update.py:55-57) is not modelled; under an async session a rollback expires the object and that read may raise in place of the commit's error, while the model reports the commit's error.
- `UpdateMixin.UpdateById`: on the `check_exists` path the failure comes from `async_update`, whose handler's `self.id` read after a rollback is not modelled; the model reports the commit's IntegrityError.
- `CreateMixin.Save`: for an attached object, the handler's `self.id` read after a rollback (create.py:134-138) is not modelled; the model reports the commit's error.
- `CreateMixin.SaveAwaited`: for an attached object, the handler's `self.id` read after a rollback is not modelled; the model reports the commit's error.
- `CreateMixin.Upsert`: on the ORM way with a found id the failure comes from `async_update`, whose handler's `self.id` read after a rollback is not modelled; the model reports the commit's IntegrityError.
- The Filter Builder's rules (AND within a mapping, OR across a sequence, an empty sequence matching nothing) are not modelled, because `_build_where` is not part of this model.

## Findings

| source | as written | input that shows it | evidently intended | confidence | as-written member | corrected member |
|---|---|---|---|---|---|---|
| app/src/databases/rdb/mixins/async_/create.py:121-126 | `async_get` is called without `await`; the coroutine is always truthy, so `add` never runs | `TaskORM(name="a").async_save(session)` on a new object: the commit succeeds and no row is inserted | add the object when no row has its id, so the commit persists it | not executed; high | CreateMixin.Save | CreateMixin.SaveAwaited |
| app/src/databases/rdb/mixins/update.py:213-218 | `async_update_objects` is called with `objects=`, but its parameter is `orm_objects` (update.py:131) | any non-empty request with `check_exists=True`, the default: TypeError, rolled back | pass the selected objects as `orm_objects` so the matching rows are updated | not executed; high | UpdateMixin.UpdateByWhere | UpdateMixin.UpdateByWhereFixed |

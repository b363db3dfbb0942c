/** Values, rows and mutation requests shared by the create and update mixins,
    and the pure field-assignment rules the mixins apply to a row. */
module Records {

  datatype Option<T> = None | Some(value: T)

  /** A column value. `Null` is Python's `None`, written to the store as SQL NULL. */
  datatype Value = Null | Text(text: string) | Int(number: int) | Bool(flag: bool)

  /** The column attributes of one row, or of the ORM object mapped to it. */
  type Record = map<string, Value>

  /** A mutation request: the `**kwargs` mapping of column name to new value. */
  type Request = map<string, Value>

  /** The primary-key column every mapped table has. */
  const ID: string := "id"

  /** The exceptions the mixins raise or let through. */
  datatype Error =
    | ValueError            // empty request
    | IntegrityError        // primary-key constraint violated (duplicate or NULL id)
    | NoResultFound         // lookup with allow_no_result=False found nothing
    | KeyError              // `kwargs['id']` read in an error handler when absent
    | TypeError             // call with a keyword the callee does not have
    | ResourceClosedError   // `.scalars()` on a statement without RETURNING
    | StoreError            // any other driver failure

  datatype Result<T> = Success(value: T) | Failure(error: Error)

  /** The request with a generated id added when it has none (create.py:59-60, 197-198). */
  function WithId(req: Request, newId: string): (r: Request)
    ensures r.Keys == req.Keys + {ID}
    ensures forall k :: k in req ==> r[k] == req[k]
    ensures ID !in req ==> r[ID] == Text(newId)
  {
    if ID in req then req else req[ID := Text(newId)]
  }

  /** Raw attribute assignment, `setattr` per key or `values(**kwargs)`: every requested
      column takes the requested value, None included; `id` is not protected. */
  function Assign(row: Record, req: Request): (r: Record)
    ensures r.Keys == row.Keys + req.Keys
    ensures forall k :: k in req ==> r[k] == req[k]
    ensures forall k :: k in row && k !in req ==> r[k] == row[k]
  {
    row + req
  }

  /** The part of a request an instance update writes: every key except `id` whose value
      is not None. */
  function Assignments(req: Request): (a: Request)
    ensures a.Keys <= req.Keys && ID !in a
    ensures forall k :: k in req ==> (k in a <==> k != ID && req[k] != Null)
    ensures forall k :: k in a ==> a[k] == req[k]
  {
    map k | k in req && k != ID && req[k] != Null :: req[k]
  }

  /** An instance update of one object (update.py:43-47, 156-161). */
  function ApplyUpdate(row: Record, req: Request): (r: Record)
    ensures r.Keys == row.Keys + Assignments(req).Keys
    ensures ID in row <==> ID in r
    ensures ID in row ==> r[ID] == row[ID]
    ensures forall k :: k in req && k != ID && req[k] != Null ==> r[k] == req[k]
    ensures forall k :: k in row && (k !in req || k == ID || req[k] == Null) ==> r[k] == row[k]
  {
    row + Assignments(req)
  }

  /** The upsert conflict-update set: the request minus `id` (create.py:200-202). */
  function UpdateSet(req: Request): (u: Request)
    ensures u.Keys == req.Keys - {ID}
    ensures forall k :: k in u ==> u[k] == req[k]
  {
    map k | k in req && k != ID :: req[k]
  }

  /** The keys of `req` that lie in `done`: the part of a request a loop has visited. */
  function Restrict(req: Request, done: set<string>): Request
  {
    map k | k in req && k in done :: req[k]
  }

  /** Applying the same instance update twice gives the object it gives once. */
  lemma ApplyUpdateIdempotent(row: Record, req: Request)
    ensures ApplyUpdate(ApplyUpdate(row, req), req) == ApplyUpdate(row, req)
  {
    var once := ApplyUpdate(row, req);
    var twice := ApplyUpdate(once, req);
    assert twice.Keys == once.Keys;
    forall k | k in once ensures twice[k] == once[k] {
      if k in Assignments(req) {
        assert twice[k] == req[k] == once[k];
      }
    }
  }

  /** One more visited key extends the instance update by at most that key. */
  lemma ApplyUpdateStep(row: Record, req: Request, done: set<string>, k: string)
    requires k in req
    ensures ApplyUpdate(row, Restrict(req, done + {k})) ==
            if k == ID || req[k] == Null then ApplyUpdate(row, Restrict(req, done))
            else ApplyUpdate(row, Restrict(req, done))[k := req[k]]
  {
    var before := Assignments(Restrict(req, done));
    var after := Assignments(Restrict(req, done + {k}));
    if k == ID || req[k] == Null {
      assert after.Keys == before.Keys;
      assert after == before;
    } else {
      assert after.Keys == before.Keys + {k};
      assert after == before[k := req[k]];
      UnionUpdate(row, before, k, req[k]);
    }
  }

  /** Updating one key of the right operand of a map union updates the union. */
  lemma UnionUpdate(m: Record, a: Record, k: string, v: Value)
    ensures m + a[k := v] == (m + a)[k := v]
  {
    assert (m + a[k := v]).Keys == (m + a)[k := v].Keys;
  }

  /** One more visited key extends a raw assignment by exactly that key. */
  lemma AssignStep(row: Record, req: Request, done: set<string>, k: string)
    requires k in req
    ensures Assign(row, Restrict(req, done + {k})) == Assign(row, Restrict(req, done))[k := req[k]]
  {
    var before := Assign(row, Restrict(req, done));
    var after := Assign(row, Restrict(req, done + {k}));
    assert after.Keys == before.Keys + {k};
  }

  /** A request that names no `id` and holds no None is written the same way by an
      instance update and by a raw statement update. */
  lemma CleanRequestWrittenAlike(row: Record, req: Request)
    requires ID !in req
    requires forall k :: k in req ==> req[k] != Null
    ensures ApplyUpdate(row, req) == Assign(row, req)
  {
    assert Assignments(req) == req;
  }

  /** On an existing row, the statement upsert writes the conflict-update set, while the
      check-then-update upsert writes the instance update; they agree when no requested
      value is None. */
  lemma UpsertStrategiesAgree(row: Record, req: Request)
    requires forall k :: k in req ==> req[k] != Null
    ensures Assign(row, UpdateSet(req)) == ApplyUpdate(row, req)
  {
    assert UpdateSet(req) == Assignments(req);
  }

  /** A None value shows the two upsert strategies apart: on a nullable column the
      statement upsert writes NULL where the instance update keeps the stored value. */
  lemma UpsertStrategiesDifferOnNone()
    ensures var row := map[ID := Text("a"), "note" := Text("draft")];
            var req := map[ID := Text("a"), "note" := Null];
            Assign(row, UpdateSet(req))["note"] == Null &&
            ApplyUpdate(row, req)["note"] == Text("draft")
  {
    var req := map[ID := Text("a"), "note" := Null];
    assert "note" in UpdateSet(req);
  }
}

/** `AsyncCreateMixin` (app/src/databases/rdb/mixins/async_/create.py): insert, save, upsert
    and bulk insert. Every operation takes the session, the mixin's flags and the request;
    `newId` (or `gen`) stands for what `create_unique_id` returns, and `fault` says whether
    the first call the operation makes into the store raises a driver error. */
module CreateMixin {
  import opened Records
  import opened Store
  import UpdateMixin

  /** The object `async_save` is called on: an object already attached to the session,
      denoted by its position in the transaction's table, or a new object not yet added. */
  datatype Instance = Attached(obj: nat) | Transient(fields: Record)

  /** `async_insert`. An empty request is a ValueError before the session is touched. The
      ORM way adds a new object, checked against the primary key when it is flushed at
      commit; otherwise one INSERT statement writes the request plus a generated id when it
      has none. A failure rolls back only when this call commits, and is re-raised; on the
      ORM way without an `id` the handler's log line turns it into a KeyError. */
  method Insert(s: Session, ormWay: bool, autoCommit: bool, returning: bool, kwargs: Request,
                newId: string, fault: bool)
    returns (r: Result<Option<Record>>)
    requires s.Valid()
    modifies s
    ensures s.Valid()
    ensures |kwargs| == 0 ==>
      r == Failure(ValueError) && s.pending == old(s.pending) && s.committed == old(s.committed)
    ensures |kwargs| > 0 && ormWay && !autoCommit ==>
      r == Success(Some(WithId(kwargs, newId))) &&
      s.pending == old(s.pending) + [WithId(kwargs, newId)] && s.committed == old(s.committed)
    ensures |kwargs| > 0 && (!ormWay || autoCommit) ==>
      var row := WithId(kwargs, newId);
      var err := StatementError(old(s.pending) + [row], fault);
      (r.Success? <==> err.None?) &&
      (r.Success? ==>
        s.pending == old(s.pending) + [row] &&
        r.value == (if ormWay || returning then Some(row) else None) &&
        s.committed == if autoCommit then s.pending else old(s.committed)) &&
      (r.Failure? ==>
        r.error == (if ormWay && ID !in kwargs then KeyError else err.value) &&
        s.committed == old(s.committed) &&
        s.pending == if autoCommit then old(s.committed) else old(s.pending))
  {
    if |kwargs| == 0 {
      return Failure(ValueError);
    }
    // `**kwargs` is the callee's own dict: adding the id is not seen by the caller
    var data := kwargs;
    var err: Option<Error>;
    var obj: Option<Record> := None;
    if ormWay {
      var row := WithId(data, newId);
      s.Add(row);
      obj := Some(row);
      if !autoCommit {
        return Success(obj);
      }
      err := s.Commit(fault);
    } else {
      if ID !in data {
        data := data[ID := Text(newId)];
      }
      err := s.Execute(s.pending + [data], fault);
      if err.None? {
        if returning {
          obj := Some(data);
        }
        if autoCommit {
          var committedOk := s.Commit(false);
          assert committedOk.None?;
        }
      }
    }
    if err.Some? {
      if autoCommit {
        s.Rollback();
      }
      // the handler's log line reads kwargs['id']
      return Failure(if ID in data then err.value else KeyError);
    }
    return Success(obj);
  }

  /** The `setattr` loop of `async_save` on the attached object at `obj`: every requested
      key is assigned as given, `id` and None values included (create.py:118-119). */
  method AssignAll(s: Session, obj: nat, kwargs: Request)
    requires obj < |s.pending|
    modifies s`pending
    ensures s.pending == old(s.pending)[obj := Assign(old(s.pending)[obj], kwargs)]
  {
    var keys := kwargs.Keys;
    ghost var done: set<string> := {};
    ghost var row := s.pending[obj];
    assert Restrict(kwargs, done) == map[];
    assert Assign(row, map[]) == row;
    while keys != {}
      invariant keys !! done && keys + done == kwargs.Keys
      invariant s.pending == old(s.pending)[obj := Assign(row, Restrict(kwargs, done))]
      decreases keys
    {
      var k :| k in keys;
      AssignStep(row, kwargs, done, k);
      s.SetAttr(obj, k, kwargs[k]);
      keys := keys - {k};
      done := done + {k};
    }
    assert Restrict(kwargs, done) == kwargs;
  }

  /** `async_save` as written: the request is assigned to the object as given, then
      `async_get` is called without `await`, so its result is a coroutine, always truthy,
      and `add` never runs (create.py:121-126). An attached object's changes are committed;
      a new object never reaches the session. */
  method Save(s: Session, instance: Instance, autoCommit: bool, kwargs: Request, fault: bool)
    returns (r: Result<Record>)
    requires s.Valid()
    requires instance.Attached? ==> instance.obj < |s.pending|
    modifies s
    ensures s.Valid()
    ensures instance.Attached? ==>
      var i := instance.obj;
      var updated := old(s.pending)[i := Assign(old(s.pending)[i], kwargs)];
      (r.Success? <==> !autoCommit || StatementError(updated, fault).None?) &&
      (r.Success? ==>
        r.value == updated[i] && s.pending == updated &&
        s.committed == if autoCommit then updated else old(s.committed)) &&
      (r.Failure? ==>
        r.error == StatementError(updated, fault).value &&
        s.pending == old(s.committed) && s.committed == old(s.committed))
    ensures instance.Transient? ==>
      (r.Success? <==> !autoCommit || StatementError(old(s.pending), fault).None?) &&
      (r.Success? ==>
        r.value == Assign(instance.fields, kwargs) && s.pending == old(s.pending) &&
        s.committed == if autoCommit then old(s.pending) else old(s.committed)) &&
      (r.Failure? ==>
        r.error == StatementError(old(s.pending), fault).value &&
        s.pending == old(s.committed) && s.committed == old(s.committed))
  {
    var self: Record;
    if instance.Attached? {
      AssignAll(s, instance.obj, kwargs);
      self := s.pending[instance.obj];
    } else {
      self := Assign(instance.fields, kwargs);
    }
    // the un-awaited existence check is truthy: the object is never added
    if autoCommit {
      var err := s.Commit(fault);
      if err.Some? {
        s.Rollback();
        return Failure(err.value);
      }
    }
    return Success(self);
  }

  /** `async_save` with the existence check awaited, as evidently intended: after the
      assignment the object is looked up by id, which is the first store call, and a new
      object whose id no row has is added to the session, so a successful commit persists
      it. A failing lookup is re-raised, rolled back under `autoCommit`. */
  method SaveAwaited(s: Session, instance: Instance, autoCommit: bool, kwargs: Request,
                     newId: string, fault: bool)
    returns (r: Result<Record>)
    requires s.Valid()
    requires instance.Attached? ==> instance.obj < |s.pending|
    modifies s
    ensures s.Valid()
    ensures instance.Attached? && fault ==>
      var i := instance.obj;
      var updated := old(s.pending)[i := Assign(old(s.pending)[i], kwargs)];
      r == Failure(StoreError) && s.committed == old(s.committed) &&
      s.pending == if autoCommit then old(s.committed) else updated
    ensures instance.Attached? && !fault ==>
      var i := instance.obj;
      var updated := old(s.pending)[i := Assign(old(s.pending)[i], kwargs)];
      (r.Success? <==> !autoCommit || Constrained(updated)) &&
      (r.Success? ==>
        r.value == updated[i] && s.pending == updated &&
        s.committed == if autoCommit then updated else old(s.committed)) &&
      (r.Failure? ==> r.error == IntegrityError)
    ensures instance.Transient? && fault ==>
      r == Failure(StoreError) && s.committed == old(s.committed) &&
      s.pending == if autoCommit then old(s.committed) else old(s.pending)
    ensures instance.Transient? && !fault ==>
      var fields := Assign(instance.fields, kwargs);
      var known := ID in fields && IndexOf(old(s.pending), fields[ID]).Some?;
      var after := if known then old(s.pending) else old(s.pending) + [WithId(fields, newId)];
      (r.Success? <==> !autoCommit || Constrained(after)) &&
      (r.Success? ==>
        s.pending == after &&
        (!known ==> r.value == WithId(fields, newId) && r.value in s.pending) &&
        (known ==> r.value == fields) &&
        s.committed == if autoCommit then after else old(s.committed)) &&
      (r.Failure? ==> r.error == IntegrityError)
    ensures r.Failure? ==> s.committed == old(s.committed)
    ensures r.Failure? && (autoCommit || !fault) ==> s.pending == old(s.committed)
  {
    var self: Record;
    if instance.Attached? {
      AssignAll(s, instance.obj, kwargs);
      self := s.pending[instance.obj];
    } else {
      self := Assign(instance.fields, kwargs);
    }
    if fault {
      // the awaited `async_get` raised a driver error
      if autoCommit {
        s.Rollback();
      }
      return Failure(StoreError);
    }
    if instance.Transient? {
      var known := ID in self && IndexOf(s.pending, self[ID]).Some?;
      if !known {
        // the ORM column default gives the new object its id at flush
        self := WithId(self, newId);
        s.Add(self);
      }
    }
    if autoCommit {
      var err := s.Commit(false);
      if err.Some? {
        s.Rollback();
        return Failure(err.value);
      }
    }
    return Success(self);
  }

  /** `async_upsert`. An empty request is a ValueError before any store action. The ORM way
      fetches the row when the request names an `id`, then updates it as an instance when
      found and inserts the ORM way otherwise; its own handler never rolls back. The
      statement way inserts the request plus a generated id, or on an id conflict writes
      every other requested field over the existing row. */
  method Upsert(s: Session, ormWay: bool, autoCommit: bool, returning: bool, kwargs: Request,
                newId: string, fault: bool)
    returns (r: Result<Option<Record>>)
    requires s.Valid()
    modifies s
    ensures s.Valid()
    ensures |kwargs| == 0 ==>
      r == Failure(ValueError) && s.pending == old(s.pending) && s.committed == old(s.committed)
    ensures |kwargs| > 0 && !ormWay && kwargs.Keys == {ID} ==>
      r == Failure(ValueError) && s.committed == old(s.committed) &&
      s.pending == if autoCommit then old(s.committed) else old(s.pending)
    ensures |kwargs| > 0 && !ormWay && kwargs.Keys != {ID} ==>
      var req := WithId(kwargs, newId);
      var rows := Upserted(old(s.pending), req);
      var err := StatementError(rows, fault);
      (r.Success? <==> err.None?) &&
      (r.Success? ==>
        s.pending == rows &&
        s.committed == (if autoCommit then rows else old(s.committed)) &&
        (returning ==> r.value.Some? && r.value.value in rows && SameId(r.value.value, req)) &&
        (!returning ==> r.value.None?)) &&
      (r.Failure? ==>
        r.error == err.value && s.committed == old(s.committed) &&
        s.pending == if autoCommit then old(s.committed) else old(s.pending))
    ensures |kwargs| > 0 && ormWay && ID in kwargs && fault ==>
      r == Failure(StoreError) && s.pending == old(s.pending) && s.committed == old(s.committed)
    ensures |kwargs| > 0 && ormWay && ID in kwargs && !fault &&
            IndexOf(old(s.pending), kwargs[ID]).Some? ==>
      var i := IndexOf(old(s.pending), kwargs[ID]).value;
      var updated := old(s.pending)[i := ApplyUpdate(old(s.pending)[i], kwargs)];
      (r.Success? <==> !autoCommit || Constrained(updated)) &&
      (r.Success? ==>
        r.value == Some(updated[i]) && s.pending == updated &&
        s.committed == if autoCommit then updated else old(s.committed)) &&
      (r.Failure? ==>
        r.error == IntegrityError &&
        s.pending == old(s.committed) && s.committed == old(s.committed))
    ensures |kwargs| > 0 && ormWay &&
            (ID !in kwargs || (!fault && IndexOf(old(s.pending), kwargs[ID]).None?)) ==>
      var row := WithId(kwargs, newId);
      (r.Success? <==> !autoCommit || StatementError(old(s.pending) + [row], fault).None?) &&
      (r.Success? ==>
        r.value == Some(row) && s.pending == old(s.pending) + [row] &&
        s.committed == if autoCommit then s.pending else old(s.committed)) &&
      (r.Failure? ==>
        r.error == (if ID !in kwargs then KeyError
                    else StatementError(old(s.pending) + [row], fault).value) &&
        s.pending == old(s.committed) && s.committed == old(s.committed))
  {
    if |kwargs| == 0 {
      return Failure(ValueError);
    }
    if ormWay {
      var found: Option<nat> := None;
      if ID in kwargs {
        if fault {
          // async_get raised; the handler does not roll back in ORM mode
          return Failure(StoreError);
        }
        found := IndexOf(s.pending, kwargs[ID]);
      }
      if found.Some? {
        var u := UpdateMixin.Update(s, found.value, autoCommit, kwargs, false);
        if u.Failure? {
          return Failure(u.error);
        }
        return Success(Some(u.value));
      }
      r := Insert(s, true, autoCommit, returning, kwargs, newId, fault && ID !in kwargs);
      if r.Failure? && ID !in kwargs {
        // the handler's log line reads kwargs['id']
        r := Failure(KeyError);
      }
      return r;
    }
    // `**kwargs` is the callee's own dict: adding the id is not seen by the caller
    var data := kwargs;
    if ID !in data {
      data := data[ID := Text(newId)];
    }
    if UpdateSet(data) == map[] {
      // `on_conflict_do_update` refuses an empty `set_` before any statement runs
      assert data.Keys - {ID} == UpdateSet(data).Keys == {};
      if autoCommit {
        s.Rollback();
      }
      return Failure(ValueError);
    }
    var pos := match IndexOf(s.pending, data[ID]) case None => |s.pending| case Some(i) => i;
    var rows := Upserted(s.pending, data);
    var err := s.Execute(rows, fault);
    if err.Some? {
      if autoCommit {
        s.Rollback();
      }
      return Failure(err.value);
    }
    var obj: Option<Record> := None;
    if returning {
      obj := Some(rows[pos]);
    }
    if autoCommit {
      var committedOk := s.Commit(false);
      assert committedOk.None?;
    }
    return Success(obj);
  }

  /** The id-assignment loop of `async_bulk_insert` (create.py:258-260) as a function of the
      entries: `gen(i)` is what `create_unique_id` returns for entry `i`. */
  function AssignIds(entries: seq<Request>, gen: nat -> string): (r: seq<Request>)
    ensures |r| == |entries|
    ensures forall i :: 0 <= i < |r| ==> ID in r[i]
    ensures forall i :: 0 <= i < |r| && ID in entries[i] ==> r[i] == entries[i]
    ensures forall i :: 0 <= i < |r| && ID !in entries[i] ==> r[i] == entries[i][ID := Text(gen(i))]
  {
    var r := seq(|entries|, i requires 0 <= i < |entries| => WithId(entries[i], gen(i)));
    assert forall i :: 0 <= i < |r| ==> r[i] == WithId(entries[i], gen(i));
    r
  }

  /** `async_bulk_insert`. Each entry of `rawData` lacking an `id` gets one in place, before
      the transaction is touched; then one INSERT writes all entries. */
  method BulkInsert(s: Session, rawData: array<Request>, autoCommit: bool, returning: bool,
                    gen: nat -> string, fault: bool)
    returns (r: Result<seq<Record>>)
    requires s.Valid()
    modifies s, rawData
    ensures s.Valid()
    ensures rawData[..] == AssignIds(old(rawData[..]), gen)
    ensures
      var rows := old(s.pending) + rawData[..];
      var err := StatementError(rows, fault);
      (r.Success? <==> err.None?) &&
      (r.Success? ==>
        s.pending == rows &&
        r.value == (if returning then rawData[..] else []) &&
        s.committed == if autoCommit then rows else old(s.committed)) &&
      (r.Failure? ==>
        r.error == err.value && s.committed == old(s.committed) &&
        s.pending == if autoCommit then old(s.committed) else old(s.pending))
  {
    for i := 0 to rawData.Length
      invariant s.pending == old(s.pending) && s.committed == old(s.committed)
      invariant forall j :: 0 <= j < i ==> rawData[j] == WithId(old(rawData[j]), gen(j))
      invariant forall j :: i <= j < rawData.Length ==> rawData[j] == old(rawData[j])
    {
      if ID !in rawData[i] {
        rawData[i] := rawData[i][ID := Text(gen(i))];
      }
    }
    var rows := s.pending + rawData[..];
    var err := s.Execute(rows, fault);
    if err.Some? {
      if autoCommit {
        s.Rollback();
      }
      return Failure(err.value);
    }
    if autoCommit {
      var committedOk := s.Commit(false);
      assert committedOk.None?;
    }
    return Success(if returning then rawData[..] else []);
  }
}

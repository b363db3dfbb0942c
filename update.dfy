/** `UpdateMixin` (app/src/databases/rdb/mixins/update.py): update by instance, by id, by
    object list, by filter and over the whole table. Every operation takes the session,
    the mixin's flags and the request; `fault` says whether the first call the operation
    makes into the store raises a driver error. */
module UpdateMixin {
  import opened Records
  import opened Store

  /** The `setattr` loop of an instance update on the attached object at `obj`: `id` is
      skipped, and so is every None value (update.py:43-47, 157-161). */
  method AssignFields(s: Session, obj: nat, kwargs: Request)
    requires obj < |s.pending|
    modifies s`pending
    ensures s.pending == old(s.pending)[obj := ApplyUpdate(old(s.pending)[obj], kwargs)]
  {
    var keys := kwargs.Keys;
    ghost var done: set<string> := {};
    ghost var row := s.pending[obj];
    assert Restrict(kwargs, done) == map[];
    assert ApplyUpdate(row, map[]) == row;
    while keys != {}
      invariant keys !! done && keys + done == kwargs.Keys
      invariant s.pending == old(s.pending)[obj := ApplyUpdate(row, Restrict(kwargs, done))]
      decreases keys
    {
      var k :| k in keys;
      ApplyUpdateStep(row, kwargs, done, k);
      if k == ID {
        // the primary key is never assigned
      } else if kwargs[k] != Null {
        s.SetAttr(obj, k, kwargs[k]);
      }
      keys := keys - {k};
      done := done + {k};
    }
    assert Restrict(kwargs, done) == kwargs;
  }

  /** `async_update` on the attached object at `obj`; returns the updated object. */
  method Update(s: Session, obj: nat, autoCommit: bool, kwargs: Request, fault: bool)
    returns (r: Result<Record>)
    requires s.Valid() && obj < |s.pending|
    modifies s
    ensures s.Valid()
    ensures |kwargs| == 0 ==>
      r == Failure(ValueError) && s.pending == old(s.pending) && s.committed == old(s.committed)
    ensures |kwargs| > 0 ==>
      var updated := old(s.pending)[obj := ApplyUpdate(old(s.pending)[obj], kwargs)];
      (r.Success? <==> !autoCommit || StatementError(updated, fault).None?) &&
      (r.Success? ==>
        r.value == updated[obj] && s.pending == updated &&
        s.committed == if autoCommit then updated else old(s.committed)) &&
      (r.Failure? ==>
        r.error == StatementError(updated, fault).value &&
        s.pending == old(s.committed) && s.committed == old(s.committed))
  {
    if |kwargs| == 0 {
      return Failure(ValueError);
    }
    AssignFields(s, obj, kwargs);
    if autoCommit {
      var err := s.Commit(fault);
      if err.Some? {
        s.Rollback();
        return Failure(err.value);
      }
    }
    return Success(s.pending[obj]);
  }

  /** `async_update_by_id`. With `checkExists` the row is fetched (NoResultFound when it is
      missing, re-raised without rollback) and updated as an instance; otherwise one
      `UPDATE ... WHERE id = :id` writes the request as given, and the transaction is
      committed only when a row came back. */
  method UpdateById(s: Session, id: Value, checkExists: bool, autoCommit: bool, returning: bool,
                    kwargs: Request, fault: bool)
    returns (r: Result<Option<Record>>)
    requires s.Valid()
    // `id` is a named parameter (update.py:67): Python binds an `id=` keyword to it, so
    // `**kwargs` never holds `id`
    requires ID !in kwargs
    modifies s
    ensures s.Valid()
    ensures |kwargs| == 0 ==>
      r == Failure(ValueError) && s.pending == old(s.pending) && s.committed == old(s.committed)
    ensures |kwargs| > 0 && checkExists && !fault && IndexOf(old(s.pending), id).None? ==>
      r == Failure(NoResultFound) && s.pending == old(s.pending) && s.committed == old(s.committed)
    ensures |kwargs| > 0 && checkExists && !fault && IndexOf(old(s.pending), id).Some? ==>
      var i := IndexOf(old(s.pending), id).value;
      var updated := old(s.pending)[i := ApplyUpdate(old(s.pending)[i], kwargs)];
      (r.Success? <==> !autoCommit || Constrained(updated)) &&
      (r.Success? ==>
        r.value == Some(updated[i]) && s.pending == updated &&
        s.committed == if autoCommit then updated else old(s.committed)) &&
      (r.Failure? ==> r.error == IntegrityError)
    ensures |kwargs| > 0 && checkExists && fault ==>
      r == Failure(StoreError) && (!autoCommit ==> s.pending == old(s.pending))
    ensures |kwargs| > 0 && !checkExists ==>
      var rows := UpdatedWhere(old(s.pending), ById(id), kwargs);
      var found := IndexOf(old(s.pending), id);
      (r.Success? <==> returning && StatementError(rows, fault).None?) &&
      (r.Success? ==>
        s.pending == rows &&
        r.value == (if found.Some? then Some(rows[found.value]) else None) &&
        s.committed == if autoCommit && found.Some? then rows else old(s.committed)) &&
      (r.Failure? ==>
        r.error == (if StatementError(rows, fault).None? then ResourceClosedError
                    else StatementError(rows, fault).value)) &&
      (r.Failure? && !autoCommit ==>
        s.pending == if StatementError(rows, fault).None? then rows else old(s.pending))
    ensures |kwargs| > 0 && r.Failure? && r.error != NoResultFound ==>
      s.committed == old(s.committed) && (autoCommit ==> s.pending == old(s.committed))
  {
    if |kwargs| == 0 {
      return Failure(ValueError);
    }
    if checkExists {
      if fault {
        // async_get raised a driver error
        if autoCommit {
          s.Rollback();
        }
        return Failure(StoreError);
      }
      var found := IndexOf(s.pending, id);
      if found.None? {
        return Failure(NoResultFound);
      }
      var u := Update(s, found.value, autoCommit, kwargs, false);
      if u.Failure? {
        if autoCommit {
          s.Rollback();
        }
        return Failure(u.error);
      }
      return Success(Some(u.value));
    }
    var found := IndexOf(s.pending, id);
    var rows := UpdatedWhere(s.pending, ById(id), kwargs);
    var err := s.Execute(rows, fault);
    if err.None? && !returning {
      // `.scalars()` on an UPDATE without RETURNING
      err := Some(ResourceClosedError);
    }
    if err.Some? {
      if autoCommit {
        s.Rollback();
      }
      return Failure(err.value);
    }
    var obj := if found.Some? then Some(rows[found.value]) else None;
    if autoCommit && obj.Some? {
      var committedOk := s.Commit(false);
      assert committedOk.None?;
    }
    return Success(obj);
  }

  /** `async_update_objects`: the instance update applied to every listed object in
      order; an empty list commits nothing. Returns the same list. */
  method UpdateObjects(s: Session, objs: seq<nat>, autoCommit: bool, kwargs: Request, fault: bool)
    returns (r: Result<seq<nat>>)
    requires s.Valid()
    requires forall n :: 0 <= n < |objs| ==> objs[n] < |s.pending|
    modifies s
    ensures s.Valid()
    ensures |kwargs| == 0 ==>
      r == Failure(ValueError) && s.pending == old(s.pending) && s.committed == old(s.committed)
    ensures |kwargs| > 0 && |objs| == 0 ==>
      r == Success(objs) && s.pending == old(s.pending) && s.committed == old(s.committed)
    ensures |kwargs| > 0 && |objs| > 0 ==>
      var updated := UpdatedAt(old(s.pending), Members(objs), kwargs);
      (r.Success? <==> !autoCommit || StatementError(updated, fault).None?) &&
      (r.Success? ==>
        r.value == objs && s.pending == updated &&
        s.committed == if autoCommit then updated else old(s.committed)) &&
      (r.Failure? ==>
        r.error == StatementError(updated, fault).value &&
        s.pending == old(s.committed) && s.committed == old(s.committed))
  {
    if |kwargs| == 0 {
      return Failure(ValueError);
    }
    if 0 < |objs| {
      for n := 0 to |objs|
        invariant s.committed == old(s.committed)
        invariant s.pending == UpdatedAt(old(s.pending), Members(objs[..n]), kwargs)
      {
        assert Members(objs[..n + 1]) == Members(objs[..n]) + {objs[n]} by {
          assert objs[..n + 1] == objs[..n] + [objs[n]];
        }
        UpdatedAtStep(old(s.pending), Members(objs[..n]), objs[n], kwargs);
        AssignFields(s, objs[n], kwargs);
      }
      assert objs[..|objs|] == objs;
      if autoCommit {
        var err := s.Commit(fault);
        if err.Some? {
          s.Rollback();
          return Failure(err.value);
        }
      }
    }
    return Success(objs);
  }

  /** `async_update_by_where` as written. With `checkExists` it selects the matches and then
      calls `async_update_objects(objects=...)`: `objects=` falls into that function's
      `**kwargs`, and its required `orm_objects` (update.py:131) is left unbound, so the call
      raises TypeError. Otherwise one
      `UPDATE ... WHERE <filter>` writes the request as given to every matching row. */
  method UpdateByWhere(s: Session, where: Record -> bool, checkExists: bool, returning: bool,
                       autoCommit: bool, kwargs: Request, fault: bool)
    returns (r: Result<seq<Record>>)
    requires s.Valid()
    modifies s
    ensures s.Valid()
    ensures |kwargs| == 0 ==>
      r == Failure(ValueError) && s.pending == old(s.pending) && s.committed == old(s.committed)
    ensures |kwargs| > 0 && checkExists ==>
      r == Failure(if fault then StoreError else TypeError) &&
      s.committed == old(s.committed) &&
      s.pending == if autoCommit then old(s.committed) else old(s.pending)
    ensures |kwargs| > 0 && !checkExists ==>
      var rows := UpdatedWhere(old(s.pending), where, kwargs);
      (r.Success? <==> returning && StatementError(rows, fault).None?) &&
      (r.Success? ==>
        s.pending == rows &&
        r.value == At(rows, Matches(old(s.pending), where)) &&
        s.committed == if autoCommit then rows else old(s.committed)) &&
      (r.Failure? ==>
        r.error == (if StatementError(rows, fault).None? then ResourceClosedError
                    else StatementError(rows, fault).value) &&
        s.committed == old(s.committed) &&
        s.pending == if autoCommit then old(s.committed)
                     else if StatementError(rows, fault).None? then rows else old(s.pending))
  {
    if |kwargs| == 0 {
      return Failure(ValueError);
    }
    if checkExists {
      // async_select_by_where(disable_limit=True) is the first store call
      var err := if fault then StoreError else TypeError;
      if autoCommit {
        s.Rollback();
      }
      return Failure(err);
    }
    var ix := Matches(s.pending, where);
    var rows := UpdatedWhere(s.pending, where, kwargs);
    var err := s.Execute(rows, fault);
    if err.None? && !returning {
      // `.scalars()` on an UPDATE without RETURNING
      err := Some(ResourceClosedError);
    }
    if err.Some? {
      if autoCommit {
        s.Rollback();
      }
      return Failure(err.value);
    }
    if autoCommit {
      var committedOk := s.Commit(false);
      assert committedOk.None?;
    }
    return Success(At(rows, ix));
  }

  /** The `checkExists` path of `async_update_by_where` as evidently intended: the selected
      objects are passed as `orm_objects`, so exactly the rows satisfying the filter receive
      the instance update and every other row is left as it was. */
  method UpdateByWhereFixed(s: Session, where: Record -> bool, autoCommit: bool, kwargs: Request,
                            fault: bool)
    returns (r: Result<seq<Record>>)
    requires s.Valid()
    modifies s
    ensures s.Valid()
    ensures |kwargs| == 0 ==>
      r == Failure(ValueError) && s.pending == old(s.pending) && s.committed == old(s.committed)
    ensures |kwargs| > 0 && r.Success? ==>
      |s.pending| == |old(s.pending)| &&
      (forall i :: 0 <= i < |s.pending| && where(old(s.pending)[i]) ==>
         s.pending[i] == ApplyUpdate(old(s.pending)[i], kwargs)) &&
      (forall i :: 0 <= i < |s.pending| && !where(old(s.pending)[i]) ==>
         s.pending[i] == old(s.pending)[i]) &&
      r.value == At(s.pending, Matches(old(s.pending), where)) &&
      s.committed == if autoCommit && |Matches(old(s.pending), where)| > 0 then s.pending
                     else old(s.committed)
    ensures |kwargs| > 0 && r.Failure? ==>
      s.committed == old(s.committed) && (autoCommit ==> s.pending == old(s.committed))
    ensures |kwargs| > 0 && !fault && !autoCommit ==> r.Success?
    ensures |kwargs| > 0 && !fault ==>
      var ix := Matches(old(s.pending), where);
      (r.Success? <==>
         !autoCommit || |ix| == 0 || Constrained(UpdatedAt(old(s.pending), Members(ix), kwargs))) &&
      (r.Failure? ==> r.error == IntegrityError)
    ensures |kwargs| > 0 && fault ==>
      r == Failure(StoreError) && s.committed == old(s.committed) &&
      s.pending == if autoCommit then old(s.committed) else old(s.pending)
  {
    if |kwargs| == 0 {
      return Failure(ValueError);
    }
    if fault {
      if autoCommit {
        s.Rollback();
      }
      return Failure(StoreError);
    }
    var ix := Matches(s.pending, where);
    ghost var before := s.pending;
    assert Members(ix) == set i | 0 <= i < |before| && where(before[i]);
    var u := UpdateObjects(s, ix, autoCommit, kwargs, false);
    if u.Failure? {
      if autoCommit {
        s.Rollback();
      }
      return Failure(u.error);
    }
    return Success(At(s.pending, ix));
  }

  /** `async_update_all`: one unfiltered `UPDATE` writes the request as given to every row. */
  method UpdateAll(s: Session, autoCommit: bool, kwargs: Request, fault: bool)
    returns (r: Result<()>)
    requires s.Valid()
    modifies s
    ensures s.Valid()
    ensures |kwargs| == 0 ==>
      r == Failure(ValueError) && s.pending == old(s.pending) && s.committed == old(s.committed)
    ensures |kwargs| > 0 ==>
      var rows := UpdatedWhere(old(s.pending), AllRows(), kwargs);
      (r.Success? <==> StatementError(rows, fault).None?) &&
      (r.Success? ==> s.pending == rows && s.committed == if autoCommit then rows else old(s.committed)) &&
      (r.Failure? ==>
        r.error == StatementError(rows, fault).value && s.committed == old(s.committed) &&
        s.pending == if autoCommit then old(s.committed) else old(s.pending))
  {
    if |kwargs| == 0 {
      return Failure(ValueError);
    }
    var err := s.Execute(UpdatedWhere(s.pending, AllRows(), kwargs), fault);
    if err.Some? {
      if autoCommit {
        s.Rollback();
      }
      return Failure(err.value);
    }
    if autoCommit {
      var committedOk := s.Commit(false);
      assert committedOk.None?;
    }
    return Success(());
  }

  /** For a request naming no `id` and holding no None, the intended `checkExists` path of
      `async_update_by_where` and its single-statement path leave the same table. */
  lemma UpdateByWherePathsAgree(rows: seq<Record>, where: Record -> bool, req: Request)
    requires ID !in req
    requires forall k :: k in req ==> req[k] != Null
    ensures UpdatedAt(rows, Members(Matches(rows, where)), req) == UpdatedWhere(rows, where, req)
  {
    forall i | 0 <= i < |rows|
      ensures UpdatedAt(rows, Members(Matches(rows, where)), req)[i] == UpdatedWhere(rows, where, req)[i]
    {
      CleanRequestWrittenAlike(rows[i], req);
    }
  }
}

/** The relational store as the mixins see it through one session: a table of rows with
    a primary-key constraint on `id`, the effect of each statement the mixins build, and
    the session with its transaction (pending state, commit, rollback). */
module Store {
  import opened Records

  /** `row` is the row whose primary key is `id`; NULL matches no row, as in SQL. */
  predicate HasId(row: Record, id: Value)
  {
    id != Null && ID in row && row[ID] == id
  }

  predicate SameId(a: Record, b: Record)
  {
    ID in a && ID in b && a[ID] == b[ID]
  }

  predicate Keyed(row: Record)
  {
    ID in row && row[ID] != Null
  }

  /** The primary-key constraint: every row has a non-NULL id and no two rows share one. */
  predicate Constrained(rows: seq<Record>)
  {
    (forall i :: 0 <= i < |rows| ==> Keyed(rows[i])) &&
    (forall i, j :: 0 <= i < j < |rows| ==> !SameId(rows[i], rows[j]))
  }

  /** Lookup by primary key, as `async_get` does it: the position of the row with that id. */
  function IndexOf(rows: seq<Record>, id: Value): (r: Option<nat>)
    ensures r.Some? ==> r.value < |rows| && HasId(rows[r.value], id)
    ensures r.Some? ==> forall j :: 0 <= j < r.value ==> !HasId(rows[j], id)
    ensures r.None? <==> forall j :: 0 <= j < |rows| ==> !HasId(rows[j], id)
  {
    if |rows| == 0 then None
    else if HasId(rows[0], id) then Some(0)
    else match IndexOf(rows[1..], id)
      case None => None
      case Some(i) => Some(i + 1)
  }

  /** Selection by filter with the limit disabled, as `async_select_by_where(disable_limit=True)`
      returns it: the positions of all rows satisfying `where`, in table order. */
  function Matches(rows: seq<Record>, where: Record -> bool, from: nat := 0): (ix: seq<nat>)
    requires from <= |rows|
    ensures forall n :: 0 <= n < |ix| ==> from <= ix[n] < |rows| && where(rows[ix[n]])
    ensures forall i :: from <= i < |rows| && where(rows[i]) ==> i in ix
    ensures forall m, n :: 0 <= m < n < |ix| ==> ix[m] < ix[n]
    decreases |rows| - from
  {
    if from == |rows| then []
    else if where(rows[from]) then [from] + Matches(rows, where, from + 1)
    else Matches(rows, where, from + 1)
  }

  /** The rows at the given positions. */
  function At(rows: seq<Record>, ix: seq<nat>): seq<Record>
    requires forall n :: 0 <= n < |ix| ==> ix[n] < |rows|
  {
    seq(|ix|, n requires 0 <= n < |ix| => rows[ix[n]])
  }

  /** The filter `WHERE id = :id`. */
  function ById(id: Value): Record -> bool
  {
    r => HasId(r, id)
  }

  /** No filter at all: `UPDATE <table> SET ...` over the whole table. */
  function AllRows(): Record -> bool
  {
    r => true
  }

  /** The positions of the objects in a list. */
  function Members(objs: seq<nat>): set<nat>
  {
    set o | o in objs
  }

  /** `UPDATE <table> SET <req> WHERE <where>`: every matching row takes the request as given. */
  function UpdatedWhere(rows: seq<Record>, where: Record -> bool, req: Request): (r: seq<Record>)
    ensures |r| == |rows|
    ensures forall i, k :: 0 <= i < |rows| && where(rows[i]) && k in req ==> k in r[i] && r[i][k] == req[k]
    ensures forall i, k :: 0 <= i < |rows| && k in rows[i] && k !in req ==> k in r[i] && r[i][k] == rows[i][k]
    ensures forall i :: 0 <= i < |rows| && !where(rows[i]) ==> r[i] == rows[i]
  {
    seq(|rows|, i requires 0 <= i < |rows| => if where(rows[i]) then Assign(rows[i], req) else rows[i])
  }

  /** The table after an instance update of the objects at the positions in `objs`. */
  function UpdatedAt(rows: seq<Record>, objs: set<nat>, req: Request): (r: seq<Record>)
    ensures |r| == |rows|
    ensures forall i :: 0 <= i < |rows| && i !in objs ==> r[i] == rows[i]
    ensures forall i :: 0 <= i < |rows| && i in objs ==> SameId(r[i], rows[i]) || ID !in rows[i]
  {
    seq(|rows|, i requires 0 <= i < |rows| => if i in objs then ApplyUpdate(rows[i], req) else rows[i])
  }

  /** `INSERT ... ON CONFLICT (id) DO UPDATE SET <UpdateSet(req)>` (create.py:205-209). */
  function Upserted(rows: seq<Record>, req: Request): (r: seq<Record>)
    requires ID in req
    ensures IndexOf(rows, req[ID]).None? ==> r == rows + [req]
    ensures IndexOf(rows, req[ID]).Some? ==>
      var i := IndexOf(rows, req[ID]).value;
      |r| == |rows| && SameId(r[i], rows[i]) &&
      (forall k :: k in req && k != ID ==> k in r[i] && r[i][k] == req[k]) &&
      (forall k :: k in rows[i] && k !in req ==> k in r[i] && r[i][k] == rows[i][k]) &&
      (forall j :: 0 <= j < |rows| && j != i ==> r[j] == rows[j])
  {
    match IndexOf(rows, req[ID])
    case None => rows + [req]
    case Some(i) => rows[i := Assign(rows[i], UpdateSet(req))]
  }

  /** The error a statement or a flush raises: `fault` is a driver failure; otherwise the
      state it would leave must satisfy the primary-key constraint. */
  function StatementError(rows: seq<Record>, fault: bool): (e: Option<Error>)
    ensures e.None? <==> !fault && Constrained(rows)
    ensures !fault && !Constrained(rows) ==> e == Some(IntegrityError)
  {
    if fault then Some(StoreError)
    else if !Constrained(rows) then Some(IntegrityError)
    else None
  }

  /** A new row is accepted by a constrained table exactly when its id is non-NULL and no
      row has it already; in particular an insert of an existing id is an IntegrityError. */
  lemma {:induction false} InsertAccepted(rows: seq<Record>, row: Record)
    requires Constrained(rows)
    requires ID in row
    ensures Constrained(rows + [row]) <==> Keyed(row) && IndexOf(rows, row[ID]).None?
  {
    var t := rows + [row];
    if Keyed(row) && IndexOf(rows, row[ID]).None? {
      forall i, j | 0 <= i < j < |t| ensures !SameId(t[i], t[j]) {
        if j == |rows| {
          assert !HasId(rows[i], row[ID]);
        }
      }
    } else if Keyed(row) {
      var i := IndexOf(rows, row[ID]).value;
      assert SameId(t[i], t[|rows|]);
    } else {
      assert !Keyed(t[|rows|]);
    }
  }

  /** A statement updating the rows with primary key `id` that touched two rows cannot
      leave the table constrained; so when it succeeds it updated at most one row and
      `one_or_none()` sees at most one. */
  lemma UpdateByIdTwoMatchesRejected(rows: seq<Record>, id: Value, req: Request, i: nat, j: nat)
    requires i < j < |rows|
    requires HasId(rows[i], id) && HasId(rows[j], id)
    ensures !Constrained(UpdatedWhere(rows, ById(id), req))
  {
    var t := UpdatedWhere(rows, ById(id), req);
    assert t[i] == Assign(rows[i], req) && t[j] == Assign(rows[j], req);
    if ID in req {
      assert t[i][ID] == req[ID] == t[j][ID];
    } else {
      assert t[i][ID] == id == t[j][ID];
    }
    assert SameId(t[i], t[j]);
  }

  /** Repeating a statement upsert leaves the table as the first one left it. */
  lemma {:induction false} UpsertIdempotent(rows: seq<Record>, req: Request)
    requires ID in req && req[ID] != Null
    ensures Upserted(Upserted(rows, req), req) == Upserted(rows, req)
  {
    var id := req[ID];
    var once := Upserted(rows, req);
    match IndexOf(rows, id)
    case None =>
      assert once == rows + [req];
      assert HasId(once[|rows|], id);
      assert IndexOf(once, id) == Some(|rows|);
      assert Assign(req, UpdateSet(req)) == req;
    case Some(i) =>
      var row := Assign(rows[i], UpdateSet(req));
      assert once == rows[i := row];
      assert HasId(once[i], id);
      assert forall j :: 0 <= j < i ==> once[j] == rows[j];
      assert IndexOf(once, id) == Some(i);
      assert Assign(row, UpdateSet(req)) == row;
  }

  /** Updating one more object extends an instance update of several objects; an object
      listed twice is updated once, because the update is idempotent. */
  lemma UpdatedAtStep(rows: seq<Record>, objs: set<nat>, o: nat, req: Request)
    requires o < |rows|
    ensures UpdatedAt(rows, objs + {o}, req) ==
            UpdatedAt(rows, objs, req)[o := ApplyUpdate(UpdatedAt(rows, objs, req)[o], req)]
  {
    if o in objs {
      ApplyUpdateIdempotent(rows[o], req);
    }
  }

  /** Updating the whole table with a request naming `id` gives every row that id, so on
      a table of two rows or more `async_update_all` always fails on the primary key. */
  lemma UpdateAllWithIdRejected(rows: seq<Record>, req: Request)
    requires ID in req && |rows| >= 2
    ensures !Constrained(UpdatedWhere(rows, AllRows(), req))
  {
    var t := UpdatedWhere(rows, AllRows(), req);
    assert t[0] == Assign(rows[0], req) && t[1] == Assign(rows[1], req);
    assert SameId(t[0], t[1]);
  }

  /** The store session the mixins receive as `async_session`. `committed` is the table as
      of the last commit; `pending` is the table as this transaction sees it, including ORM
      objects added but not yet flushed. An ORM object attached to the session is denoted
      by its position in `pending` (the session's identity map). */
  class Session {
    var committed: seq<Record>
    var pending: seq<Record>

    /** Only a constrained table can be committed. */
    ghost predicate Valid()
      reads this
    {
      Constrained(committed)
    }

    constructor (rows: seq<Record>)
      requires Constrained(rows)
      ensures Valid() && committed == rows && pending == rows
    {
      committed := rows;
      pending := rows;
    }

    /** `execute(stmt)`: a statement whose effect is the table `rows`; a failing statement
        leaves the transaction's state as it was. */
    method Execute(rows: seq<Record>, fault: bool) returns (err: Option<Error>)
      requires Valid()
      modifies this`pending
      ensures Valid()
      ensures err == StatementError(rows, fault)
      ensures pending == if err.None? then rows else old(pending)
    {
      err := StatementError(rows, fault);
      if err.None? {
        pending := rows;
      }
    }

    /** `add(obj)`: the new object joins the transaction; the constraint is checked when it
        is flushed, at the next commit. */
    method Add(row: Record)
      modifies this`pending
      ensures pending == old(pending) + [row]
    {
      pending := pending + [row];
    }

    /** `setattr(obj, key, val)` on the attached object at position `obj`. */
    method SetAttr(obj: nat, key: string, val: Value)
      requires obj < |pending|
      modifies this`pending
      ensures pending == old(pending)[obj := old(pending)[obj][key := val]]
    {
      pending := pending[obj := pending[obj][key := val]];
    }

    /** `commit()`: flushes the transaction and makes it the committed table. */
    method Commit(fault: bool) returns (err: Option<Error>)
      requires Valid()
      modifies this`committed
      ensures Valid()
      ensures err == StatementError(pending, fault)
      ensures committed == if err.None? then pending else old(committed)
    {
      err := StatementError(pending, fault);
      if err.None? {
        committed := pending;
      }
    }

    /** `rollback()`: discards every pending write. */
    method Rollback()
      modifies this`pending
      ensures pending == committed
    {
      pending := committed;
    }
  }
}

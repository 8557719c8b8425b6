/**
 * The `/api/employees` route handlers as operations on the `employees`
 * table. The table is held in memory as a sequence of rows in insertion
 * order, and the AUTO_INCREMENT counter that supplies `insertId` is a field.
 * Every handler answers with one of the responses below; database failures
 * (the 500 answers) are outside the model.
 */
module Store {
  import opened Wrappers
  import opened Records
  import Seqs

  /** What a handler answers: an HTTP status with a JSON message (and the new id for a create). */
  datatype Response = Created(id: int) | EmailExists | Updated | Deleted {

    /** 400 is the only refusal, and 201 answers exactly a create. */
    function Status(): (r: int)
      ensures r == 400 <==> this.EmailExists?
      ensures r == 201 <==> this.Created?
      ensures r == 200 <==> this.Updated? || this.Deleted?
    {
      match this
      case Created(_) => 201
      case EmailExists => 400
      case Updated => 200
      case Deleted => 200
    }

    function Message(): string {
      match this
      case Created(_) => "Employee created successfully"
      case EmailExists => "Email already exists"
      case Updated => "Employee updated successfully"
      case Deleted => "Employee deleted successfully"
    }
  }

  function DifferentEmails(a: Employee, b: Employee): bool { a.email != b.email }

  function DifferentIds(a: Employee, b: Employee): bool { a.id != b.id }

  /** No two rows share an email: the invariant the handlers' duplicate check protects. */
  predicate EmailsDistinct(rows: seq<Employee>) {
    Seqs.Pairwise(rows, DifferentEmails)
  }

  /** No two rows share an id: the table's primary key. */
  predicate IdsDistinct(rows: seq<Employee>) {
    Seqs.Pairwise(rows, DifferentIds)
  }

  /**
   * Row `e` is found by `WHERE email = ?`, or by `WHERE email = ? AND id != ?`
   * when `except` holds an id. The comparison is exact string equality.
   */
  predicate ClaimsEmail(e: Employee, email: string, except: Option<int>) {
    e.email == email && (except.None? || e.id != except.value)
  }

  /** The duplicate-email query returns at least one row. */
  predicate EmailHeld(rows: seq<Employee>, email: string, except: Option<int>) {
    exists i | 0 <= i < |rows| :: ClaimsEmail(rows[i], email, except)
  }

  /**
   * The table after `UPDATE employees SET <eight columns> WHERE id = ?`:
   * every row with that id carries the new columns, every other row is as it was.
   */
  function Overwritten(rows: seq<Employee>, id: int, f: Fields): (r: seq<Employee>)
    ensures |r| == |rows|
    ensures forall i :: 0 <= i < |rows| ==>
      (rows[i].id == id ==> r[i] == RowOf(id, f)) && (rows[i].id != id ==> r[i] == rows[i])
  {
    if rows == [] then []
    else [if rows[0].id == id then RowOf(id, f) else rows[0]] + Overwritten(rows[1..], id, f)
  }

  /** The table after `DELETE FROM employees WHERE id = ?`. */
  function Without(rows: seq<Employee>, id: int): (r: seq<Employee>)
    ensures |r| <= |rows|
    ensures forall i :: 0 <= i < |r| ==> r[i].id != id && r[i] in rows
  {
    Seqs.Filter(rows, (e: Employee) => e.id != id)
  }

  /** The employees table together with its AUTO_INCREMENT counter. */
  class EmployeeTable {
    var rows: seq<Employee>
    var nextId: int

    /** Ids are positive, unique, and below the next id the counter hands out. */
    ghost predicate Valid()
      reads this
    {
      0 < nextId && IdsDistinct(rows) &&
      forall i :: 0 <= i < |rows| ==> 0 < rows[i].id < nextId
    }

    constructor ()
      ensures Valid() && rows == [] && nextId == 1
    {
      rows := [];
      nextId := 1;
    }

    /** GET: `SELECT * FROM employees`. */
    method All() returns (all: seq<Employee>)
      ensures all == rows
    {
      all := rows;
    }

    /** The duplicate check's SELECT, scanning the table row by row. */
    method EmailInUse(email: string, except: Option<int>) returns (found: bool)
      ensures found <==> EmailHeld(rows, email, except)
    {
      found := false;
      var i := 0;
      while i < |rows| && !found
        invariant 0 <= i <= |rows|
        invariant found ==> EmailHeld(rows, email, except)
        invariant !found ==> forall k :: 0 <= k < i ==> !ClaimsEmail(rows[k], email, except)
      {
        found := ClaimsEmail(rows[i], email, except);
        i := i + 1;
      }
    }

    /**
     * POST: rejects an email some row already has, with 400 and no change;
     * otherwise inserts one row with the next id and answers 201 with that id.
     */
    method Create(data: Fields) returns (resp: Response)
      requires Valid()
      modifies this
      ensures Valid()
      ensures EmailHeld(old(rows), data.email, None) ==>
        resp == EmailExists && rows == old(rows) && nextId == old(nextId)
      ensures !EmailHeld(old(rows), data.email, None) ==>
        resp == Created(old(nextId)) && rows == old(rows) + [RowOf(old(nextId), data)] &&
        nextId == old(nextId) + 1
      ensures resp.Created? ==> forall i :: 0 <= i < |old(rows)| ==> old(rows)[i].id != resp.id
      ensures EmailsDistinct(old(rows)) ==> EmailsDistinct(rows)
    {
      var taken := EmailInUse(data.email, None);
      if taken {
        resp := EmailExists;
        return;
      }
      var id := nextId;
      rows := rows + [RowOf(id, data)];
      nextId := nextId + 1;
      resp := Created(id);
    }

    /**
     * PUT: rejects an email held by a row with a different id, with 400 and no
     * change; otherwise overwrites the eight columns of the row with that id
     * (if there is one) and answers 200.
     */
    method Update(id: int, data: Fields) returns (resp: Response)
      requires Valid()
      modifies this
      ensures Valid() && nextId == old(nextId)
      ensures EmailHeld(old(rows), data.email, Some(id)) ==> resp == EmailExists && rows == old(rows)
      ensures !EmailHeld(old(rows), data.email, Some(id)) ==>
        resp == Updated && rows == Overwritten(old(rows), id, data)
      ensures EmailsDistinct(old(rows)) ==> EmailsDistinct(rows)
    {
      var taken := EmailInUse(data.email, Some(id));
      if taken {
        resp := EmailExists;
        return;
      }
      if EmailsDistinct(rows) {
        OverwritePreservesDistinctEmails(rows, id, data);
      }
      rows := Overwritten(rows, id, data);
      resp := Updated;
    }

    /** DELETE: removes the row with that id, if any, and always answers 200. */
    method Delete(id: int) returns (resp: Response)
      requires Valid()
      modifies this
      ensures Valid() && nextId == old(nextId)
      ensures resp == Deleted && rows == Without(old(rows), id)
      ensures EmailsDistinct(old(rows)) ==> EmailsDistinct(rows)
    {
      Seqs.FilterPreservesPairwise(rows, (e: Employee) => e.id != id, DifferentIds);
      if EmailsDistinct(rows) {
        Seqs.FilterPreservesPairwise(rows, (e: Employee) => e.id != id, DifferentEmails);
      }
      rows := Without(rows, id);
      resp := Deleted;
    }
  }

  /** A caller that deletes the same id twice gets 200 both times and the state of one delete. */
  method DeleteTwice(table: EmployeeTable, id: int) returns (first: Response, second: Response)
    requires table.Valid()
    modifies table
    ensures table.Valid()
    ensures first == Deleted && second == Deleted
    ensures table.rows == Without(old(table.rows), id) && table.nextId == old(table.nextId)
  {
    first := table.Delete(id);
    second := table.Delete(id);
    DeleteIdempotent(old(table.rows), id);
  }

  /** With distinct emails, a row's own email never counts as a duplicate for a PUT of that row. */
  lemma OwnEmailNeverConflicts(rows: seq<Employee>, i: int)
    requires EmailsDistinct(rows)
    requires 0 <= i < |rows|
    ensures !EmailHeld(rows, rows[i].email, Some(rows[i].id))
  {
    forall j | 0 <= j < |rows| && j != i ensures rows[j].email != rows[i].email {
      if j < i {
        assert DifferentEmails(rows[j], rows[i]);
      } else {
        assert DifferentEmails(rows[i], rows[j]);
      }
    }
  }

  /** A PUT that passes the duplicate check keeps emails pairwise distinct. */
  lemma OverwritePreservesDistinctEmails(rows: seq<Employee>, id: int, f: Fields)
    requires EmailsDistinct(rows) && IdsDistinct(rows)
    requires !EmailHeld(rows, f.email, Some(id))
    ensures EmailsDistinct(Overwritten(rows, id, f))
  {
    var r := Overwritten(rows, id, f);
    forall i, j | 0 <= i < j < |r| ensures DifferentEmails(r[i], r[j]) {
      assert DifferentEmails(rows[i], rows[j]) && DifferentIds(rows[i], rows[j]);
      if rows[i].id == id {
        assert !ClaimsEmail(rows[j], f.email, Some(id));
      } else if rows[j].id == id {
        assert !ClaimsEmail(rows[i], f.email, Some(id));
      }
    }
  }

  /** A PUT never changes any row's id, nor the number of rows. */
  lemma OverwriteKeepsIds(rows: seq<Employee>, id: int, f: Fields)
    ensures |Overwritten(rows, id, f)| == |rows|
    ensures forall i :: 0 <= i < |rows| ==> Overwritten(rows, id, f)[i].id == rows[i].id
  {
  }

  /** A PUT whose id matches no row leaves the table as it was. */
  lemma OverwriteAbsentIdIsIdentity(rows: seq<Employee>, id: int, f: Fields)
    requires forall i :: 0 <= i < |rows| ==> rows[i].id != id
    ensures Overwritten(rows, id, f) == rows
  {
  }

  /** DELETE removes every row with that id and keeps every other row, as often as it occurs. */
  lemma DeleteRemovesExactlyThatId(rows: seq<Employee>, id: int)
    ensures forall e :: multiset(Without(rows, id))[e] == if e.id != id then multiset(rows)[e] else 0
  {
    Seqs.FilterCounts(rows, (e: Employee) => e.id != id);
  }

  /** Deleting an id that no row has leaves the table as it was. */
  lemma DeleteAbsentIdIsIdentity(rows: seq<Employee>, id: int)
    requires forall i :: 0 <= i < |rows| ==> rows[i].id != id
    ensures Without(rows, id) == rows
  {
    Seqs.FilterKeepingAll(rows, (e: Employee) => e.id != id);
  }

  /** Repeating a DELETE changes nothing more. */
  lemma DeleteIdempotent(rows: seq<Employee>, id: int)
    ensures Without(Without(rows, id), id) == Without(rows, id)
  {
    Seqs.FilterIdempotent(rows, (e: Employee) => e.id != id);
  }
}

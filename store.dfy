/** The `expenses` table, with the store kept in memory instead of in sqlite.
    The table is a sequence of records in insertion order. Each SQL statement
    the handlers issue is a function on that sequence. */
module Store {
  import opened Strings

  /** Every column of the schema except `id`. The form edits exactly these. */
  datatype Fields = Fields(name: string, category: string, date: string, amount: int, notes: string)

  /** One row of `expenses`. */
  datatype Expense = Expense(id: int, fields: Fields)

  /** `id INTEGER PRIMARY KEY`: no two rows share an id. */
  predicate IdsUnique(t: seq<Expense>) {
    forall i, j :: 0 <= i < j < |t| ==> t[i].id != t[j].id
  }

  /** AUTOINCREMENT bookkeeping: every id ever handed out is below `next`. */
  predicate IdsBelow(t: seq<Expense>, next: int) {
    forall i :: 0 <= i < |t| ==> t[i].id < next
  }

  predicate HasId(t: seq<Expense>, id: int) {
    exists i :: 0 <= i < |t| && t[i].id == id
  }

  /** INSERT with an AUTOINCREMENT id: the id is the counter, which has never
      been used, and the counter moves past it. */
  lemma InsertKeepsKeys(t: seq<Expense>, next: int, f: Fields)
    requires IdsUnique(t) && IdsBelow(t, next)
    ensures !HasId(t, next)
    ensures IdsUnique(t + [Expense(next, f)]) && IdsBelow(t + [Expense(next, f)], next + 1)
  {
  }

  /** `UPDATE expenses SET name=?, category=?, date=?, amount=?, notes=? WHERE id=?`:
      the five columns of every row with that id become `f`, and the other rows
      stay as they were. */
  function UpdateById(t: seq<Expense>, id: int, f: Fields): (r: seq<Expense>)
    ensures |r| == |t|
    ensures forall i :: 0 <= i < |t| ==> r[i].id == t[i].id
    ensures forall i :: 0 <= i < |t| ==> r[i] == if t[i].id == id then Expense(id, f) else t[i]
  {
    if t == [] then []
    else [if t[0].id == id then Expense(id, f) else t[0]] + UpdateById(t[1..], id, f)
  }

  /** An UPDATE whose id matches no row leaves the table as it was (and is not an error). */
  lemma UpdateAbsent(t: seq<Expense>, id: int, f: Fields)
    requires !HasId(t, id)
    ensures UpdateById(t, id, f) == t
  {
    var r := UpdateById(t, id, f);
    assert forall i :: 0 <= i < |t| ==> r[i] == t[i];
  }

  /** With unique ids, UPDATE overwrites exactly row k and nothing else. */
  lemma UpdateAt(t: seq<Expense>, k: int, f: Fields)
    requires IdsUnique(t) && 0 <= k < |t|
    ensures UpdateById(t, t[k].id, f) == t[k := Expense(t[k].id, f)]
  {
  }

  /** An UPDATE that writes back the fields a row already has changes nothing. */
  lemma UpdateSameFields(t: seq<Expense>, k: int)
    requires IdsUnique(t) && 0 <= k < |t|
    ensures UpdateById(t, t[k].id, t[k].fields) == t
  {
    UpdateAt(t, k, t[k].fields);
  }

  /** `DELETE FROM expenses WHERE id=?`. Its contract covers an id no row
      has; DeleteAt gives the exact effect for a present id under unique ids. */
  function DeleteById(t: seq<Expense>, id: int): (r: seq<Expense>)
    ensures |r| <= |t|
    ensures !HasId(t, id) ==> r == t
  {
    if t == [] then []
    else (if t[0].id == id then [] else [t[0]]) + DeleteById(t[1..], id)
  }

  lemma TailKeepsKeys(t: seq<Expense>)
    requires IdsUnique(t) && t != []
    ensures IdsUnique(t[1..]) && !HasId(t[1..], t[0].id)
  {
    forall i | 0 <= i < |t| - 1 ensures t[1..][i] == t[i + 1] {
    }
  }

  /** With unique ids, DELETE removes exactly row k and keeps the rest in order. */
  lemma {:induction false} DeleteAt(t: seq<Expense>, k: int)
    requires IdsUnique(t) && 0 <= k < |t|
    ensures DeleteById(t, t[k].id) == t[..k] + t[k + 1..]
  {
    var id := t[k].id;
    var tail := t[1..];
    TailKeepsKeys(t);
    if k == 0 {
      assert DeleteById(t, id) == DeleteById(tail, id) == tail;
    } else {
      assert tail[k - 1] == t[k];
      DeleteAt(tail, k - 1);
      assert DeleteById(t, id) == [t[0]] + (tail[..k - 1] + tail[k..]);
      assert tail[..k - 1] == t[1..k] && tail[k..] == t[k + 1..];
      assert t[..k] == [t[0]] + t[1..k];
    }
  }

  /** Taking row k out of a table with well-formed keys leaves well-formed keys,
      and the removed id is no longer present. */
  lemma RemoveAtKeepsKeys(t: seq<Expense>, k: int, next: int)
    requires IdsUnique(t) && IdsBelow(t, next) && 0 <= k < |t|
    ensures var r := t[..k] + t[k + 1..];
      |r| == |t| - 1 && IdsUnique(r) && IdsBelow(r, next) && !HasId(r, t[k].id)
  {
    var r := t[..k] + t[k + 1..];
    assert forall i :: 0 <= i < |r| ==> r[i] == t[if i < k then i else i + 1];
  }

  /** DELETE keeps the table's keys well formed and, when the id was present,
      shortens the table by exactly one row. */
  lemma DeleteKeepsKeys(t: seq<Expense>, id: int, next: int)
    requires IdsUnique(t) && IdsBelow(t, next)
    ensures IdsUnique(DeleteById(t, id)) && IdsBelow(DeleteById(t, id), next)
    ensures !HasId(DeleteById(t, id), id)
    ensures HasId(t, id) ==> |DeleteById(t, id)| == |t| - 1
  {
    if HasId(t, id) {
      var k :| 0 <= k < |t| && t[k].id == id;
      DeleteAt(t, k);
      RemoveAtKeepsKeys(t, k, next);
    }
  }

  /** A value as sqlite hands it back in a result tuple. */
  datatype SqlValue = IntValue(i: int) | TextValue(s: string)

  /** Python's `str(v)` of a fetched value, which both the table widget and
      the `csv` writer apply to each field. */
  function CellText(v: SqlValue): string {
    match v
    case IntValue(i) => DecimalString(i)
    case TextValue(s) => s
  }

  /** One tuple of `SELECT id, name, category, date, amount, notes FROM expenses`. */
  function RowTuple(e: Expense): seq<SqlValue> {
    [IntValue(e.id), TextValue(e.fields.name), TextValue(e.fields.category),
     TextValue(e.fields.date), IntValue(e.fields.amount), TextValue(e.fields.notes)]
  }

  /** `cursor.fetchall()` after the SELECT of all six columns: one tuple per
      record, in table order. */
  function SelectAll(t: seq<Expense>): (r: seq<seq<SqlValue>>)
    ensures |r| == |t|
    ensures forall i :: 0 <= i < |t| ==> r[i] == RowTuple(t[i])
  {
    if t == [] then [] else [RowTuple(t[0])] + SelectAll(t[1..])
  }

  /** `cursor.fetchall()` after `SELECT name, category, date, amount, notes`:
      the same tuples with the id column left out. */
  function SelectWithoutId(t: seq<Expense>): (r: seq<seq<SqlValue>>)
    ensures |r| == |t|
    ensures forall i :: 0 <= i < |t| ==> r[i] == RowTuple(t[i])[1..]
  {
    if t == [] then [] else [RowTuple(t[0])[1..]] + SelectWithoutId(t[1..])
  }
}

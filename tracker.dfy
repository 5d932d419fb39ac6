/** `ExpenseTrackerApp`: the command handlers working on the store, on the
    selection (`current_expense_id`), on the rows the table widget shows and
    on the five form widgets. Message boxes become the `Outcome` a handler
    returns. The yes/no question, a storage fault and "today" are all
    parameters. */
module Tracker {
  import opened Wrappers
  import opened Strings
  import opened Store
  import opened View

  /** The category combo box's items; index 0 is the default. */
  const Categories: seq<string> :=
    ["Makanan", "Transportasi", "Hiburan", "Belanja", "Pendidikan", "Kesehatan", "Lainnya"]

  /** The form as `clear_form` leaves it: empty name, the first category,
      today's date, amount 0 and empty notes. */
  function DefaultForm(today: string): Fields {
    Fields("", Categories[0], today, 0, "")
  }

  /** What a handler writes for the form's fields: the name and notes stripped,
      the category, the ISO date text and the amount as the widgets hold them. */
  function Submitted(f: Fields): Fields {
    Fields(Strip(f.name), f.category, f.date, f.amount, Strip(f.notes))
  }

  /** The handlers' only validation: the stripped name is not empty. */
  predicate NameValid(f: Fields) {
    Strip(f.name) != []
  }

  /** A form is rejected exactly when its name is all whitespace, the empty name included. */
  lemma NameValidIff(f: Fields)
    ensures !NameValid(f) <==> forall k :: 0 <= k < |f.name| ==> IsSpace(f.name[k])
  {
    StripEmptyIff(f.name);
  }

  /** Fields as a handler writes them pass validation again when they were
      valid, and writing them again writes the same fields. */
  lemma SubmittedIsStable(f: Fields)
    ensures Submitted(Submitted(f)) == Submitted(f)
    ensures NameValid(f) ==> NameValid(Submitted(f))
  {
    StripIdempotent(f.name);
    StripIdempotent(f.notes);
  }

  /** Selecting a row that a handler wrote and submitting the form unchanged
      rewrites that row with what it already holds: the table stays the same. */
  lemma ResubmitUnchanged(t: seq<Expense>, k: int, g: Fields)
    requires IdsUnique(t) && 0 <= k < |t| && t[k].fields == Submitted(g)
    ensures UpdateById(t, t[k].id, Submitted(t[k].fields)) == t
  {
    SubmittedIsStable(g);
    UpdateSameFields(t, k);
  }

  /** The notice a handler ends with: success, the selection warning, the
      validation warning, a declined confirmation (no notice) or the database error. */
  datatype Outcome = Done | NoSelection | NameRequired | Declined | StoreFailed

  class ExpenseTracker {
    /** The `expenses` table, in insertion order. */
    var table: seq<Expense>
    /** The next AUTOINCREMENT id. */
    var nextId: int
    /** `current_expense_id`. */
    var selected: Option<int>
    /** The cell texts of the table widget, row by row. */
    var displayed: seq<seq<string>>
    /** The form widgets: name line edit, category combo box, date edit (as
        ISO text), amount spin box and notes text edit. */
    var name: string
    var category: string
    var date: string
    var amount: int
    var notes: string

    function Form(): Fields
      reads this
    {
      Fields(name, category, date, amount, notes)
    }

    /** Ids are unique and below the counter, the widget shows the table,
        and a selection always names a record that exists. */
    ghost predicate Valid()
      reads this
    {
      IdsUnique(table) && IdsBelow(table, nextId)
      && displayed == DisplayRows(table)
      && (selected.Some? ==> HasId(table, selected.value))
    }

    /** Start-up: open the store holding `stored` with counter `next`, start
        with no selection and today's date, then load the table. */
    constructor (stored: seq<Expense>, next: int, today: string)
      requires IdsUnique(stored) && IdsBelow(stored, next)
      ensures Valid()
      ensures table == stored && nextId == next
      ensures selected == None && Form() == DefaultForm(today)
    {
      table := stored;
      nextId := next;
      selected := None;
      displayed := [];
      name, category, date, amount, notes := "", Categories[0], today, 0, "";
      new;
      Reload(today);
    }

    /** `load_expenses_from_db`: fetch every tuple, rebuild the widget's rows
        cell by cell, then clear the form. */
    method Reload(today: string)
      modifies this
      ensures table == old(table) && nextId == old(nextId)
      ensures displayed == DisplayRows(table)
      ensures selected == None && Form() == DefaultForm(today)
    {
      var rows := SelectAll(table);
      displayed := [];
      var r := 0;
      while r < |rows|
        invariant 0 <= r <= |rows|
        invariant table == old(table) && nextId == old(nextId)
        invariant |displayed| == r
        invariant forall i :: 0 <= i < r ==> displayed[i] == DisplayRow(table[i])
      {
        var cells: seq<string> := [];
        var c := 0;
        while c < |rows[r]|
          invariant 0 <= c <= |rows[r]|
          invariant |cells| == c
          invariant forall k :: 0 <= k < c ==> cells[k] == CellText(rows[r][k])
        {
          cells := cells + [CellText(rows[r][c])];
          c := c + 1;
        }
        DisplayRowIsCellText(table[r]);
        assert cells == DisplayRow(table[r]);
        displayed := displayed + [cells];
        r := r + 1;
      }
      assert displayed == DisplayRows(table);
      ClearForm(today);
    }

    /** `clear_form`: no selection and every form field back to its default;
        the store and the widget's rows are untouched. */
    method ClearForm(today: string)
      modifies this
      ensures selected == None && Form() == DefaultForm(today)
      ensures table == old(table) && nextId == old(nextId) && displayed == old(displayed)
    {
      selected := None;
      name := "";
      category := Categories[0];
      date := today;
      amount := 0;
      notes := "";
    }

    /** The user typing into the form widgets. */
    method EditForm(f: Fields)
      modifies this
      ensures Form() == f
      ensures table == old(table) && nextId == old(nextId)
      ensures selected == old(selected) && displayed == old(displayed)
    {
      name, category, date, amount, notes := f.name, f.category, f.date, f.amount, f.notes;
    }

    /** `add_expense`: a blank name changes nothing; a storage fault changes
        nothing; otherwise one record with a fresh id and the submitted fields
        is appended, then the table is reloaded and the form cleared. */
    method Add(today: string, fails: bool) returns (o: Outcome)
      requires Valid()
      modifies this
      ensures Valid()
      ensures !NameValid(old(Form())) ==> o == NameRequired && unchanged(this)
      ensures NameValid(old(Form())) && fails ==> o == StoreFailed && unchanged(this)
      ensures NameValid(old(Form())) && !fails ==>
        o == Done && !HasId(old(table), old(nextId))
        && table == old(table) + [Expense(old(nextId), Submitted(old(Form())))]
        && nextId == old(nextId) + 1
        && displayed == DisplayRows(table) && selected == None && Form() == DefaultForm(today)
    {
      var n := Strip(name);
      if n == [] {
        return NameRequired;
      }
      var record := Fields(n, category, date, amount, Strip(notes));
      if fails {
        return StoreFailed;
      }
      InsertKeepsKeys(table, nextId, record);
      table := table + [Expense(nextId, record)];
      nextId := nextId + 1;
      Reload(today);
      o := Done;
    }

    /** `update_expense`: without a selection, or with a blank name, or on a
        storage fault nothing changes; otherwise the selected record's five
        fields become the submitted ones, every other record is left alone,
        then the table is reloaded and the form cleared. */
    method Update(today: string, fails: bool) returns (o: Outcome)
      requires Valid()
      modifies this
      ensures Valid()
      ensures old(selected).None? ==> o == NoSelection && unchanged(this)
      ensures old(selected).Some? && !NameValid(old(Form())) ==> o == NameRequired && unchanged(this)
      ensures old(selected).Some? && NameValid(old(Form())) && fails ==>
        o == StoreFailed && unchanged(this)
      ensures old(selected).Some? && NameValid(old(Form())) && !fails ==>
        o == Done
        && table == UpdateById(old(table), old(selected).value, Submitted(old(Form())))
        && nextId == old(nextId)
        && displayed == DisplayRows(table) && selected == None && Form() == DefaultForm(today)
    {
      if selected.None? {
        return NoSelection;
      }
      var n := Strip(name);
      if n == [] {
        return NameRequired;
      }
      var record := Fields(n, category, date, amount, Strip(notes));
      if fails {
        return StoreFailed;
      }
      table := UpdateById(table, selected.value, record);
      Reload(today);
      o := Done;
    }

    /** `delete_expense`: without a selection, when the user declines, or on a
        storage fault nothing changes; otherwise exactly the selected record
        is removed, then the table is reloaded and the form cleared. */
    method Delete(confirmed: bool, today: string, fails: bool) returns (o: Outcome)
      requires Valid()
      modifies this
      ensures Valid()
      ensures old(selected).None? ==> o == NoSelection && unchanged(this)
      ensures old(selected).Some? && !confirmed ==> o == Declined && unchanged(this)
      ensures old(selected).Some? && confirmed && fails ==> o == StoreFailed && unchanged(this)
      ensures old(selected).Some? && confirmed && !fails ==>
        o == Done
        && table == DeleteById(old(table), old(selected).value)
        && |table| == |old(table)| - 1 && !HasId(table, old(selected).value)
        && nextId == old(nextId)
        && displayed == DisplayRows(table) && selected == None && Form() == DefaultForm(today)
    {
      if selected.None? {
        return NoSelection;
      }
      if !confirmed {
        return Declined;
      }
      if fails {
        return StoreFailed;
      }
      DeleteKeepsKeys(table, selected.value, nextId);
      table := DeleteById(table, selected.value);
      Reload(today);
      o := Done;
    }

    /** `populate_form_from_table`: with no current row nothing happens;
        otherwise the selection becomes the row's hidden id and the form shows
        the row's other five cells, which are exactly that record's fields. */
    method SelectRow(row: int)
      requires Valid() && row < |displayed|
      modifies this
      ensures Valid()
      ensures table == old(table) && nextId == old(nextId) && displayed == old(displayed)
      ensures row < 0 ==> unchanged(this)
      ensures 0 <= row ==> selected == Some(table[row].id) && Form() == table[row].fields
    {
      if row < 0 {
        return;
      }
      var cells := displayed[row];
      assert cells == DisplayRow(table[row]);
      ReadBackDisplayRow(table[row]);
      selected := Some(ParseInt(cells[0]).value);
      name := cells[1];
      category := cells[2];
      date := cells[3];
      amount := ParseInt(cells[4]).value;
      notes := cells[5];
    }
  }

  /** A session: start empty, add a lunch, select it, submit it unchanged,
      raise the amount, then delete it after confirming. */
  method Session(today: string) {
    var app := new ExpenseTracker([], 1, today);
    app.EditForm(Fields(" Lunch ", "Makanan", "2024-05-01", 25000, ""));
    StripOfTrimmed("Lunch");
    assert Strip(" Lunch ") == "Lunch";
    StripOfTrimmed("");
    var o := app.Add(today, false);
    var lunch := Expense(1, Fields("Lunch", "Makanan", "2024-05-01", 25000, ""));
    assert o == Done && app.table == [lunch] && |app.displayed| == 1;

    app.SelectRow(0);
    assert app.selected == Some(1);
    o := app.Update(today, false);
    assert o == Done && app.table == [lunch];

    app.SelectRow(0);
    app.EditForm(app.Form().(amount := 30000));
    o := app.Update(today, false);
    assert o == Done && app.table == [lunch.(fields := lunch.fields.(amount := 30000))];

    o := app.Delete(true, today, false);
    assert o == NoSelection && |app.table| == 1;
    app.SelectRow(0);
    o := app.Delete(false, today, false);
    assert o == Declined && app.selected == Some(1);
    o := app.Delete(true, today, false);
    assert o == Done && app.table == [] && app.displayed == [];
  }
}

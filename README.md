# DompetKu expense tracker: command state machine

This project models the command handlers of `ExpenseTrackerApp`, the
DompetKu desktop expense tracker, in Dafny. The tracker keeps a table of
expense records, each with an id, name, category, date, amount and notes. A
form edits one record. A table widget lists every record and keeps the id in
a hidden first column. `current_expense_id` holds the selected record's id,
or None. Add, Update and Delete follow the same four steps, and Clear and
Select-row change only the form:

1. check the selection when the command needs one;
2. check that the name is not blank after `strip()`;
3. issue one SQL statement;
4. reload every row from the store, which also clears the form and the selection.

The sqlite store is replaced by an in-memory table: a sequence of records in
insertion order, plus the counter behind `INTEGER PRIMARY KEY AUTOINCREMENT`.
Each SQL statement becomes a function on that sequence.

- `wrappers.dfy` (module `Wrappers`) holds `Option`, which stands for Python's `None`.
- `strings.dfy` (module `Strings`) covers the parts of Python's string
  handling the handlers depend on: `str.strip()` with Python's whitespace
  set, `str(int)`, and `int(str)` for reading a selected row back.
- `store.dfy` (module `Store`) has the record types, the key invariants
  (ids are unique and below the counter), and the INSERT, UPDATE and DELETE
  statements with lemmas about them. It also has the tuples the two SELECTs
  return.
- `view.dfy` (module `View`) gives the exact cell texts the table widget shows
  for a record, and shows that reading a shown row back recovers the record.
- `export.dfy` (module `Export`) gives the rows the CSV export writes.
- `tracker.dfy` (module `Tracker`) holds the class `ExpenseTracker`. Its
  fields are the table, the id counter, the selection, the widget's rows and
  the five form widgets. Its methods are the handlers. `Valid()` is preserved
  by every handler and says four things:
  - ids are unique;
  - ids are below the counter;
  - the widget shows exactly the table, in table order;
  - a selection always names an existing record.

  The method `Session` walks through a whole session using only the
  handlers' contracts: start empty, add a lunch, select it, submit it
  unchanged (the table stays the same), raise the amount, try Delete with no
  selection, decline a Delete, then confirm one.

Parameters stand for what the application gets from outside:
- `today` stands for `QDate.currentDate()`;
- `confirmed` stands for the answer to the yes/no question;
- `fails` stands for an exception from sqlite.
The message boxes become the `Outcome` each handler returns. The user typing
into the form is `EditForm`. `SelectRow` takes the widget's current row.
Qt keeps that row at -1 or below the row count, so the method requires
exactly that.

## Model

| member | source | states |
|---|---|---|
| Strings.TrimStartSpec | main.py:208 | lstrip removes exactly the leading whitespace. The rest is a suffix of the input and does not start with whitespace. |
| Strings.TrimEndSpec | main.py:208 | rstrip removes exactly the trailing whitespace. The rest is a prefix of the input and does not end with whitespace. |
| Strings.StripSpec | main.py:208 | `strip()` keeps a contiguous slice of the input. Everything outside the slice is whitespace, and the slice neither starts nor ends with whitespace. |
| Strings.StripEmptyIff | main.py:208-211 | The stripped name is empty exactly when every character of the name is whitespace. |
| Strings.StripIdempotent | main.py:216 | Stripping an already stripped name or note changes nothing. |
| Strings.StripOfTrimmed | main.py:208 | A string that neither starts nor ends with whitespace is its own strip. |
| Strings.DecimalString | main.py:196 | `str(n)` is non-empty and makes no whitespace at either end. It is all digits exactly when n is not negative. |
| Strings.NatDigits | main.py:196 | The decimal digits of a natural number are non-empty, all digits, and have no leading zero. |
| Strings.DigitsValueOfNatDigits | main.py:297 | The value of the digits of n is n. |
| Strings.ParseIntOfDecimal | main.py:291 | `int(str(n)) == n` for every integer, negative ones included. |
| Store.InsertKeepsKeys | main.py:51 | The AUTOINCREMENT id of a new row belongs to no existing row. After the INSERT, ids are still unique and below the advanced counter. |
| Store.UpdateById | main.py:250-254 | Same row count and same ids. Rows whose id matches get the five new fields; all other rows are unchanged. |
| Store.UpdateAbsent | main.py:250-254 | An UPDATE whose id matches no row leaves the table exactly as it was. |
| Store.UpdateAt | main.py:250-254 | With unique ids, UPDATE replaces exactly row k and nothing else. |
| Store.UpdateSameFields | main.py:250-254 | An UPDATE that writes back a row's own fields leaves the table unchanged. |
| Store.DeleteById | main.py:276 | DELETE never adds rows. When no row has the id, the table is unchanged. |
| Store.DeleteAt | main.py:276 | With unique ids, DELETE removes exactly row k and keeps the other rows in their order. |
| Store.DeleteKeepsKeys | main.py:276 | After a DELETE, ids are still unique and below the counter, and the deleted id is gone. The table shrinks by exactly one row when the id was present. |
| Store.RemoveAtKeepsKeys | main.py:276 | Removing one row keeps ids unique and below the counter, and drops that row's id. |
| Store.SelectAll | main.py:189-193 | `fetchall()` returns one tuple per record, in table order. |
| Store.SelectWithoutId | main.py:319-320 | The export SELECT returns each record's tuple without the id column, in table order. |
| View.DisplayRowIsCellText | main.py:195-199 | Each cell the widget shows is `str()` of the matching column of the fetched tuple. |
| View.ReadBackDisplayRow | main.py:287-298 | A record's shown row has six cells. `int()` of its hidden cell is the record's id, and `int()` of its amount cell is the record's amount. The other cells are the record's name, category, date and notes. |
| Export.CsvRow | main.py:332 | The csv writer turns each field of a tuple into `str()` of it, in order. |
| Export.CsvRows | main.py:332 | `writerows` writes one converted row per tuple, in order. |
| Export.ExportRows | main.py:319-332 | An empty table writes nothing. Otherwise the header comes first, followed by one row per record in table order: name, category, date, `str(amount)`, notes. The id is left out. |
| Export.ExportIsDisplayWithoutId | main.py:319-332 | Each exported data row equals the displayed row with its hidden id cell removed. |
| Export.ExportLunch | main.py:329-332 | A single Lunch/Makanan/2024-05-01/25000/"" record exports as the header followed by the single row `["Lunch", "Makanan", "2024-05-01", "25000", ""]`. |
| Tracker.NameValidIff | main.py:208-211 | A form is rejected exactly when its name is entirely whitespace, including when it is empty. |
| Tracker.SubmittedIsStable | main.py:213-216 | Fields as a handler stores them come out the same when submitted again, and a valid name stays valid. |
| Tracker.ResubmitUnchanged | main.py:238-255 | Selecting a row a handler wrote and submitting it unchanged rewrites the row with the fields it already has, so the table stays the same. |
| Tracker.ExpenseTracker.constructor | main.py:16-40 | Starts from the stored table and counter with no selection and the form at its defaults. The widget shows the table. |
| Tracker.ExpenseTracker.Reload | main.py:184-202 | The widget's rows become exactly the table's display rows, in table order, built row by row and cell by cell. Afterwards the form is at its defaults and the selection is None. The store is untouched. |
| Tracker.ExpenseTracker.ClearForm | main.py:300-310 | Selection None; name empty, category `Makanan` (index 0), date today, amount 0, notes empty. Nothing else changes. |
| Tracker.ExpenseTracker.EditForm | main.py:208-216 | Stands for the user typing into the five widgets that the handlers read at these lines. Afterwards the widgets hold exactly what was typed. The store, the selection and the widget's rows do not change. |
| Tracker.ExpenseTracker.Add | main.py:204-228 | A blank name or a storage fault changes nothing at all. Otherwise exactly one record is appended: the counter's fresh id, the stripped name, the category, the date, the amount and the stripped notes. The counter advances, the widget shows the new table, and the selection and form are cleared. |
| Tracker.ExpenseTracker.Update | main.py:230-259 | With no selection, a blank name or a storage fault, nothing changes. Otherwise the table becomes the UPDATE of the selected id with the submitted fields. The counter is unchanged, the widget shows the new table, and the selection and form are cleared. |
| Tracker.ExpenseTracker.Delete | main.py:261-281 | With no selection, a declined question or a storage fault, nothing changes. In particular, a decline keeps the selection. Otherwise the selected record, and only it, is removed. The table shrinks by one, the widget shows the new table, and the selection and form are cleared. |
| Tracker.ExpenseTracker.SelectRow | main.py:283-298 | With no current row nothing changes. Otherwise the selection becomes that row's id, and the form holds exactly that record's five fields. The store and the widget's rows are untouched. |

## Left out

- Qt is not modelled: widgets, `loadUi`, the stylesheet, the status bar, the About dialog, signal wiring, column sizing and alignment, and `clearSelection` on the widget. These are presentation only.
- sqlite itself is not modelled. This covers opening the connection, `commit`, and closing it in `closeEvent`. An in-memory sequence with an id counter stands in for the store.
- Tracker.ExpenseTracker.Add, Update and Delete: an exception is modelled as a fault of the one SQL statement. It leaves the store unchanged, skips the reload and keeps the form. The source would also show the error box if the reload after a committed write raised, and then the write would stay in the store while the widget went stale. That case is not modelled.
- Tracker.ExpenseTracker.Update: the case where no row has the selected id cannot happen under `Valid()`. Selections only come from shown rows, and every successful command clears the selection. The store-level statement still handles it: Store.UpdateAbsent shows it changes nothing.
- Tracker.ResubmitUnchanged is stated only for records a handler wrote, meaning a stripped name and stripped notes. For a record whose name or notes have surrounding whitespace, resubmitting it changes the record, because the handler strips them.
- CSV quoting, escaping, line endings and UTF-8 encoding are done by Python's `csv` module and file I/O, and are not modelled. Export is modelled as the list of rows. Cancelling the save dialog, an unwritable destination (the export error box) and the file dialog are not modelled.
- `QDate` parsing and formatting are not modelled, and neither is today's date. The date is the ISO text the date widget produces, and "today" is a parameter. If the stored text is not a valid ISO date, `QDate.fromString` would give an invalid date; the model copies the text unchanged instead.
- Ranges and value sets defined in the `.ui` file, which is not part of this model, are left out. These are the spin box's range, and the combo box's behaviour for a category it does not list. The amount is an unbounded integer, and the category is the text the combo box shows.
- `int()` is modelled for whitespace, an optional sign and ASCII digits. Underscores and non-ASCII digits, which Python also accepts, are left out; the cells it reads always come from `str(int)`.
- NULL values are not modelled. The schema (main.py:53-56) allows NULL in category, date, amount and notes, but the handlers always write all five columns. The constructor's `stored` table is assumed to hold only rows the handlers wrote. For a NULL, the widget would show `str(None)`, which is "None", and the CSV writer would write an empty field.
- The about dialog (`show_about_dialog`) is not modelled; it has no state.

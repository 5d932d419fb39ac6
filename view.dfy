/** The table widget: `load_expenses_from_db` shows one row per fetched tuple,
    each cell being `str()` of a column, with the id in a hidden first column. */
module View {
  import opened Wrappers
  import opened Strings
  import opened Store

  /** The six cells shown for a record, the hidden id cell first. */
  function DisplayRow(e: Expense): seq<string> {
    [DecimalString(e.id), e.fields.name, e.fields.category, e.fields.date,
     DecimalString(e.fields.amount), e.fields.notes]
  }

  /** What the table widget shows after a full reload: one row per record, in table order. */
  function DisplayRows(t: seq<Expense>): seq<seq<string>> {
    seq(|t|, i requires 0 <= i < |t| => DisplayRow(t[i]))
  }

  /** Each shown cell is `str()` of the matching column of the fetched tuple. */
  lemma DisplayRowIsCellText(e: Expense)
    ensures |DisplayRow(e)| == |RowTuple(e)|
    ensures forall k :: 0 <= k < |RowTuple(e)| ==> DisplayRow(e)[k] == CellText(RowTuple(e)[k])
  {
  }

  /** Reading a shown row back gives the record it was made from: `int()` of
      the hidden cell is the id, `int()` of the amount cell is the amount, and
      the other cells are the record's text columns. */
  lemma ReadBackDisplayRow(e: Expense)
    ensures |DisplayRow(e)| == 6
    ensures ParseInt(DisplayRow(e)[0]) == Some(e.id)
    ensures ParseInt(DisplayRow(e)[4]) == Some(e.fields.amount)
    ensures DisplayRow(e)[1] == e.fields.name && DisplayRow(e)[2] == e.fields.category
    ensures DisplayRow(e)[3] == e.fields.date && DisplayRow(e)[5] == e.fields.notes
  {
    ParseIntOfDecimal(e.id);
    ParseIntOfDecimal(e.fields.amount);
  }
}

/** The rows `export_to_csv` hands to the `csv` writer: a header, then one
    row per record without its id. Quoting and the file itself are not modelled. */
module Export {
  import opened Wrappers
  import opened Strings
  import opened Store
  import opened View

  const Header: seq<string> := ["Nama Pengeluaran", "Kategori", "Tanggal", "Jumlah", "Keterangan"]

  /** The `csv` writer's conversion of one tuple: `str()` of each field. */
  function CsvRow(tuple: seq<SqlValue>): (r: seq<string>)
    ensures |r| == |tuple| && forall k :: 0 <= k < |tuple| ==> r[k] == CellText(tuple[k])
  {
    if tuple == [] then [] else [CellText(tuple[0])] + CsvRow(tuple[1..])
  }

  /** `writer.writerows(rows)`: each tuple converted in order. */
  function CsvRows(rows: seq<seq<SqlValue>>): (r: seq<seq<string>>)
    ensures |r| == |rows| && forall i :: 0 <= i < |rows| ==> r[i] == CsvRow(rows[i])
  {
    if rows == [] then [] else [CsvRow(rows[0])] + CsvRows(rows[1..])
  }

  /** The rows written by an export, or None when the table is empty and
      nothing is written. Otherwise the header comes first, then each record's
      name, category, date, amount and notes, in table order; the id is omitted. */
  function ExportRows(t: seq<Expense>): (r: Option<seq<seq<string>>>)
    ensures r.None? <==> t == []
    ensures r.Some? ==> |r.value| == |t| + 1 && r.value[0] == Header
    ensures r.Some? ==> forall i :: 0 <= i < |t| ==>
      r.value[i + 1] == [t[i].fields.name, t[i].fields.category, t[i].fields.date,
                         DecimalString(t[i].fields.amount), t[i].fields.notes]
  {
    var rows := SelectWithoutId(t);
    if rows == [] then None else Some([Header] + CsvRows(rows))
  }

  /** Each exported data row is the matching displayed row without its hidden id cell. */
  lemma ExportIsDisplayWithoutId(t: seq<Expense>)
    requires t != []
    ensures forall i :: 0 <= i < |t| ==> ExportRows(t).value[i + 1] == DisplayRows(t)[i][1..]
  {
  }

  /** A single lunch record exports as the header and one row whose fields,
      joined by commas, read `Lunch,Makanan,2024-05-01,25000,`. */
  lemma ExportLunch()
    ensures ExportRows([Expense(1, Fields("Lunch", "Makanan", "2024-05-01", 25000, ""))])
      == Some([Header, ["Lunch", "Makanan", "2024-05-01", "25000", ""]])
  {
    var t := [Expense(1, Fields("Lunch", "Makanan", "2024-05-01", 25000, ""))];
    var r := ExportRows(t);
    assert DecimalString(25000) == "25000";
    assert r.value[1] == ["Lunch", "Makanan", "2024-05-01", "25000", ""];
    assert r.value == [r.value[0], r.value[1]];
  }
}

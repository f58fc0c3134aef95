/** The tables the exporters hand to pandas: cells, data frames built from a list
    of row dicts, and named sheets. */
module Tables {

  import opened Records

  /** One cell value. Python's None is Empty; a number is a float, an integer an
      int; a reaction's compartments are a set, its notes a dict. */
  datatype Cell =
    | Empty
    | Text(s: string)
    | Number(x: real)
    | Integer(n: int)
    | Codes(codes: set<string>)
    | Pairs(entries: seq<(string, string)>)

  /** A data frame: column labels and rows of cells. */
  datatype Frame = Frame(columns: seq<string>, rows: seq<seq<Cell>>)

  /** A workbook sheet: a frame written under a sheet name. */
  datatype Sheet = Sheet(name: string, frame: Frame)

  /** Every row has one cell per column. */
  predicate Rectangular(f: Frame)
  {
    forall i :: 0 <= i < |f.rows| ==> |f.rows[i]| == |f.columns|
  }

  /** `pd.DataFrame(dict_list)` for row dicts that all have the keys `columns` in
      that order: the columns are those keys, except that a frame built from no
      rows at all has no columns. */
  function DataFrame(columns: seq<string>, rows: seq<seq<Cell>>): (f: Frame)
    requires forall i :: 0 <= i < |rows| ==> |rows[i]| == |columns|
    ensures Rectangular(f)
    ensures f.rows == rows
    ensures |rows| > 0 ==> f.columns == columns
    ensures |rows| == 0 ==> f.columns == []
  {
    Frame(if |rows| == 0 then [] else columns, rows)
  }

  /** The position of the first column labelled `heading`, as a reader that selects
      a column by its header finds it. */
  function ColumnIndex(columns: seq<string>, heading: string): (r: Option<nat>)
    ensures r.None? <==> heading !in columns
    ensures r.Some? ==> r.value < |columns| && columns[r.value] == heading
    ensures r.Some? ==> forall j :: 0 <= j < r.value ==> columns[j] != heading
  {
    if |columns| == 0 then None
    else if columns[0] == heading then Some(0)
    else
      match ColumnIndex(columns[1..], heading)
      case Some(k) => Some(k + 1)
      case None => None
  }

  /** The cell of row `row` under the column labelled `heading`, if there is one. */
  function CellUnder(f: Frame, row: nat, heading: string): Option<Cell>
  {
    if row < |f.rows| then
      match ColumnIndex(f.columns, heading)
      case Some(k) => if k < |f.rows[row]| then Some(f.rows[row][k]) else None
      case None => None
    else None
  }

  /** No heading occurs twice. */
  predicate DistinctColumns(columns: seq<string>)
  {
    forall j, k :: 0 <= j < k < |columns| ==> columns[j] != columns[k]
  }

  /** With distinct headings, selecting by heading finds the cell at that column. */
  lemma CellUnderColumn(f: Frame, row: nat, k: nat)
    requires Rectangular(f) && DistinctColumns(f.columns)
    requires row < |f.rows| && k < |f.columns|
    ensures CellUnder(f, row, f.columns[k]) == Some(f.rows[row][k])
  {
    var found := ColumnIndex(f.columns, f.columns[k]);
    assert found.Some? && found.value == k;
  }
}

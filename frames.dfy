/**
 * The part of a pandas DataFrame that `parse_survey` and `parse_event_log`
 * touch: column labels, rows of cells, and the in-place edits the parsers
 * make (relabelling the columns, overwriting or adding a column).
 */
module Frames {
  import opened Wrappers
  import opened Text

  /** A cell as `read_csv` leaves it: missing (NaN), text, or a number. */
  datatype Cell = Missing | Str(s: string) | Num(x: real)

  /** A frame's value: its column labels and its rows, one cell per column. */
  datatype Table = Table(columns: seq<string>, rows: seq<seq<Cell>>)

  /** Why a parser raises instead of returning. */
  datatype ParseError =
    | MissingClubColumn   // the `ValueError` of src/processors.py:26 and :97
    | ClubNameNotText     // `normalize_name` reached a value that has no `strip`

  const ClubColumn: string := "club_name"

  predicate Rectangular(t: Table) {
    forall i :: 0 <= i < |t.rows| ==> |t.rows[i]| == |t.columns|
  }

  /** Position of the first column labelled `name`. */
  function IndexOf(cols: seq<string>, name: string): (r: Option<nat>)
    ensures r.Some? ==> r.value < |cols| && cols[r.value] == name
    ensures r.Some? ==> forall i :: 0 <= i < r.value ==> cols[i] != name
    ensures r.None? <==> name !in cols
  {
    if cols == [] then None
    else if cols[0] == name then Some(0)
    else
      match IndexOf(cols[1..], name)
      case Some(j) => Some(j + 1)
      case None => None
  }

  /** The first position holding `name` is the one `IndexOf` finds. */
  lemma IndexOfFirst(cols: seq<string>, name: string, k: nat)
    requires k < |cols| && cols[k] == name
    requires forall i :: 0 <= i < k ==> cols[i] != name
    ensures IndexOf(cols, name) == Some(k)
  {
    assert name in cols;
    var v := IndexOf(cols, name).value;
    assert !(v < k);
    assert !(k < v);
  }

  /** Whether more than one column carries the label `name`. */
  predicate Duplicated(cols: seq<string>, name: string) {
    exists i, j :: 0 <= i < j < |cols| && cols[i] == name && cols[j] == name
  }

  /** `[c.strip().lower() for c in df.columns]`. */
  function NormalizeHeaders(cols: seq<string>): seq<string> {
    seq(|cols|, i requires 0 <= i < |cols| => NormalizeName(cols[i]))
  }

  /** The cells of column `j`, top to bottom. */
  function Column(t: Table, j: nat): seq<Cell>
    requires Rectangular(t) && j < |t.columns|
  {
    seq(|t.rows|, i requires 0 <= i < |t.rows| => t.rows[i][j])
  }

  /** `df[name] = cells`: overwrites the first column so labelled, or appends a new one. */
  function SetColumn(t: Table, name: string, cells: seq<Cell>): (r: Table)
    requires Rectangular(t) && |cells| == |t.rows|
    ensures Rectangular(r) && |r.rows| == |t.rows|
    ensures name in r.columns
  {
    match IndexOf(t.columns, name)
    case Some(j) =>
      Table(t.columns, seq(|t.rows|, i requires 0 <= i < |t.rows| => t.rows[i][j := cells[i]]))
    case None =>
      Table(t.columns + [name], seq(|t.rows|, i requires 0 <= i < |t.rows| => t.rows[i] + [cells[i]]))
  }

  /** `df[name] = value` with a scalar: the value broadcast to every row. */
  function Fill(t: Table, value: Cell): seq<Cell> {
    seq(|t.rows|, i => value)
  }

  /** `if name not in df.columns: df[name] = value`. */
  function WithDefault(t: Table, name: string, value: Cell): (r: Table)
    requires Rectangular(t)
    ensures Rectangular(r) && |r.rows| == |t.rows|
    ensures name in r.columns
  {
    if name in t.columns then t else SetColumn(t, name, Fill(t, value))
  }

  predicate AllText(cells: seq<Cell>) {
    forall i :: 0 <= i < |cells| ==> cells[i].Str?
  }

  /** `series.apply(normalize_name)` on text cells. */
  function NormalizeCells(cells: seq<Cell>): (r: seq<Cell>)
    requires AllText(cells)
    ensures |r| == |cells| && AllText(r)
  {
    seq(|cells|, i requires 0 <= i < |cells| => Str(NormalizeName(cells[i].s)))
  }

  /**
   * `df['club_name'] = df['club_name'].apply(normalize_name)` on a frame
   * whose labels are already normalised. A missing or numeric cell reaches
   * `normalize_name` as a float and raises; so does a duplicated label, where
   * `apply` hands whole columns to `normalize_name`.
   */
  function NormalizeClubs(t: Table): Result<Table, ParseError>
    requires Rectangular(t) && ClubColumn in t.columns
  {
    if Duplicated(t.columns, ClubColumn) then Failure(ClubNameNotText)
    else
      var cells := Column(t, IndexOf(t.columns, ClubColumn).value);
      if !AllText(cells) then Failure(ClubNameNotText)
      else Success(SetColumn(t, ClubColumn, NormalizeCells(cells)))
  }

  /** The club keys of a frame whose club column holds text. */
  function ClubKeys(t: Table): seq<string>
    requires Rectangular(t) && ClubColumn in t.columns
    requires AllText(Column(t, IndexOf(t.columns, ClubColumn).value))
  {
    var cells := Column(t, IndexOf(t.columns, ClubColumn).value);
    seq(|cells|, i requires 0 <= i < |cells| => cells[i].s)
  }

  /** The cells of the column labelled `name`. */
  function ColumnNamed(t: Table, name: string): seq<Cell>
    requires Rectangular(t) && name in t.columns
  {
    Column(t, IndexOf(t.columns, name).value)
  }

  /** Overwriting a column leaves the other columns as they were and holds the new cells. */
  lemma SetColumnCells(t: Table, name: string, cells: seq<Cell>, other: string)
    requires Rectangular(t) && |cells| == |t.rows|
    ensures ColumnNamed(SetColumn(t, name, cells), name) == cells
    ensures other != name && other in t.columns ==>
      other in SetColumn(t, name, cells).columns &&
      ColumnNamed(SetColumn(t, name, cells), other) == ColumnNamed(t, other)
  {
    SetColumnHolds(t, name, cells);
    if other != name && other in t.columns {
      SetColumnKeeps(t, name, cells, other);
    }
  }

  lemma SetColumnHolds(t: Table, name: string, cells: seq<Cell>)
    requires Rectangular(t) && |cells| == |t.rows|
    ensures ColumnNamed(SetColumn(t, name, cells), name) == cells
  {
    var r := SetColumn(t, name, cells);
    match IndexOf(t.columns, name)
    case Some(j) =>
      assert IndexOf(r.columns, name) == Some(j);
    case None =>
      assert r.columns == t.columns + [name];
      forall i | 0 <= i < |t.columns|
        ensures r.columns[i] != name
      {
        assert r.columns[i] == t.columns[i];
      }
      IndexOfFirst(r.columns, name, |t.columns|);
  }

  lemma SetColumnKeeps(t: Table, name: string, cells: seq<Cell>, other: string)
    requires Rectangular(t) && |cells| == |t.rows|
    requires other != name && other in t.columns
    ensures other in SetColumn(t, name, cells).columns
    ensures ColumnNamed(SetColumn(t, name, cells), other) == ColumnNamed(t, other)
  {
    var r := SetColumn(t, name, cells);
    var k := IndexOf(t.columns, other).value;
    if IndexOf(t.columns, name).None? {
      assert r.columns == t.columns + [name];
      forall i | 0 <= i < k
        ensures r.columns[i] != other
      {
        assert r.columns[i] == t.columns[i];
      }
      IndexOfFirst(r.columns, other, k);
    }
  }

  /** The frame with its labels normalised (src/processors.py:23 and :94). */
  function Headed(t: Table): Table {
    Table(NormalizeHeaders(t.columns), t.rows)
  }

  /** Defaulting column `name` leaves every other column as it was. */
  lemma DefaultKeepsColumn(t: Table, name: string, value: Cell, other: string)
    requires Rectangular(t) && other in t.columns && other != name
    ensures other in WithDefault(t, name, value).columns
    ensures ColumnNamed(WithDefault(t, name, value), other) == ColumnNamed(t, other)
  {
    if name !in t.columns {
      SetColumnCells(t, name, Fill(t, value), other);
    }
  }

  /** The column `name` after defaulting: the original cells, or the default on every row. */
  lemma DefaultColumn(t: Table, name: string, value: Cell)
    requires Rectangular(t)
    ensures ColumnNamed(WithDefault(t, name, value), name) ==
      if name in t.columns then ColumnNamed(t, name) else Fill(t, value)
  {
    if name !in t.columns {
      SetColumnCells(t, name, Fill(t, value), name);
    }
  }

  /** Defaulting column `name` neither adds nor removes a duplicate of another label. */
  lemma DefaultKeepsDuplicated(t: Table, name: string, value: Cell, other: string)
    requires Rectangular(t) && other != name
    ensures Duplicated(WithDefault(t, name, value).columns, other) <==> Duplicated(t.columns, other)
  {
    var r := WithDefault(t, name, value);
    if name !in t.columns {
      assert r.columns == t.columns + [name];
      if Duplicated(r.columns, other) {
        var i, j :| 0 <= i < j < |r.columns| && r.columns[i] == other && r.columns[j] == other;
        assert j < |t.columns|;
        assert t.columns[i] == other && t.columns[j] == other;
      }
      if Duplicated(t.columns, other) {
        var i, j :| 0 <= i < j < |t.columns| && t.columns[i] == other && t.columns[j] == other;
        assert r.columns[i] == other && r.columns[j] == other;
      }
    }
  }

  /** The input has a single `club_name` column (after normalising the labels) holding only text. */
  predicate Parses(t: Table) {
    && Rectangular(t)
    && ClubColumn in Headed(t).columns
    && !Duplicated(Headed(t).columns, ClubColumn)
    && AllText(ColumnNamed(Headed(t), ClubColumn))
  }

  /** The normalised club name of every input row. */
  function RawKeys(t: Table): seq<string>
    requires Parses(t)
  {
    NormalizedNames(ColumnNamed(Headed(t), ClubColumn))
  }

  /** The normalised names held by text cells. */
  function NormalizedNames(cells: seq<Cell>): seq<string>
    requires AllText(cells)
  {
    seq(|cells|, i requires 0 <= i < |cells| => NormalizeName(cells[i].s))
  }

  /** A club column overwritten with normalised text holds the normalised names as keys. */
  lemma ClubKeysNormalized(p: Table, cells: seq<Cell>)
    requires Rectangular(p) && ClubColumn in p.columns && AllText(cells)
    requires ColumnNamed(p, ClubColumn) == NormalizeCells(cells)
    ensures AllText(Column(p, IndexOf(p.columns, ClubColumn).value))
    ensures ClubKeys(p) == NormalizedNames(cells)
  {
  }

  /**
   * A DataFrame that the parsers change in place. Its fields are the
   * labels and rows; each method states the frame's new value as a function
   * of the old one.
   */
  class Frame {
    var columns: seq<string>
    var rows: seq<seq<Cell>>

    function Value(): Table
      reads this
    {
      Table(columns, rows)
    }

    /** The frame `pd.read_csv` returns for an already-decoded table. */
    constructor (t: Table)
      ensures Value() == t
    {
      columns := t.columns;
      rows := t.rows;
    }

    /** `df.columns = labels`. */
    method SetLabels(labels: seq<string>)
      requires |labels| == |columns|
      modifies this
      ensures Value() == Table(labels, old(rows))
    {
      columns := labels;
    }

    /** `df[name] = cells`. */
    method Assign(name: string, cells: seq<Cell>)
      requires Rectangular(Value()) && |cells| == |rows|
      modifies this
      ensures Value() == SetColumn(old(Value()), name, cells)
    {
      var t := SetColumn(Value(), name, cells);
      columns, rows := t.columns, t.rows;
    }
  }
}

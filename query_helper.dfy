/**
 * `Neo4j/lib/query_helper.py`: the date formatting of a query result and the CSV file that
 * `query_and_write` leaves behind. A cell holds the `str()` of its value, or is NULL.
 */
module QueryHelper {

  import opened Wrappers
  import opened Text

  datatype Cell = Null | Value(text: string)

  /** The exceptions the two functions can raise. */
  datatype QueryError = IndexError | AssertionError

  /** A line of the CSV file: the header, or a result row. */
  datatype Line = HeaderLine(names: seq<string>) | RowLine(cells: seq<Cell>)

  /** Python accepts `row[index]` for `-len <= index < len`. */
  predicate InRange(len: nat, index: int)
  {
    -(len as int) <= index < len
  }

  /** The position Python reads for `row[index]`: negative indices count from the end. */
  function Position(len: nat, index: int): (k: nat)
    requires InRange(len, index)
    ensures k < len
  {
    if index < 0 then len + index else index
  }

  /** `str(value).replace(" ", "T")`, leaving NULL alone. */
  function FormatCell(c: Cell): (r: Cell)
    ensures r.Null? <==> c.Null?
    ensures r.Value? ==> ' ' !in r.text && |r.text| == |c.text|
    ensures r.Value? ==> forall i :: 0 <= i < |c.text| && c.text[i] != ' ' ==> r.text[i] == c.text[i]
  {
    if c.Null? then Null else Value(ReplaceChar(c.text, ' ', 'T'))
  }

  /** Formatting a cell twice is formatting it once. */
  lemma FormatCellIdempotent(c: Cell)
    ensures FormatCell(FormatCell(c)) == FormatCell(c)
  {
    if c.Value? {
      var t := ReplaceChar(c.text, ' ', 'T');
      assert ReplaceChar(t, ' ', 'T') == t;
    }
  }

  /** One row after formatting column `index`. */
  function FormatRow(row: seq<Cell>, index: int): (r: seq<Cell>)
    requires InRange(|row|, index)
    ensures |r| == |row|
    ensures forall j :: 0 <= j < |row| && j != Position(|row|, index) ==> r[j] == row[j]
  {
    row[Position(|row|, index) := FormatCell(row[Position(|row|, index)])]
  }

  /** Every row of the result has a column `index`. */
  predicate AllInRange(data: seq<seq<Cell>>, index: int)
  {
    forall i :: 0 <= i < |data| ==> InRange(|data[i]|, index)
  }

  /** What `format_time_date` returns, or the IndexError it raises on a row that is too short. */
  function FormatRows(data: seq<seq<Cell>>, index: int): Result<seq<seq<Cell>>, QueryError>
  {
    if AllInRange(data, index)
    then Ok(seq(|data|, i requires 0 <= i < |data| => FormatRow(data[i], index)))
    else Err(IndexError)
  }

  /** `format_time_date`: formats column `index` of every row in turn. */
  method FormatTimeDate(data: seq<seq<Cell>>, index: int) returns (r: Result<seq<seq<Cell>>, QueryError>)
    ensures r == FormatRows(data, index)
    ensures r.Ok? <==> AllInRange(data, index)
    ensures r.Ok? ==> |r.value| == |data| && forall i :: 0 <= i < |data| ==>
              && |r.value[i]| == |data[i]|
              && (forall j :: 0 <= j < |data[i]| && j != Position(|data[i]|, index) ==> r.value[i][j] == data[i][j])
              && r.value[i][Position(|data[i]|, index)] == FormatCell(data[i][Position(|data[i]|, index)])
  {
    var rows := data;
    for i := 0 to |rows|
      invariant |rows| == |data| && AllInRange(data[..i], index)
      invariant forall k :: 0 <= k < i ==> rows[k] == FormatRow(data[k], index)
      invariant forall k :: i <= k < |data| ==> rows[k] == data[k]
    {
      if !InRange(|rows[i]|, index) {
        assert !InRange(|data[i]|, index);
        return Err(IndexError);
      }
      var k := Position(|rows[i]|, index);
      if rows[i][k] != Null {
        rows := rows[i := rows[i][k := Value(ReplaceChar(rows[i][k].text, ' ', 'T'))]];
      } else {
        assert data[i][k := Null] == data[i];
      }
      assert AllInRange(data[..i + 1], index) by {
        assert forall k :: 0 <= k < i + 1 ==> data[..i + 1][k] == data[k];
      }
    }
    assert data[..|data|] == data;
    assert rows == seq(|data|, i requires 0 <= i < |data| => FormatRow(data[i], index));
    r := Ok(rows);
  }

  /** Formatting a result twice is formatting it once. */
  lemma FormatRowsIdempotent(data: seq<seq<Cell>>, index: int)
    requires FormatRows(data, index).Ok?
    ensures FormatRows(FormatRows(data, index).value, index) == FormatRows(data, index)
  {
    var once := FormatRows(data, index).value;
    assert AllInRange(once, index) by {
      forall i | 0 <= i < |once| ensures InRange(|once[i]|, index) {
        assert |once[i]| == |data[i]|;
      }
    }
    forall i | 0 <= i < |data| ensures FormatRow(once[i], index) == once[i] {
      var k := Position(|data[i]|, index);
      assert |once[i]| == |data[i]| && Position(|once[i]|, index) == k;
      FormatCellIdempotent(data[i][k]);
      assert once[i][k] == FormatCell(data[i][k]);
    }
    assert seq(|once|, i requires 0 <= i < |once| => FormatRow(once[i], index)) == once;
  }

  function RowLines(rows: seq<seq<Cell>>): (r: seq<Line>)
    ensures |r| == |rows| && forall i :: 0 <= i < |rows| ==> r[i] == RowLine(rows[i])
  {
    seq(|rows|, i requires 0 <= i < |rows| => RowLine(rows[i]))
  }

  lemma RowLinesAppend(a: seq<seq<Cell>>, b: seq<seq<Cell>>)
    ensures RowLines(a + b) == RowLines(a) + RowLines(b)
  {
  }

  /** Appending the lines of the next batch extends the file to the rows fetched so far. */
  lemma BatchStep(rows: seq<seq<Cell>>, header: seq<string>, fetched: nat, upto: nat)
    requires fetched <= upto <= |rows|
    ensures [HeaderLine(header)] + RowLines(rows[..upto])
         == [HeaderLine(header)] + RowLines(rows[..fetched]) + RowLines(rows[fetched..upto])
  {
    assert rows[..upto] == rows[..fetched] + rows[fetched..upto];
    RowLinesAppend(rows[..fetched], rows[fetched..upto]);
  }

  /** How many rows `fetchmany` hands over at a time. */
  const BatchSize: nat := 65536

  /**
   * `query_and_write` after the query ran and returned `rows`: the file is removed first; with a
   * date column the whole result is formatted, and the file then holds the header and the
   * formatted rows if the first row is as long as the header; otherwise the rows are copied in
   * batches. `file` is None when the file does not exist afterwards.
   */
  method QueryAndWrite(rows: seq<seq<Cell>>, header: seq<string>, colAsDate: int)
    returns (file: Option<seq<Line>>, error: Option<QueryError>)
    ensures colAsDate == -1 ==> file == Some([HeaderLine(header)] + RowLines(rows)) && error == None
    ensures colAsDate != -1 && FormatRows(rows, colAsDate).Err? ==> file == None && error == Some(IndexError)
    ensures colAsDate != -1 && FormatRows(rows, colAsDate).Ok? ==>
              var data := FormatRows(rows, colAsDate).value;
              if |data| == 0 then file == Some([]) && error == Some(IndexError)
              else if |data[0]| != |header| then file == Some([]) && error == Some(AssertionError)
              else file == Some([HeaderLine(header)] + RowLines(data)) && error == None
  {
    file, error := None, None;
    if colAsDate != -1 {
      var formatted := FormatTimeDate(rows, colAsDate);
      if formatted.Err? {
        return None, Some(formatted.error);
      }
      var data := formatted.value;
      file := Some([]);
      if |data| == 0 {
        return file, Some(IndexError);
      }
      if |data[0]| != |header| {
        return file, Some(AssertionError);
      }
      file := Some([HeaderLine(header)] + RowLines(data));
    } else {
      var lines := CopyInBatches(rows, header);
      file := Some(lines);
    }
  }

  /** The batching branch: the header, then `fetchmany` batches until one comes back empty. */
  method CopyInBatches(rows: seq<seq<Cell>>, header: seq<string>) returns (lines: seq<Line>)
    ensures lines == [HeaderLine(header)] + RowLines(rows)
  {
    lines := [HeaderLine(header)];
    var fetched := 0;
    while true
      invariant 0 <= fetched <= |rows|
      invariant lines == [HeaderLine(header)] + RowLines(rows[..fetched])
      decreases |rows| - fetched
    {
      var upto := if fetched + BatchSize < |rows| then fetched + BatchSize else |rows|;
      var data := rows[fetched..upto];
      if |data| == 0 {
        break;
      }
      BatchStep(rows, header, fetched, upto);
      lines := lines + RowLines(data);
      fetched := upto;
    }
    assert rows[..fetched] == rows;
  }
}

/** The part of Ruby's `CSV.parse(text, headers: true)` the reader relies on: records are
    the "\n"-separated lines of the text, fields are separated by ",", the first record
    names the columns, and an empty or missing field reads as nil. */
module Csv {
  import opened Common
  import opened Text

  /** A parsed row: each column name that has a non-empty cell, mapped to that cell. */
  type Row = map<string, string>

  /** A parsed section: the column names and the data rows, in the order of the text. */
  datatype Table = Table(columns: seq<string>, rows: seq<Row>)

  /** `row[column]`: nil for an unknown column and for an empty or missing cell. */
  function Field(row: Row, column: string): Option<string> {
    if column in row then Some(row[column]) else None
  }

  /** Every row has a cell in the column, so reading it never gives nil. */
  predicate AllHave(rows: seq<Row>, column: string) {
    forall i :: 0 <= i < |rows| ==> column in rows[i]
  }

  /** The records of a CSV text: its "\n"-separated pieces, where a final "\n" closes
      the last record instead of opening an empty one. */
  function Records(text: string): seq<string> {
    if text == [] then []
    else
      var pieces := Split(text, '\n');
      if pieces[|pieces| - 1] == [] then pieces[..|pieces| - 1] else pieces
  }

  /** The fields of one record; an empty record has no fields at all. */
  function Fields(record: string): seq<string> {
    if record == [] then [] else Split(record, ',')
  }

  /** The row a record makes under the given header: the first column of a given name
      wins, as in `CSV::Row#[]`. */
  function RowOf(columns: seq<string>, fields: seq<string>): (row: Row)
    ensures forall c :: c in row ==> c in columns
    decreases |columns|
  {
    if columns == [] then map[]
    else
      var rest := RowOf(columns[1..], if fields == [] then [] else fields[1..]);
      if fields != [] && fields[0] != [] then rest[columns[0] := fields[0]]
      else rest - {columns[0]}
  }

  /** Reading a row by the first column of a name gives that column's cell, or nil when
      the cell is empty or the record is too short. */
  lemma {:induction false} RowOfLookup(columns: seq<string>, fields: seq<string>, i: nat)
    requires i < |columns|
    requires forall j :: 0 <= j < i ==> columns[j] != columns[i]
    ensures Field(RowOf(columns, fields), columns[i])
         == if i < |fields| && fields[i] != [] then Some(fields[i]) else None
    decreases i
  {
    if i > 0 {
      var fields' := if fields == [] then [] else fields[1..];
      RowOfLookup(columns[1..], fields', i - 1);
      assert columns[1..][i - 1] == columns[i];
      assert columns[0] != columns[i];
    }
  }

  /** `CSV.parse(lines.join, headers: true)`. */
  function ParseTable(lines: seq<string>): Table {
    var records := Records(Concat(lines));
    if records == [] then Table([], [])
    else
      var columns := Fields(records[0]);
      Table(columns, seq(|records| - 1, i requires 0 <= i < |records| - 1 => RowOf(columns, Fields(records[i + 1]))))
  }

  /** A parsed row only has cells under the table's own column names. */
  lemma TableColumns(lines: seq<string>, i: nat, c: string)
    requires i < |ParseTable(lines).rows| && c in ParseTable(lines).rows[i]
    ensures c in ParseTable(lines).columns
  {
    var records := Records(Concat(lines));
    var columns := Fields(records[0]);
    assert ParseTable(lines).rows[i] == RowOf(columns, Fields(records[i + 1]));
  }

  /** A line as `File.readlines` yields it: ending in its one "\n". */
  predicate IsLine(l: string) {
    |l| >= 1 && l[|l| - 1] == '\n' && '\n' !in l[..|l| - 1]
  }

  /** The lines `File.readlines` yields for a text: each but the last ends in its one "\n",
      and the last may instead be a non-empty line without one, as at the end of a file
      that does not end in a newline. */
  predicate ReadLines(lines: seq<string>) {
    (forall k :: 0 <= k < |lines| - 1 ==> IsLine(lines[k])) &&
    (lines != [] ==> IsLine(lines[|lines| - 1]) || (lines[|lines| - 1] != [] && '\n' !in lines[|lines| - 1]))
  }

  /** `String#chomp("\n")`: a line without its terminating "\n", if it has one. */
  function Chomp(l: string): (r: string)
    ensures '\n' !in l ==> r == l
  {
    if l != [] && l[|l| - 1] == '\n' then l[..|l| - 1] else l
  }

  /** The lines without their terminators. */
  function Chomps(lines: seq<string>): (r: seq<string>)
    ensures |r| == |lines|
    ensures forall k :: 0 <= k < |lines| ==> r[k] == Chomp(lines[k])
  {
    if lines == [] then [] else Chomps(lines[..|lines| - 1]) + [Chomp(lines[|lines| - 1])]
  }

  lemma {:induction false} SplitLines(lines: seq<string>, tail: string)
    requires forall k :: 0 <= k < |lines| ==> IsLine(lines[k])
    ensures Split(Concat(lines) + tail, '\n') == Chomps(lines) + Split(tail, '\n')
    decreases |lines|
  {
    if lines == [] {
      assert Concat(lines) + tail == tail;
      assert Chomps(lines) + Split(tail, '\n') == Split(tail, '\n');
    } else {
      var init := lines[..|lines| - 1];
      var l := lines[|lines| - 1];
      var c := Chomp(l);
      var x := c + ['\n'] + tail;
      assert '\n' !in c && Concat(lines) + tail == Concat(init) + x by {
        assert IsLine(l);
        assert l == c + ['\n'];
      }
      SplitLines(init, x);
      SplitFirst(c, '\n', tail);
      SplitLinesStep(Chomps(init), c, Split(tail, '\n'), Chomps(lines));
    }
  }

  lemma SplitLinesStep(a: seq<string>, c: string, b: seq<string>, ac: seq<string>)
    requires ac == a + [c]
    ensures a + ([c] + b) == ac + b
  {
  }

  /** The records of joined lines are the lines themselves, whether or not the last one
      ends in a newline. */
  lemma RecordsOfLines(lines: seq<string>)
    requires ReadLines(lines)
    ensures Records(Concat(lines)) == Chomps(lines)
  {
    if lines != [] {
      var init := lines[..|lines| - 1];
      var l := lines[|lines| - 1];
      if IsLine(l) {
        SplitLines(lines, []);
        assert Concat(lines) + [] == Concat(lines);
        assert Split([], '\n') == [[]];
        RecordsOfPieces(Concat(lines), Chomps(lines));
      } else {
        assert forall k :: 0 <= k < |init| ==> init[k] == lines[k];
        SplitLines(init, l);
        assert Concat(lines) == Concat(init) + l;
        assert Split(l, '\n') == [l] by {
          assert IndexOf(l, '\n') == |l|;
        }
        RecordsOfLast(Concat(lines), Chomps(init), l);
      }
    }
  }

  /** A text whose last "\n"-separated piece is not empty has all its pieces as records. */
  lemma RecordsOfLast(text: string, front: seq<string>, last: string)
    requires last != [] && Split(text, '\n') == front + [last]
    ensures Records(text) == front + [last]
  {
    assert Split([], '\n') == [[]];
    assert (front + [last])[|front|] == last;
  }

  /** A text whose "\n"-separated pieces end in an empty one has the other pieces as its
      records. */
  lemma RecordsOfPieces(text: string, front: seq<string>)
    requires Split(text, '\n') == front + [[]]
    ensures Records(text) == front
  {
    var pieces := Split(text, '\n');
    if text == [] {
      assert |pieces| == 1;
    } else {
      assert pieces[..|pieces| - 1] == front;
    }
  }

  /** A block of read lines parses as a table whose column names come from its first line
      and whose rows are its other lines, in order; a header-only block has no rows. */
  lemma ParseLines(lines: seq<string>)
    requires lines != [] && ReadLines(lines)
    ensures ParseTable(lines).columns == Fields(Chomp(lines[0]))
    ensures |ParseTable(lines).rows| == |lines| - 1
    ensures forall i :: 0 <= i < |lines| - 1 ==>
              ParseTable(lines).rows[i] == RowOf(Fields(Chomp(lines[0])), Fields(Chomp(lines[i + 1])))
  {
    var records := Records(Concat(lines));
    assert records == Chomps(lines) by {
      RecordsOfLines(lines);
    }
    var columns := Fields(records[0]);
    var t := ParseTable(lines);
    assert t.columns == columns && |t.rows| == |records| - 1;
    forall i | 0 <= i < |lines| - 1
      ensures t.rows[i] == RowOf(columns, Fields(Chomp(lines[i + 1])))
    {
      assert t.rows[i] == RowOf(columns, Fields(records[i + 1]));
    }
  }
}

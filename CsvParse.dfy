/** The hand-written CSV reader `parseCSV` of scripts/mergeDappData.mjs. */
module CsvParse {
  import opened Common
  import opened Strings

  /** The loop variables of `parseCSV`: finished rows, the cells of the row
      being read, the cell being read, and whether a quote is open. */
  datatype ScanState = ScanState(rows: seq<seq<string>>, row: seq<string>, current: string, inQuotes: bool)

  function Start(): ScanState { ScanState([], [], "", false) }

  /** What `parseCSV` does after the loop: a pending cell or row is flushed. */
  function Finish(st: ScanState): seq<seq<string>> {
    var row := if |st.current| > 0 || |st.row| > 0 then st.row + [Trim(st.current)] else st.row;
    if |row| > 0 then st.rows + [row] else st.rows
  }

  /** One turn of the loop of `parseCSV` on the character `c`, with `next`
      the character after it (`None` past the end). Returns how many
      characters the turn consumes and the new state:
      - a `"` inside quotes followed by another `"` is one literal quote;
        any other `"` opens or closes the quotes;
      - outside quotes, `,`, `\n` and `\r` end the (trimmed) cell; `\n` and
        the pair `\r\n` also end the row, a lone `\r` does not;
      - every other character is appended to the cell. */
  function Step(c: char, next: Option<char>, st: ScanState): (r: (nat, ScanState))
    ensures 1 <= r.0 <= 2 && (r.0 == 2 ==> next.Some?)
  {
    if c == '"' then
      if st.inQuotes && next == Some('"') then (2, st.(current := st.current + ['"']))
      else (1, st.(inQuotes := !st.inQuotes))
    else if !st.inQuotes && (c == ',' || c == '\n' || c == '\r') then
      var row := st.row + [Trim(st.current)];
      if c == '\n' then (1, ScanState(st.rows + [row], [], "", false))
      else if c == '\r' && next == Some('\n') then (2, ScanState(st.rows + [row], [], "", false))
      else (1, st.(row := row, current := ""))
    else (1, st.(current := st.current + [c]))
  }

  /** `text[1]`, when there is one. */
  function NextOf(text: string): Option<char>
    requires |text| >= 1
  {
    if |text| > 1 then Some(text[1]) else None
  }

  /** The rows `parseCSV` returns for the unread input `text` from state `st`. */
  function Scan(text: string, st: ScanState): seq<seq<string>>
    decreases |text|
  {
    if text == [] then Finish(st)
    else
      var r := Step(text[0], NextOf(text), st);
      Scan(text[r.0..], r.1)
  }

  /** `parseCSV(text)` */
  method ParseCsv(text: string) returns (rows: seq<seq<string>>)
    ensures rows == Scan(text, Start())
    ensures WellShaped(rows)
    ensures text == [] ==> rows == []
  {
    ScanWellShaped(text, Start());
    var st := Start();
    var i := 0;
    while i < |text|
      invariant 0 <= i <= |text|
      invariant Scan(text[i..], st) == Scan(text, Start())
      decreases |text| - i
    {
      var next := if i + 1 < |text| then Some(text[i + 1]) else None;
      ScanAt(text, i, st);
      var consumed;
      consumed, st := Turn(text[i], next, st);
      i := i + consumed;
    }
    assert text[i..] == [];
    rows := st.rows;
    if |st.current| > 0 || |st.row| > 0 {
      st := st.(row := st.row + [Trim(st.current)]);
    }
    if |st.row| > 0 {
      rows := rows + [st.row];
    }
  }

  /** The body of the loop of `parseCSV` on the character `c`, with `next`
      the character after it: it computes the turn `Step` describes. */
  method Turn(c: char, next: Option<char>, st: ScanState) returns (consumed: nat, st': ScanState)
    ensures (consumed, st') == Step(c, next, st)
    ensures 1 <= consumed <= 2
  {
    var rows, row, current, inQuotes := st.rows, st.row, st.current, st.inQuotes;
    consumed := 1;
    if c == '"' {
      if inQuotes && next == Some('"') {
        current := current + ['"'];
        consumed := 2;
      } else {
        inQuotes := !inQuotes;
      }
    } else if !inQuotes && (c == ',' || c == '\n' || c == '\r') {
      row := row + [Trim(current)];
      current := "";
      if c == '\n' {
        rows := rows + [row];
        row := [];
      } else if c == '\r' && next == Some('\n') {
        consumed := 2;
        rows := rows + [row];
        row := [];
      }
    } else {
      current := current + [c];
    }
    st' := ScanState(rows, row, current, inQuotes);
  }

  /** One turn of `Scan` read at position `i` of the whole input. */
  lemma ScanAt(text: string, i: nat, st: ScanState)
    requires i < |text|
    ensures var r := Step(text[i], if i + 1 < |text| then Some(text[i + 1]) else None, st);
      i + r.0 <= |text| && Scan(text[i..], st) == Scan(text[i + r.0..], r.1)
  {
    var r := Step(text[i], if i + 1 < |text| then Some(text[i + 1]) else None, st);
    assert text[i..][r.0..] == text[i + r.0..];
  }

  // ---------------------------------------------------------------------
  // Shape of the output

  /** Every row has at least one cell and every cell is trimmed. */
  predicate WellShaped(rows: seq<seq<string>>) {
    forall r :: 0 <= r < |rows| ==> RowShaped(rows[r])
  }

  predicate RowShaped(row: seq<string>) {
    |row| >= 1 && CellsTrimmed(row)
  }

  predicate CellsTrimmed(row: seq<string>) {
    forall k :: 0 <= k < |row| ==> IsTrimmed(row[k])
  }

  lemma RowsAppend(rows: seq<seq<string>>, row: seq<string>)
    requires WellShaped(rows) && RowShaped(row)
    ensures WellShaped(rows + [row])
  {
  }

  /** One turn keeps finished rows non-empty and all cells trimmed. */
  lemma StepWellShaped(c: char, next: Option<char>, st: ScanState)
    requires WellShaped(st.rows) && CellsTrimmed(st.row)
    ensures var st' := Step(c, next, st).1; WellShaped(st'.rows) && CellsTrimmed(st'.row)
  {
    if !st.inQuotes && (c == ',' || c == '\n' || c == '\r') {
      TrimSpec(st.current);
      RowsAppend(st.rows, st.row + [Trim(st.current)]);
    }
  }

  /** No empty row is ever produced (so input ending in a newline has no
      trailing empty row) and every cell comes out trimmed. */
  lemma {:induction false} ScanWellShaped(text: string, st: ScanState)
    requires WellShaped(st.rows) && CellsTrimmed(st.row)
    ensures WellShaped(Scan(text, st))
    decreases |text|
  {
    if text != [] {
      var r := Step(text[0], NextOf(text), st);
      StepWellShaped(text[0], NextOf(text), st);
      ScanWellShaped(text[r.0..], r.1);
    } else if |st.current| > 0 || |st.row| > 0 {
      TrimSpec(st.current);
      RowsAppend(st.rows, st.row + [Trim(st.current)]);
    }
  }

  /** Empty input has no rows. */
  lemma EmptyInput()
    ensures Scan("", Start()) == []
  {
  }

  // ---------------------------------------------------------------------
  // Round trip with a quoting writer

  /** The cell with every `"` doubled. */
  function Escape(cell: string): (r: string)
    ensures |r| >= |cell|
  {
    if cell == [] then []
    else if cell[0] == '"' then "\"\"" + Escape(cell[1..])
    else [cell[0]] + Escape(cell[1..])
  }

  /** A cell written in quotes. */
  function Quote(cell: string): string {
    "\"" + Escape(cell) + "\""
  }

  /** A row's cells, quoted and separated by commas. */
  function RowText(cells: seq<string>): string
    requires |cells| >= 1
  {
    if |cells| == 1 then Quote(cells[0]) else Quote(cells[0]) + "," + RowText(cells[1..])
  }

  /** Rows written one per line, each line ended by `\n`. */
  function CsvText(rows: seq<seq<string>>): string
    requires forall r :: 0 <= r < |rows| ==> |rows[r]| >= 1
  {
    if rows == [] then "" else RowText(rows[0]) + "\n" + CsvText(rows[1..])
  }

  /** Single turns of the scan, one lemma per kind of character. */
  lemma ScanPlain(c: char, rest: string, st: ScanState)
    requires c != '"' && (st.inQuotes || (c != ',' && c != '\n' && c != '\r'))
    ensures Scan([c] + rest, st) == Scan(rest, st.(current := st.current + [c]))
  {
    assert ([c] + rest)[1..] == rest;
  }

  lemma ScanDoubledQuote(rest: string, st: ScanState)
    requires st.inQuotes
    ensures Scan("\"\"" + rest, st) == Scan(rest, st.(current := st.current + ['"']))
  {
    assert ("\"\"" + rest)[2..] == rest;
  }

  lemma ScanToggle(rest: string, st: ScanState)
    requires !st.inQuotes || rest == [] || rest[0] != '"'
    ensures Scan("\"" + rest, st) == Scan(rest, st.(inQuotes := !st.inQuotes))
  {
    assert ("\"" + rest)[1..] == rest;
  }

  lemma ScanComma(rest: string, st: ScanState)
    requires !st.inQuotes
    ensures Scan("," + rest, st) == Scan(rest, st.(row := st.row + [Trim(st.current)], current := ""))
  {
    assert ("," + rest)[1..] == rest;
  }

  lemma ScanNewline(rest: string, st: ScanState)
    requires !st.inQuotes
    ensures Scan("\n" + rest, st) == Scan(rest, ScanState(st.rows + [st.row + [Trim(st.current)]], [], "", false))
  {
    assert ("\n" + rest)[1..] == rest;
  }

  lemma ScanCrLf(rest: string, st: ScanState)
    requires !st.inQuotes
    ensures Scan("\r\n" + rest, st) == Scan(rest, ScanState(st.rows + [st.row + [Trim(st.current)]], [], "", false))
  {
    assert ("\r\n" + rest)[2..] == rest;
  }

  lemma ScanLoneReturn(rest: string, st: ScanState)
    requires !st.inQuotes && (rest == [] || rest[0] != '\n')
    ensures Scan("\r" + rest, st) == Scan(rest, st.(row := st.row + [Trim(st.current)], current := ""))
  {
    assert ("\r" + rest)[1..] == rest;
  }

  /** The text after an escaped cell, split after its first character. */
  lemma EscapedText(cell: string, rest: string)
    requires cell != []
    ensures Escape(cell) + "\"" + rest
         == (if cell[0] == '"' then "\"\"" else [cell[0]]) + (Escape(cell[1..]) + "\"" + rest)
  {
  }

  /** Reading an escaped cell and its closing quote appends the cell to the
      current one and closes the quotes. */
  lemma {:induction false} ScanEscaped(cell: string, rest: string, st: ScanState)
    requires rest != [] && rest[0] != '"'
    requires st.inQuotes
    ensures Scan(Escape(cell) + "\"" + rest, st) == Scan(rest, st.(current := st.current + cell, inQuotes := false))
    decreases |cell|
  {
    if cell == [] {
      assert Escape(cell) + "\"" + rest == "\"" + rest;
      ScanToggle(rest, st);
      assert st.current + cell == st.current;
    } else {
      ScanEscaped(cell[1..], rest, st.(current := st.current + [cell[0]]));
      if cell[0] == '"' {
        ScanEscapedQuote(cell, rest, st);
      } else {
        ScanEscapedPlain(cell, rest, st);
      }
      SplitFirst(st.current, cell);
    }
  }

  lemma SplitFirst(a: string, cell: string)
    requires cell != []
    ensures a + [cell[0]] + cell[1..] == a + cell
  {
    assert [cell[0]] + cell[1..] == cell;
  }

  /** Inductive step of `ScanEscaped` for a cell starting with `"`. */
  lemma ScanEscapedQuote(cell: string, rest: string, st: ScanState)
    requires rest != [] && rest[0] != '"'
    requires st.inQuotes && cell != [] && cell[0] == '"'
    requires Scan(Escape(cell[1..]) + "\"" + rest, st.(current := st.current + [cell[0]]))
          == Scan(rest, st.(current := st.current + [cell[0]] + cell[1..], inQuotes := false))
    ensures Scan(Escape(cell) + "\"" + rest, st)
         == Scan(rest, st.(current := st.current + [cell[0]] + cell[1..], inQuotes := false))
  {
    EscapedText(cell, rest);
    ScanDoubledQuote(Escape(cell[1..]) + "\"" + rest, st);
  }

  /** Inductive step of `ScanEscaped` for a cell starting with another character. */
  lemma ScanEscapedPlain(cell: string, rest: string, st: ScanState)
    requires rest != [] && rest[0] != '"'
    requires st.inQuotes && cell != [] && cell[0] != '"'
    requires Scan(Escape(cell[1..]) + "\"" + rest, st.(current := st.current + [cell[0]]))
          == Scan(rest, st.(current := st.current + [cell[0]] + cell[1..], inQuotes := false))
    ensures Scan(Escape(cell) + "\"" + rest, st)
         == Scan(rest, st.(current := st.current + [cell[0]] + cell[1..], inQuotes := false))
  {
    EscapedText(cell, rest);
    ScanPlain(cell[0], Escape(cell[1..]) + "\"" + rest, st);
  }

  /** Reading a quoted cell from an empty cell yields exactly that cell. */
  lemma ScanQuoted(cell: string, rest: string, st: ScanState)
    requires rest != [] && rest[0] != '"'
    requires !st.inQuotes && st.current == ""
    ensures Scan(Quote(cell) + rest, st) == Scan(rest, st.(current := cell))
  {
    var inner := Escape(cell) + "\"" + rest;
    assert Quote(cell) + rest == "\"" + inner;
    if cell != [] {
      assert inner[0] == Escape(cell)[0];
    }
    ScanToggle(inner, st);
    ScanEscaped(cell, rest, st.(inQuotes := true));
    assert st.current + cell == cell;
  }

  /** Reading a written row and its `\n` closes the row with those cells. */
  lemma {:induction false} ScanRow(cells: seq<string>, rest: string, rows: seq<seq<string>>, row: seq<string>)
    requires |cells| >= 1 && CellsTrimmed(cells)
    ensures Scan(RowText(cells) + "\n" + rest, ScanState(rows, row, "", false))
         == Scan(rest, ScanState(rows + [row + cells], [], "", false))
    decreases |cells|
  {
    if |cells| == 1 {
      ScanLastCell(cells[0], rest, rows, row);
      assert [cells[0]] == cells;
    } else {
      ScanRow(cells[1..], rest, rows, row + [cells[0]]);
      ScanNextCell(cells, rest, rows, row);
      assert row + [cells[0]] + cells[1..] == row + cells by {
        assert [cells[0]] + cells[1..] == cells;
      }
    }
  }

  /** The last cell of a written row, and the line break after it. */
  lemma ScanLastCell(cell: string, rest: string, rows: seq<seq<string>>, row: seq<string>)
    requires IsTrimmed(cell)
    ensures Scan(RowText([cell]) + "\n" + rest, ScanState(rows, row, "", false))
         == Scan(rest, ScanState(rows + [row + [cell]], [], "", false))
  {
    var st := ScanState(rows, row, "", false);
    TrimSpec(cell);
    assert RowText([cell]) + "\n" + rest == Quote(cell) + ("\n" + rest);
    ScanQuoted(cell, "\n" + rest, st);
    ScanNewline(rest, st.(current := cell));
  }

  /** A cell of a written row followed by a comma. */
  lemma ScanNextCell(cells: seq<string>, rest: string, rows: seq<seq<string>>, row: seq<string>)
    requires |cells| >= 2 && IsTrimmed(cells[0])
    ensures Scan(RowText(cells) + "\n" + rest, ScanState(rows, row, "", false))
         == Scan(RowText(cells[1..]) + "\n" + rest, ScanState(rows, row + [cells[0]], "", false))
  {
    var st := ScanState(rows, row, "", false);
    var cell := cells[0];
    var more := RowText(cells[1..]) + "\n" + rest;
    TrimSpec(cell);
    assert RowText(cells) + "\n" + rest == Quote(cell) + ("," + more);
    ScanQuoted(cell, "," + more, st);
    ScanComma(more, st.(current := cell));
  }

  /** Rows of trimmed cells, written with every cell quoted and every row
      ended by `\n`, are read back unchanged. */
  lemma {:induction false} CsvRoundTrip(rows: seq<seq<string>>, done: seq<seq<string>>)
    requires WellShaped(rows)
    ensures Scan(CsvText(rows), ScanState(done, [], "", false)) == done + rows
    decreases |rows|
  {
    if rows == [] {
      assert done + rows == done;
    } else {
      ScanRow(rows[0], CsvText(rows[1..]), done, []);
      assert [] + rows[0] == rows[0];
      CsvRoundTrip(rows[1..], done + [rows[0]]);
      assert done + [rows[0]] + rows[1..] == done + rows;
    }
  }

  /** `parseCSV` reads back what the quoting writer wrote. */
  lemma ParseCsvRoundTrip(rows: seq<seq<string>>)
    requires WellShaped(rows)
    ensures Scan(CsvText(rows), Start()) == rows
  {
    CsvRoundTrip(rows, []);
    assert [] + rows == rows;
  }
}

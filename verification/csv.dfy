/** The score sheet export of the `downloadAllData` handler (game.js:343-350): every cell is
    wrapped in `"` with embedded `"` doubled, cells are joined with `,` and rows with a line
    feed. A reader for that format is given beside it, so that the export can be shown to
    lose nothing. */
module Csv {
  import opened Wrappers
  import opened Text

  /** One cell as written: `"` + the text with each `"` doubled + `"`. */
  function QuoteCell(text: string): (r: string)
    ensures |r| >= 2 && r[0] == '"' && r[|r| - 1] == '"'
  {
    "\"" + ReplaceAll(text, '"', "\"\"") + "\""
  }

  function QuoteCells(cells: seq<string>): (r: seq<string>)
    ensures |r| == |cells|
    ensures forall i :: 0 <= i < |cells| ==> r[i] == QuoteCell(cells[i])
  {
    if cells == [] then [] else [QuoteCell(cells[0])] + QuoteCells(cells[1..])
  }

  /** `r.map(quote).join(',')` */
  function Row(cells: seq<string>): string
  {
    Join(QuoteCells(cells), ",")
  }

  function Rows(rows: seq<seq<string>>): (r: seq<string>)
    ensures |r| == |rows|
    ensures forall i :: 0 <= i < |rows| ==> r[i] == Row(rows[i])
  {
    if rows == [] then [] else [Row(rows[0])] + Rows(rows[1..])
  }

  /** `rows.map(row).join('\n')` */
  function Table(rows: seq<seq<string>>): string
  {
    Join(Rows(rows), "\n")
  }

  /** Reads the text of a quoted cell that follows its opening `"`: a doubled `""` stands for
      one `"`, a single `"` closes the cell. Gives the text and what follows the closing
      quote, or nothing when the cell is never closed. */
  function ParseQuoted(s: string): (r: Option<(string, string)>)
    ensures r.Some? ==> |r.value.1| < |s|
    decreases |s|
  {
    if s == [] then None
    else if s[0] == '"' then
      if |s| >= 2 && s[1] == '"' then
        match ParseQuoted(s[2..])
        case None => None
        case Some((text, rest)) => Some(("\"" + text, rest))
      else Some(("", s[1..]))
    else
      match ParseQuoted(s[1..])
      case None => None
      case Some((text, rest)) => Some(([s[0]] + text, rest))
  }

  function ParseCell(s: string): (r: Option<(string, string)>)
    ensures r.Some? ==> |r.value.1| < |s|
  {
    if s != [] && s[0] == '"' then ParseQuoted(s[1..]) else None
  }

  /** Reads quoted cells separated by `,`; gives them and the text after the last one. */
  function ParseRow(s: string): (r: Option<(seq<string>, string)>)
    ensures r.Some? ==> |r.value.1| < |s|
    decreases |s|
  {
    match ParseCell(s)
    case None => None
    case Some((cell, rest)) =>
      if rest != [] && rest[0] == ',' then
        match ParseRow(rest[1..])
        case None => None
        case Some((cells, after)) => Some(([cell] + cells, after))
      else Some(([cell], rest))
  }

  /** Reads rows separated by line feeds up to the end of the text. */
  function ParseTable(s: string): (r: Option<seq<seq<string>>>)
    decreases |s|
  {
    match ParseRow(s)
    case None => None
    case Some((row, rest)) =>
      if rest == [] then Some([row])
      else if rest[0] == '\n' then
        match ParseTable(rest[1..])
        case None => None
        case Some(rows) => Some([row] + rows)
      else None
  }

  /** Commas (or another separator `sep`) that stand outside every quoted cell; `inQuotes`
      says whether the scan starts inside a cell. */
  function Unquoted(s: string, sep: char, inQuotes: bool): nat
  {
    if s == [] then 0
    else if s[0] == '"' then Unquoted(s[1..], sep, !inQuotes)
    else (if !inQuotes && s[0] == sep then 1 else 0) + Unquoted(s[1..], sep, inQuotes)
  }

  /** A quoted cell holds an even number of `"`: its two delimiters and two per `"` of the
      text. */
  lemma QuoteCellQuotes(text: string)
    ensures Count(QuoteCell(text), '"') == 2 + 2 * Count(text, '"')
  {
    var body := ReplaceAll(text, '"', "\"\"");
    DoubledQuotes(text);
    CountAppend("\"", body, '"');
    CountAppend("\"" + body, "\"", '"');
  }

  lemma {:induction false} DoubledQuotes(text: string)
    ensures Count(ReplaceAll(text, '"', "\"\""), '"') == 2 * Count(text, '"')
  {
    if text != [] {
      var head := if text[0] == '"' then "\"\"" else [text[0]];
      DoubledQuotes(text[1..]);
      CountAppend(head, ReplaceAll(text[1..], '"', "\"\""), '"');
    }
  }

  /** Undoubling the interior of a quoted cell gives back its text, and reading stops right
      after the closing quote. */
  lemma {:induction false} ParseQuotedDoubled(text: string, t: string)
    requires t == [] || t[0] != '"'
    ensures ParseQuoted(ReplaceAll(text, '"', "\"\"") + "\"" + t) == Some((text, t))
  {
    var s := ReplaceAll(text, '"', "\"\"") + "\"" + t;
    if text == [] {
      assert s == "\"" + t;
      assert s[1..] == t;
    } else {
      var tail := ReplaceAll(text[1..], '"', "\"\"") + "\"" + t;
      ParseQuotedDoubled(text[1..], t);
      if text[0] == '"' {
        assert s == "\"\"" + tail;
        assert s[2..] == tail;
        assert text == "\"" + text[1..];
      } else {
        assert s == [text[0]] + tail;
        assert s[1..] == tail;
        assert text == [text[0]] + text[1..];
      }
    }
  }

  /** Reading a written cell gives back its text. */
  lemma ParseQuoteCell(text: string, t: string)
    requires t == [] || t[0] != '"'
    ensures ParseCell(QuoteCell(text) + t) == Some((text, t))
  {
    var s := QuoteCell(text) + t;
    ParseQuotedDoubled(text, t);
    assert s[1..] == ReplaceAll(text, '"', "\"\"") + "\"" + t;
  }

  lemma ParseRowLast(s: string, cell: string, rest: string)
    requires ParseCell(s) == Some((cell, rest))
    requires rest == [] || rest[0] != ','
    ensures ParseRow(s) == Some(([cell], rest))
  {
  }

  lemma ParseRowMore(s: string, cell: string, rest: string, cells: seq<string>, after: string)
    requires ParseCell(s) == Some((cell, rest))
    requires rest != [] && rest[0] == ','
    requires ParseRow(rest[1..]) == Some((cells, after))
    ensures ParseRow(s) == Some(([cell] + cells, after))
  {
  }

  /** Each row as written reads back as its cells, provided what follows it does not
      continue the last cell. */
  lemma {:induction false} ParseRowAppend(cells: seq<string>, t: string)
    requires |cells| > 0
    requires t == [] || (t[0] != ',' && t[0] != '"')
    ensures ParseRow(Row(cells) + t) == Some((cells, t))
    decreases |cells|
  {
    if |cells| == 1 {
      ParseRowSingle(cells, t);
    } else {
      ParseRowAppend(cells[1..], t);
      RowCons(cells);
      ParseRowStep(cells[0], cells[1..], Row(cells[1..]), t);
      assert cells == [cells[0]] + cells[1..];
    }
  }

  lemma ParseRowSingle(cells: seq<string>, t: string)
    requires |cells| == 1
    requires t == [] || (t[0] != ',' && t[0] != '"')
    ensures ParseRow(Row(cells) + t) == Some((cells, t))
  {
    assert Row(cells) == QuoteCell(cells[0]);
    ParseQuoteCell(cells[0], t);
    ParseRowLast(Row(cells) + t, cells[0], t);
    assert cells == [cells[0]];
  }

  lemma ParseRowStep(c: string, cs: seq<string>, r: string, t: string)
    requires ParseRow(r + t) == Some((cs, t))
    ensures ParseRow(QuoteCell(c) + "," + r + t) == Some(([c] + cs, t))
  {
    var rest := "," + r + t;
    assert QuoteCell(c) + "," + r + t == QuoteCell(c) + rest;
    ParseQuoteCell(c, rest);
    assert rest[1..] == r + t;
    ParseRowMore(QuoteCell(c) + rest, c, rest, cs, t);
  }

  lemma RowCons(cells: seq<string>)
    requires |cells| > 1
    ensures Row(cells) == QuoteCell(cells[0]) + "," + Row(cells[1..])
  {
    assert QuoteCells(cells)[1..] == QuoteCells(cells[1..]);
  }

  lemma TableCons(rows: seq<seq<string>>)
    requires |rows| > 1
    ensures Table(rows) == Row(rows[0]) + "\n" + Table(rows[1..])
  {
    assert Rows(rows)[1..] == Rows(rows[1..]);
  }

  predicate NoEmptyRow(rows: seq<seq<string>>)
  {
    forall i :: 0 <= i < |rows| ==> |rows[i]| > 0
  }

  /** Reading the exported text gives back exactly the rows that were written, provided there
      is at least one row and no row is empty (an empty row writes nothing at all). */
  lemma {:induction false} TableRoundTrip(rows: seq<seq<string>>)
    requires |rows| > 0 && NoEmptyRow(rows)
    ensures ParseTable(Table(rows)) == Some(rows)
    decreases |rows|
  {
    if |rows| == 1 {
      TableSingle(rows);
    } else {
      TableRoundTrip(rows[1..]);
      TableStep(rows);
    }
  }

  lemma TableSingle(rows: seq<seq<string>>)
    requires |rows| == 1 && |rows[0]| > 0
    ensures ParseTable(Table(rows)) == Some(rows)
  {
    assert Table(rows) == Row(rows[0]) + "";
    ParseRowAppend(rows[0], "");
    ParseTableLast(Table(rows), rows[0]);
    assert rows == [rows[0]];
  }

  lemma TableStep(rows: seq<seq<string>>)
    requires |rows| > 1 && |rows[0]| > 0
    requires ParseTable(Table(rows[1..])) == Some(rows[1..])
    ensures ParseTable(Table(rows)) == Some(rows)
  {
    TableCons(rows);
    var rest := "\n" + Table(rows[1..]);
    assert Table(rows) == Row(rows[0]) + rest;
    ParseRowAppend(rows[0], rest);
    assert rest[1..] == Table(rows[1..]);
    ParseTableMore(Table(rows), rows[0], rest, rows[1..]);
    assert rows == [rows[0]] + rows[1..];
  }

  lemma ParseTableLast(s: string, row: seq<string>)
    requires ParseRow(s) == Some((row, ""))
    ensures ParseTable(s) == Some([row])
  {
  }

  lemma ParseTableMore(s: string, row: seq<string>, rest: string, rows: seq<seq<string>>)
    requires ParseRow(s) == Some((row, rest))
    requires rest != [] && rest[0] == '\n'
    requires ParseTable(rest[1..]) == Some(rows)
    ensures ParseTable(s) == Some([row] + rows)
  {
  }

  lemma UnquotedCons(c: char, t: string, sep: char, inQuotes: bool)
    ensures Unquoted([c] + t, sep, inQuotes)
         == if c == '"' then Unquoted(t, sep, !inQuotes)
            else (if !inQuotes && c == sep then 1 else 0) + Unquoted(t, sep, inQuotes)
  {
    assert ([c] + t)[0] == c && ([c] + t)[1..] == t;
  }

  /** Inside a cell, each doubled `"` leaves the scan inside the cell and nothing counts. */
  lemma {:induction false} UnquotedDoubled(text: string, u: string, sep: char)
    requires sep != '"'
    ensures Unquoted(ReplaceAll(text, '"', "\"\"") + u, sep, true) == Unquoted(u, sep, true)
  {
    if text == [] {
      assert ReplaceAll(text, '"', "\"\"") + u == u;
    } else {
      var rest := ReplaceAll(text[1..], '"', "\"\"") + u;
      UnquotedDoubled(text[1..], u, sep);
      if text[0] == '"' {
        assert ReplaceAll(text, '"', "\"\"") + u == ['"'] + (['"'] + rest);
        UnquotedCons('"', ['"'] + rest, sep, true);
        UnquotedCons('"', rest, sep, false);
      } else {
        assert ReplaceAll(text, '"', "\"\"") + u == [text[0]] + rest;
        UnquotedCons(text[0], rest, sep, true);
      }
    }
  }

  /** Nothing inside a quoted cell is seen as a separator. */
  lemma UnquotedCell(text: string, t: string, sep: char)
    requires sep != '"'
    ensures Unquoted(QuoteCell(text) + t, sep, false) == Unquoted(t, sep, false)
  {
    var s := QuoteCell(text) + t;
    assert s == ['"'] + (ReplaceAll(text, '"', "\"\"") + ("\"" + t));
    UnquotedCons('"', ReplaceAll(text, '"', "\"\"") + ("\"" + t), sep, false);
    UnquotedDoubled(text, "\"" + t, sep);
    UnquotedCons('"', t, sep, true);
  }

  /** A row of n cells has exactly n - 1 commas outside quotes, and no unquoted line feed. */
  lemma {:induction false} RowSeparators(cells: seq<string>, t: string)
    requires |cells| > 0
    ensures Unquoted(Row(cells) + t, ',', false) == |cells| - 1 + Unquoted(t, ',', false)
    ensures Unquoted(Row(cells) + t, '\n', false) == Unquoted(t, '\n', false)
    decreases |cells|
  {
    if |cells| == 1 {
      assert Row(cells) == QuoteCell(cells[0]);
      UnquotedCell(cells[0], t, ',');
      UnquotedCell(cells[0], t, '\n');
    } else {
      var rest := "," + Row(cells[1..]) + t;
      assert Row(cells) + t == QuoteCell(cells[0]) + rest by { RowCons(cells); }
      UnquotedCell(cells[0], rest, ',');
      UnquotedCell(cells[0], rest, '\n');
      assert rest[1..] == Row(cells[1..]) + t;
      RowSeparators(cells[1..], t);
    }
  }

  /** Rows are separated by exactly |rows| - 1 unquoted line feeds: none after the last row. */
  lemma {:induction false} TableLineFeeds(rows: seq<seq<string>>)
    requires |rows| > 0 && NoEmptyRow(rows)
    ensures Unquoted(Table(rows), '\n', false) == |rows| - 1
    ensures Table(rows)[|Table(rows)| - 1] == '"'
    decreases |rows|
  {
    if |rows| == 1 {
      assert Table(rows) == Row(rows[0]) + "";
      RowSeparators(rows[0], "");
      RowEndsWithQuote(rows[0]);
    } else {
      var rest := "\n" + Table(rows[1..]);
      assert Table(rows) == Row(rows[0]) + rest by { TableCons(rows); }
      RowSeparators(rows[0], rest);
      TableLineFeeds(rows[1..]);
      UnquotedCons('\n', Table(rows[1..]), '\n', false);
    }
  }

  lemma {:induction false} RowEndsWithQuote(cells: seq<string>)
    requires |cells| > 0
    ensures |Row(cells)| > 0 && Row(cells)[0] == '"' && Row(cells)[|Row(cells)| - 1] == '"'
    decreases |cells|
  {
    if |cells| > 1 {
      assert QuoteCells(cells)[1..] == QuoteCells(cells[1..]);
      RowEndsWithQuote(cells[1..]);
    }
  }

  /** `field?.value || fallback`: an absent input or an empty value gives the fallback. */
  function ValueOr(field: Option<string>, fallback: string): string
  {
    if field.Some? && field.value != "" then field.value else fallback
  }

  /** The four rows of the score sheet: a header, then per level its name, the score typed in
      the rubric (or, when that input is absent or empty, the stored score) and the note. */
  function ScoreRows(scores: seq<nat>, scoreFields: seq<Option<string>>, noteFields: seq<Option<string>>)
    : (rows: seq<seq<string>>)
    requires |scores| == 3 && |scoreFields| == 3 && |noteFields| == 3
    ensures |rows| == 4 && NoEmptyRow(rows)
    ensures forall k :: 0 <= k <= 3 ==> |rows[k]| == 3
  {
    [["Criteria", "Score", "Notes"],
     ["Level1", ValueOr(scoreFields[0], NatToString(scores[0])), ValueOr(noteFields[0], "")],
     ["Level2", ValueOr(scoreFields[1], NatToString(scores[1])), ValueOr(noteFields[1], "")],
     ["Level3", ValueOr(scoreFields[2], NatToString(scores[2])), ValueOr(noteFields[2], "")]]
  }

  /** The score cell of a level: the value typed in the rubric when that input is present and
      not empty, and otherwise the stored score, written in decimal. */
  lemma ScoreCell(scores: seq<nat>, scoreFields: seq<Option<string>>,
                  noteFields: seq<Option<string>>, k: nat)
    requires |scores| == 3 && |scoreFields| == 3 && |noteFields| == 3 && 1 <= k <= 3
    ensures var cell := ScoreRows(scores, scoreFields, noteFields)[k][1];
            if scoreFields[k - 1].Some? && scoreFields[k - 1].value != "" then
              cell == scoreFields[k - 1].value
            else
              (forall i :: 0 <= i < |cell| ==> IsDigit(cell[i])) && DecimalValue(cell) == scores[k - 1]
  {
    NatToStringRoundTrip(scores[k - 1]);
  }

  /** The text the `downloadAllData` handler puts in the file. */
  function ExportCsv(scores: seq<nat>, scoreFields: seq<Option<string>>, noteFields: seq<Option<string>>)
    : (csv: string)
    requires |scores| == 3 && |scoreFields| == 3 && |noteFields| == 3
    ensures ParseTable(csv) == Some(ScoreRows(scores, scoreFields, noteFields))
    ensures Unquoted(csv, '\n', false) == 3
  {
    var rows := ScoreRows(scores, scoreFields, noteFields);
    TableRoundTrip(rows);
    TableLineFeeds(rows);
    Table(rows)
  }
}

/** The comma-separated text `exportToCSV` builds: every cell wrapped in
    double quotes, cells joined by `,`, rows joined by `\n`. Quotes inside a
    cell are written as they are, not doubled as section 2, rule 7 of
    RFC 4180 asks. */
module Csv {
  import opened Seqs
  import opened Text

  /** `"${cell}"`. */
  function Quote(cell: string): (r: string)
    ensures |r| == |cell| + 2 && r[0] == '"' && r[|r| - 1] == '"'
    ensures r[1..|r| - 1] == cell
  {
    "\"" + cell + "\""
  }

  function EncodeRow(row: seq<string>): string {
    Join(Map(row, Quote), ',')
  }

  function Encode(rows: seq<seq<string>>): string {
    Join(Map(rows, EncodeRow), '\n')
  }

  // ------------------------------------------------------------- reading

  predicate IsSeparator(c: char) {
    c == ',' || c == '\n'
  }

  /** `t` is empty or starts with a separator: a cell may end here. */
  predicate AtCellEnd(t: string) {
    |t| == 0 || IsSeparator(t[0])
  }

  /** The length of a quoted cell's content, read after its opening quote:
      up to the first `"` followed by a separator or by the end of the
      text, or all of `t` when no quote closes the cell. */
  function ClosingQuote(t: string): (n: nat)
    ensures n <= |t|
    ensures n < |t| ==> t[n] == '"' && AtCellEnd(t[n + 1..])
    ensures forall k :: 0 <= k < n ==> !(t[k] == '"' && AtCellEnd(t[k + 1..]))
    decreases |t|
  {
    if |t| == 0 then 0
    else if t[0] == '"' && AtCellEnd(t[1..]) then 0
    else
      var m := ClosingQuote(t[1..]);
      assert forall k :: 1 <= k < m + 1 ==> t[k] == t[1..][k - 1] && t[k + 1..] == t[1..][k..];
      assert m < |t| - 1 ==> t[m + 2..] == t[1..][m + 1..];
      1 + m
  }

  /** The length of an unquoted cell: up to the first separator. */
  function PlainLength(t: string): (n: nat)
    ensures n <= |t| && AtCellEnd(t[n..])
    ensures forall k :: 0 <= k < n ==> !IsSeparator(t[k])
    decreases |t|
  {
    if |t| == 0 || IsSeparator(t[0]) then 0
    else
      var m := PlainLength(t[1..]);
      assert t[m + 1..] == t[1..][m..];
      1 + m
  }

  /** One cell and the text after it, which starts at the separator that
      ends the cell. A quoted cell loses its enclosing quotes; an
      unclosed quote runs to the end of the text. */
  function ReadCell(t: string): (r: (string, string))
    ensures |r.1| <= |t| && AtCellEnd(r.1)
  {
    if |t| > 0 && t[0] == '"' then
      var n := ClosingQuote(t[1..]);
      if n < |t| - 1 then
        assert t[n + 2..] == t[1..][n + 1..];
        (t[1..n + 1], t[n + 2..])
      else (t[1..], "")
    else
      var n := PlainLength(t);
      (t[..n], t[n..])
  }

  /** One line's cells: cells separated by `,`, up to a line break (left
      in the rest) or the end of the text. */
  function ReadRow(t: string): (r: (seq<string>, string))
    ensures |r.0| > 0
    ensures |r.1| <= |t| && (|r.1| == 0 || r.1[0] == '\n')
    decreases |t|
  {
    var c := ReadCell(t);
    if |c.1| > 0 && c.1[0] == ',' then
      var row := ReadRow(c.1[1..]);
      ([c.0] + row.0, row.1)
    else ([c.0], c.1)
  }

  /** A reader in the manner of RFC 4180 for the text `Encode` writes:
      lines end at `\n`, cells at `,`, and a separator between a cell's
      quotes belongs to the cell. Since the writer never doubles quotes, a
      quote closes its cell only when a separator or the end follows it. */
  function Decode(text: string): (rows: seq<seq<string>>)
    ensures |rows| > 0
    ensures forall i :: 0 <= i < |rows| ==> |rows[i]| > 0
    decreases |text|
  {
    var row := ReadRow(text);
    if |row.1| == 0 then [row.0] else [row.0] + Decode(row.1[1..])
  }

  // ---------------------------------------------------------- round trip

  /** No cell holds a double quote. */
  predicate QuoteFree(rows: seq<seq<string>>) {
    forall i, j :: 0 <= i < |rows| && 0 <= j < |rows[i]| ==> '"' !in rows[i][j]
  }

  /** At least one row, and no row without cells. */
  predicate Rectangular(rows: seq<seq<string>>) {
    |rows| > 0 && forall i :: 0 <= i < |rows| ==> |rows[i]| > 0
  }

  lemma {:induction false} ClosingQuoteOf(c: string, rest: string)
    requires '"' !in c && AtCellEnd(rest)
    ensures ClosingQuote(c + ['"'] + rest) == |c|
    decreases |c|
  {
    var t := c + ['"'] + rest;
    if |c| == 0 {
      assert t[0] == '"' && t[1..] == rest;
    } else {
      assert t[0] == c[0] && c[0] != '"';
      assert t[1..] == c[1..] + ['"'] + rest;
      ClosingQuoteOf(c[1..], rest);
    }
  }

  /** A quoted cell without inner quotes reads back as the cell, up to the
      separator after it. */
  lemma ReadCellQuote(c: string, rest: string)
    requires '"' !in c && AtCellEnd(rest)
    ensures ReadCell(Quote(c) + rest) == (c, rest)
  {
    var t := Quote(c) + rest;
    assert t[1..] == c + ['"'] + rest;
    ClosingQuoteOf(c, rest);
    assert t[1..|c| + 1] == c;
    assert t[|c| + 2..] == rest;
  }

  lemma EncodeRowCons(row: seq<string>)
    requires |row| > 1
    ensures EncodeRow(row) == Quote(row[0]) + [','] + EncodeRow(row[1..])
  {
    assert Map(row, Quote) == [Quote(row[0])] + Map(row[1..], Quote);
    JoinCons(Quote(row[0]), Map(row[1..], Quote), ',');
  }

  /** Reading an encoded row of several cells reads its first cell, then
      the rest of the row. */
  lemma ReadRowEncodeStep(row: seq<string>, rest: string)
    requires |row| > 1 && '"' !in row[0]
    ensures ReadRow(EncodeRow(row) + rest) ==
      ([row[0]] + ReadRow(EncodeRow(row[1..]) + rest).0, ReadRow(EncodeRow(row[1..]) + rest).1)
  {
    var t := EncodeRow(row[1..]) + rest;
    assert EncodeRow(row) + rest == Quote(row[0]) + ([','] + t) by {
      EncodeRowCons(row);
    }
    ReadCellQuote(row[0], [','] + t);
    assert ([','] + t)[1..] == t;
  }

  lemma {:induction false} ReadRowEncode(row: seq<string>, rest: string)
    requires |row| > 0 && forall j :: 0 <= j < |row| ==> '"' !in row[j]
    requires |rest| == 0 || rest[0] == '\n'
    ensures ReadRow(EncodeRow(row) + rest) == (row, rest)
    decreases |row|
  {
    if |row| == 1 {
      assert EncodeRow(row) == Quote(row[0]);
      ReadCellQuote(row[0], rest);
      assert row == [row[0]];
    } else {
      ReadRowEncodeStep(row, rest);
      ReadRowEncode(row[1..], rest);
      assert [row[0]] + row[1..] == row;
    }
  }

  lemma EncodeCons(rows: seq<seq<string>>)
    requires |rows| > 1
    ensures Encode(rows) == EncodeRow(rows[0]) + (['\n'] + Encode(rows[1..]))
  {
    assert Map(rows, EncodeRow) == [EncodeRow(rows[0])] + Map(rows[1..], EncodeRow);
    JoinCons(EncodeRow(rows[0]), Map(rows[1..], EncodeRow), '\n');
  }

  /** Reading an encoded table of several rows reads its first row, then
      the rest of the table. */
  lemma DecodeEncodeStep(rows: seq<seq<string>>)
    requires |rows| > 1 && |rows[0]| > 0
    requires forall j :: 0 <= j < |rows[0]| ==> '"' !in rows[0][j]
    ensures Decode(Encode(rows)) == [rows[0]] + Decode(Encode(rows[1..]))
  {
    var tail := Encode(rows[1..]);
    EncodeCons(rows);
    ReadRowEncode(rows[0], ['\n'] + tail);
    assert (['\n'] + tail)[1..] == tail;
  }

  /** Reading back the exported text recovers the table whenever no cell
      holds a double quote; commas and line breaks inside cells are kept. */
  lemma {:induction false} DecodeEncode(rows: seq<seq<string>>)
    requires Rectangular(rows) && QuoteFree(rows)
    ensures Decode(Encode(rows)) == rows
    decreases |rows|
  {
    if |rows| == 1 {
      assert Encode(rows) == EncodeRow(rows[0]) + "";
      ReadRowEncode(rows[0], "");
    } else {
      DecodeEncodeStep(rows);
      assert Rectangular(rows[1..]) && QuoteFree(rows[1..]);
      DecodeEncode(rows[1..]);
      assert [rows[0]] + rows[1..] == rows;
    }
  }

  /** The first row reads back whatever the later rows hold, quotes
      included. */
  lemma FirstRowReadsBack(rows: seq<seq<string>>)
    requires |rows| > 0 && |rows[0]| > 0
    requires forall j :: 0 <= j < |rows[0]| ==> '"' !in rows[0][j]
    ensures Decode(Encode(rows))[0] == rows[0]
  {
    if |rows| == 1 {
      assert Encode(rows) == EncodeRow(rows[0]) + "";
      ReadRowEncode(rows[0], "");
    } else {
      EncodeCons(rows);
      ReadRowEncode(rows[0], ['\n'] + Encode(rows[1..]));
    }
  }

  /** A shopkeeper named `Smith, John` survives the round trip as one
      cell. */
  lemma SeparatorInCellReadsBack()
    ensures Decode(Encode([["Smith, John", "2"]])) == [["Smith, John", "2"]]
  {
    DecodeEncode([["Smith, John", "2"]]);
  }

  /** Because embedded quotes are not doubled, two different rows can be
      written as the same line: a one-cell row `a","b` and the two-cell row
      `a`, `b` both become `"a","b"`. */
  lemma EmbeddedQuotesAmbiguous()
    ensures EncodeRow(["a\",\"b"]) == EncodeRow(["a", "b"])
    ensures ["a\",\"b"] != ["a", "b"]
  {
    var one := Map(["a\",\"b"], Quote);
    assert |one| == 1 && one[0] == Quote("a\",\"b");
    assert EncodeRow(["a\",\"b"]) == "\"a\",\"b\"";
    var two := Map(["a", "b"], Quote);
    assert |two| == 2 && two[0] == Quote("a") && two[1] == Quote("b");
    assert two[1..] == [Quote("b")];
    assert Join(two, ',') == Quote("a") + [','] + Quote("b");
  }

  /** No table and a table of one empty row are both written as the empty
      text, which reads back as one row holding one empty cell. */
  lemma EmptyTablesAmbiguous()
    ensures Encode([]) == "" && Encode([[]]) == ""
    ensures Decode("") == [[""]]
  {
    assert Map([[]], EncodeRow) == [""];
  }
}

/** SqlToHtml (package sk.antons.jdbc.util): runs one select and renders its rows as an HTML
    table, optionally one page of them, with extra columns filled from `${label}` templates.
    The connection is abstracted as the answer the database gives to the cleaned sql; each
    cell arrives as the string the column's getter (or the date formatter) produced. */
module SqlHtml {
  import opened Wrappers
  import opened Text

  // ---------------------------------------------------------------------
  // java.sql.Types codes the renderer distinguishes

  const TIMESTAMP: int := 93
  const DATE: int := 91
  const BIGINT: int := -5
  const DOUBLE: int := 8
  const FLOAT: int := 6
  const INTEGER: int := 4
  const NUMERIC: int := 2
  const REAL: int := 7
  const SMALLINT: int := 5
  const TINYINT: int := -6
  const DECIMAL: int := 3

  const NumberTypes: set<int> := {BIGINT, DOUBLE, FLOAT, INTEGER, NUMERIC, REAL, SMALLINT, TINYINT}

  /** isNumberType(type): true for the eight listed codes only (DECIMAL is not among them). */
  function IsNumberType(t: int): (r: bool)
    ensures r <==> t in NumberTypes
  {
    if t == BIGINT then true
    else if t == DOUBLE then true
    else if t == FLOAT then true
    else if t == INTEGER then true
    else if t == NUMERIC then true
    else if t == REAL then true
    else if t == SMALLINT then true
    else if t == TINYINT then true
    else false
  }

  /** The class of a value cell: time, date, number, or none. */
  function Style(t: int): (r: Option<string>)
    ensures r == Some("time") <==> t == TIMESTAMP
    ensures r == Some("date") <==> t == DATE
    ensures r == Some("number") <==> IsNumberType(t)
    ensures r == None <==> t != TIMESTAMP && t != DATE && !IsNumberType(t)
  {
    if t == TIMESTAMP then Some("time")
    else if t == DATE then Some("date")
    else if IsNumberType(t) then Some("number")
    else None
  }

  // ---------------------------------------------------------------------
  // clearSql: the tokenizer on line breaks, comment lines dropped, lines joined by blanks

  predicate IsBreak(c: char) { c == '\n' || c == '\r' }

  predicate NoBreaks(s: string) {
    forall i :: 0 <= i < |s| ==> !IsBreak(s[i])
  }

  /** Length of the run of non-break characters at the start of `s`. */
  function RunLength(s: string): (k: nat)
    ensures k <= |s| && NoBreaks(s[..k])
    ensures k < |s| ==> IsBreak(s[k])
  {
    if s == [] || IsBreak(s[0]) then 0
    else
      var k := 1 + RunLength(s[1..]);
      assert s[..k] == [s[0]] + s[1..][..k - 1];
      k
  }

  /** StringTokenizer(s, "\n\r"): the maximal non-empty runs of characters other than a
      line break, in order. */
  function Tokens(s: string): (ts: seq<string>)
    ensures forall i :: 0 <= i < |ts| ==> ts[i] != [] && NoBreaks(ts[i])
    decreases |s|
  {
    if s == [] then []
    else if IsBreak(s[0]) then Tokens(s[1..])
    else
      var k := RunLength(s);
      [s[..k]] + Tokens(s[k..])
  }

  /** What one line adds: nothing for a comment line, else the trimmed line between blanks. */
  function Piece(line: string): string {
    var l := Trim(line);
    if StartsWith(l, "--") then "" else " " + l + " "
  }

  function Joined(lines: seq<string>): string {
    if lines == [] then "" else Joined(lines[..|lines| - 1]) + Piece(lines[|lines| - 1])
  }

  /** clearSql(sql) as a value. */
  function CleanSql(s: string): string {
    Trim(Joined(Tokens(s)))
  }

  /** clearSql(sql): the tokenizer loop appending to a buffer, then trim. */
  method ClearSql(s: string) returns (r: string)
    ensures r == CleanSql(s)
  {
    var tokens := Tokens(s);
    var b := "";
    var i := 0;
    while i < |tokens|
      invariant 0 <= i <= |tokens|
      invariant b == Joined(tokens[..i])
    {
      var line := Trim(tokens[i]);
      assert tokens[..i + 1][..i] == tokens[..i];
      if !StartsWith(line, "--") {
        b := b + (" " + line + " ");
      }
      i := i + 1;
    }
    assert tokens[..|tokens|] == tokens;
    r := Trim(b);
  }

  /** Every character of a trimmed string comes from the string. */
  lemma TrimKeeps(s: string, c: char)
    requires c in Trim(s)
    ensures c in s
  {
    TrimInfix(s);
    var pre := s[..Lead(s)];
    var post := s[Lead(s) + |Trim(s)|..];
    assert s == pre + Trim(s) + post;
  }

  /** Trimming a string without breaks leaves none. */
  lemma TrimNoBreaks(s: string)
    requires NoBreaks(s)
    ensures NoBreaks(Trim(s))
  {
    forall c | c in Trim(s)
      ensures !IsBreak(c)
    {
      TrimKeeps(s, c);
      var i :| 0 <= i < |s| && s[i] == c;
    }
  }

  /** What a line without breaks adds has no breaks. */
  lemma PieceNoBreaks(line: string)
    requires NoBreaks(line)
    ensures NoBreaks(Piece(line))
  {
    TrimNoBreaks(line);
  }

  lemma NoBreaksConcat(a: string, b: string)
    requires NoBreaks(a) && NoBreaks(b)
    ensures NoBreaks(a + b)
  {
    forall i | 0 <= i < |a + b|
      ensures !IsBreak((a + b)[i])
    {
      if i >= |a| {
        assert (a + b)[i] == b[i - |a|];
      }
    }
  }

  lemma {:induction false} JoinedNoBreaks(lines: seq<string>)
    requires forall i :: 0 <= i < |lines| ==> NoBreaks(lines[i])
    ensures NoBreaks(Joined(lines))
  {
    if lines != [] {
      var init, last := lines[..|lines| - 1], lines[|lines| - 1];
      JoinedNoBreaks(init);
      PieceNoBreaks(last);
      NoBreaksConcat(Joined(init), Piece(last));
    }
  }

  /** The cleaned sql is one line: the breaks are gone. */
  lemma CleanSqlOneLine(s: string)
    ensures NoBreaks(CleanSql(s))
    ensures IsTrimmed(CleanSql(s))
  {
    JoinedNoBreaks(Tokens(s));
    TrimNoBreaks(Joined(Tokens(s)));
  }

  lemma {:induction false} JoinedCons(x: string, lines: seq<string>)
    ensures Joined([x] + lines) == Piece(x) + Joined(lines)
  {
    if lines == [] {
      assert [x] + lines == [x];
      assert ([x] + lines)[..0] == [];
    } else {
      var n := |lines|;
      var init := lines[..n - 1];
      var all := [x] + lines;
      calc {
        Joined(all);
      == { assert all[..n] == [x] + init && all[n] == lines[n - 1]; }
        Joined([x] + init) + Piece(lines[n - 1]);
      == { JoinedCons(x, init); }
        (Piece(x) + Joined(init)) + Piece(lines[n - 1]);
      == { Associative(Piece(x), Joined(init), Piece(lines[n - 1])); }
        Piece(x) + (Joined(init) + Piece(lines[n - 1]));
      }
    }
  }

  /** The run at the start of a line ends where the line does. */
  lemma {:induction false} RunOfLine(line: string, rest: string)
    requires NoBreaks(line) && (rest == [] || IsBreak(rest[0]))
    ensures RunLength(line + rest) == |line|
  {
    if line == [] {
      assert line + rest == rest;
    } else {
      assert (line + rest)[0] == line[0];
      assert (line + rest)[1..] == line[1..] + rest;
      RunOfLine(line[1..], rest);
    }
  }

  /** A line followed by a break is the first token of what follows it. */
  lemma TokensOfLine(line: string, rest: string)
    requires line != [] && NoBreaks(line)
    ensures Tokens(line + "\n" + rest) == [line] + Tokens(rest)
  {
    var s := line + "\n" + rest;
    assert s == line + ("\n" + rest);
    RunOfLine(line, "\n" + rest);
    assert s[..|line|] == line;
    assert s[|line|..] == "\n" + rest;
    assert ("\n" + rest)[1..] == rest;
  }

  /** A "--" comment line contributes nothing to the cleaned sql. */
  lemma CommentLineDropped(comment: string, rest: string)
    requires comment != [] && NoBreaks(comment) && StartsWith(Trim(comment), "--")
    ensures CleanSql(comment + "\n" + rest) == CleanSql(rest)
  {
    TokensOfLine(comment, rest);
    JoinedCons(comment, Tokens(rest));
    assert "" + Joined(Tokens(rest)) == Joined(Tokens(rest));
  }

  /** A line without breaks is its own one token. */
  lemma TokensOfSingle(line: string)
    requires line != [] && NoBreaks(line)
    ensures Tokens(line) == [line]
  {
    RunOfLine(line, []);
    assert line + [] == line;
    assert line[..|line|] == line && line[|line|..] == [];
  }

  /** Trimming a trimmed string between two blanks gives it back. */
  lemma TrimPadded(t: string)
    requires IsTrimmed(t)
    ensures Trim(" " + t + " ") == t
  {
    if t == [] {
      assert " " + t + " " == "  ";
      assert AllBlank("  ");
    } else {
      TrimOf(" ", t, " ");
    }
  }

  /** A single line that is not a comment is cleaned to the line trimmed. */
  lemma CleanSingleLine(line: string)
    requires line != [] && NoBreaks(line) && !StartsWith(Trim(line), "--")
    ensures CleanSql(line) == Trim(line)
  {
    TokensOfSingle(line);
    assert [line][..0] == [];
    assert Joined([line]) == "" + Piece(line) == Piece(line);
    TrimPadded(Trim(line));
  }

  /** The test build() applies to the cleaned sql. */
  predicate IsSelect(sql: string) {
    StartsWith(Trim(Lower(sql)), "select")
  }

  // ---------------------------------------------------------------------
  // The HTML pieces

  const TableOpen := "<table class=\"report\">\n"
  const TableClose := "</table>\n"
  const RowEnd := "</tr>\n"

  /** rowStart(classes). */
  function RowStart(classes: Option<string>): string {
    if classes.None? then " <tr>\n" else " <tr class=\"" + classes.value + "\">\n"
  }

  /** The opening tag of a cell, with its class when there is one. */
  function CellOpen(classes: Option<string>): string {
    if classes.None? then "  <td>" else "  <td class=\"" + classes.value + "\">"
  }

  /** coll(value, classes): a null value leaves the cell empty. */
  function Cell(value: Option<string>, classes: Option<string>): string {
    CellOpen(classes) + (if value.Some? then value.value else "") + "</td>\n"
  }

  /** Position of the first '>' in s, or |s|. */
  function FirstGt(s: string): (k: nat)
    ensures k <= |s|
    ensures forall i :: 0 <= i < k ==> s[i] != '>'
    ensures k < |s| ==> s[k] == '>'
  {
    if s == [] || s[0] == '>' then 0 else 1 + FirstGt(s[1..])
  }

  /** The text a reader takes out of a cell: after the first '>', before the closing tag. */
  function CellText(cell: string): string {
    var k := FirstGt(cell);
    if k + 1 <= |cell| - 6 then cell[k + 1..|cell| - 6] else ""
  }

  lemma {:induction false} FirstGtAfter(pre: string, rest: string)
    requires '>' !in pre
    ensures FirstGt(pre + rest) == |pre| + FirstGt(rest)
  {
    if pre != [] {
      assert (pre + rest)[0] == pre[0];
      assert (pre + rest)[1..] == pre[1..] + rest;
      FirstGtAfter(pre[1..], rest);
    } else {
      assert pre + rest == rest;
    }
  }

  /** The opening tag of a cell is a text without '>' followed by the one '>'. */
  lemma CellOpenShape(classes: Option<string>) returns (pre: string)
    requires classes.Some? ==> '>' !in classes.value
    ensures CellOpen(classes) == pre + ">" && '>' !in pre
  {
    if classes.None? {
      pre := "  <td";
    } else {
      pre := "  <td class=\"" + classes.value + "\"";
    }
  }

  /** A cell gives back its value (empty for null) whenever its class holds no '>'. */
  lemma CellReadsBack(value: Option<string>, classes: Option<string>)
    requires classes.Some? ==> '>' !in classes.value
    ensures CellText(Cell(value, classes)) == (if value.Some? then value.value else "")
  {
    var v := if value.Some? then value.value else "";
    var pre := CellOpenShape(classes);
    var rest := ">" + v + "</td>\n";
    var cell := Cell(value, classes);
    assert cell == pre + rest by {
      Associative(pre + ">", v, "</td>\n");
      Associative(pre, ">", v + "</td>\n");
      Associative(">", v, "</td>\n");
    }
    FirstGtAfter(pre, rest);
    assert cell[|pre| + 1..|cell| - 6] == rest[1..|rest| - 6] == v;
  }

  /** Cells without a class, one per value, as the header loops emit them. */
  function Cells(values: seq<Option<string>>): string {
    if values == [] then "" else Cells(values[..|values| - 1]) + Cell(values[|values| - 1], None)
  }

  // ---------------------------------------------------------------------
  // Columns, rows and templates

  /** A column as the metadata describes it: its label (possibly null) and its type code. */
  datatype Column = Column(columnLabel: Option<string>, sqlType: int)

  type Row = seq<Option<string>>

  /** What the database answers to executeQuery: an exception's text, or the columns and rows. */
  datatype Query = Failed(exception: string) | Answer(columns: seq<Column>, rows: seq<Row>)

  /** The result of build(): the html, the error, and the number of rows rendered. */
  datatype Table = Table(html: Option<string>, error: Option<string>, size: int)

  /** The value of column i of a row; a row shorter than the metadata reads as null. */
  function At(row: Row, i: nat): Option<string> {
    if i < |row| then row[i] else None
  }

  /** A column's label lowercased, null taken as empty. */
  function LabelOf(c: Column): string {
    Lower(if c.columnLabel.Some? then c.columnLabel.value else "")
  }

  function Labels(cols: seq<Column>): (ls: seq<string>)
    ensures |ls| == |cols|
    ensures forall i :: 0 <= i < |cols| ==> ls[i] == LabelOf(cols[i])
  {
    seq(|cols|, i requires 0 <= i < |cols| => LabelOf(cols[i]))
  }

  /** What a template sees for column i: its value, with null as empty. */
  function Values(row: Row, n: nat): (vs: seq<string>)
    ensures |vs| == n
    ensures forall i :: 0 <= i < n ==> vs[i] == (if At(row, i).Some? then At(row, i).value else "")
  {
    seq(n, i requires 0 <= i < n => if At(row, i).Some? then At(row, i).value else "")
  }

  function Placeholder(key: string): string { "${" + key + "}" }

  /** The template with each column's placeholder replaced by its value, the last column first,
      so a label used twice takes the value of its last column, as a map keyed by label does. */
  function Fill(template: string, keys: seq<string>, vals: seq<string>): string
    requires |keys| == |vals|
    decreases |keys|
  {
    if keys == [] then template
    else
      var n := |keys| - 1;
      Fill(Replace(template, Placeholder(keys[n]), vals[n]), keys[..n], vals[..n])
  }

  /** The html of one value cell of a row. */
  function ValueCells(cols: seq<Column>, row: Row, n: nat): string
    requires n <= |cols|
  {
    if n == 0 then "" else ValueCells(cols, row, n - 1) + Cell(At(row, n - 1), Style(cols[n - 1].sqlType))
  }

  /** The template cells of a row; a null template stays a null (empty) cell. */
  function FieldCells(fields: seq<Option<string>>, keys: seq<string>, vals: seq<string>): string
    requires |keys| == |vals|
  {
    if fields == [] then ""
    else
      var f := fields[|fields| - 1];
      FieldCells(fields[..|fields| - 1], keys, vals)
      + Cell(if f.Some? then Some(Fill(f.value, keys, vals)) else None, None)
  }

  function RowHtml(cols: seq<Column>, row: Row, fill: bool, fields: seq<Option<string>>): string {
    RowStart(None) + ValueCells(cols, row, |cols|)
    + (if fill then FieldCells(fields, Labels(cols), Values(row, |cols|)) else "")
    + RowEnd
  }

  /** `texts` holds the html of each row from index k on. */
  predicate RenderedFrom(texts: seq<string>, cols: seq<Column>, rows: seq<Row>, fill: bool, fields: seq<Option<string>>, k: nat)
    decreases |rows| - k, 1
  {
    |texts| == |rows| && (k < |rows| ==> RenderedRow(texts, cols, rows, fill, fields, k))
  }

  /** `texts` holds the html of row k and of every row after it. */
  predicate RenderedRow(texts: seq<string>, cols: seq<Column>, rows: seq<Row>, fill: bool, fields: seq<Option<string>>, k: nat)
    requires k < |rows| == |texts|
    decreases |rows| - k, 0
  {
    texts[k] == RowHtml(cols, rows[k], fill, fields) && RenderedFrom(texts, cols, rows, fill, fields, k + 1)
  }

  lemma {:induction false} RenderedAt(texts: seq<string>, cols: seq<Column>, rows: seq<Row>, fill: bool, fields: seq<Option<string>>, k: nat, n: nat)
    requires RenderedFrom(texts, cols, rows, fill, fields, k) && k <= n < |rows|
    ensures texts[n] == RowHtml(cols, rows[n], fill, fields)
    decreases n - k
  {
    assert RenderedRow(texts, cols, rows, fill, fields, k);
    if k < n {
      RenderedAt(texts, cols, rows, fill, fields, k + 1, n);
    }
  }

  /** The texts with indices lo up to (not including) hi, one after the other. */
  function Concat(texts: seq<string>, lo: nat, hi: nat): string
    requires hi <= |texts|
    decreases hi
  {
    if hi <= lo then "" else Concat(texts, lo, hi - 1) + texts[hi - 1]
  }

  /** The html of every row, by index. */
  function AllRowsHtml(cols: seq<Column>, rows: seq<Row>, fill: bool, fields: seq<Option<string>>): (texts: seq<string>)
    ensures |texts| == |rows|
  {
    seq(|rows|, k requires 0 <= k < |rows| => RowHtml(cols, rows[k], fill, fields))
  }

  /** The html of every row holds the html of each row from index 0 on. */
  lemma RowTexts(cols: seq<Column>, rows: seq<Row>, fill: bool, fields: seq<Option<string>>)
    ensures RenderedFrom(AllRowsHtml(cols, rows, fill, fields), cols, rows, fill, fields, 0)
  {
    RowTextsFrom(AllRowsHtml(cols, rows, fill, fields), cols, rows, fill, fields, 0);
  }

  lemma {:induction false} RowTextsFrom(texts: seq<string>, cols: seq<Column>, rows: seq<Row>, fill: bool, fields: seq<Option<string>>, k: nat)
    requires |texts| == |rows| && forall i :: 0 <= i < |rows| ==> texts[i] == RowHtml(cols, rows[i], fill, fields)
    ensures RenderedFrom(texts, cols, rows, fill, fields, k)
    decreases |rows| - k
  {
    if k < |rows| {
      RowTextsFrom(texts, cols, rows, fill, fields, k + 1);
      assert RenderedRow(texts, cols, rows, fill, fields, k);
    }
  }

  /** The template list, with null read as no templates. */
  function Each(templates: Option<seq<Option<string>>>): seq<Option<string>> {
    if templates.Some? then templates.value else []
  }

  /** The rows with indices lo up to (not including) hi, one after the other. */
  function RowsHtml(cols: seq<Column>, rows: seq<Row>, lo: nat, hi: nat, fill: bool, fields: seq<Option<string>>): string
    requires hi <= |rows|
  {
    Concat(AllRowsHtml(cols, rows, fill, fields), lo, hi)
  }

  // ---------------------------------------------------------------------
  // The paging window

  predicate Paging(page: int, pagelen: int) { page > -1 && pagelen > 0 }

  /** Whether the row with 0-based index `index` belongs to the requested page. */
  predicate InPage(page: int, pagelen: int, index: int) {
    Paging(page, pagelen) ==> page * pagelen <= index < page * pagelen + pagelen
  }

  function Min(a: int, b: int): int { if a < b then a else b }

  /** Index of the first rendered row. */
  function First(page: int, pagelen: int, n: nat): (lo: nat)
    ensures lo <= n
  {
    if Paging(page, pagelen) then
      assert page * pagelen >= 0 by { MulNonNegative(page, pagelen); }
      Min(page * pagelen, n)
    else 0
  }

  /** Index after the last rendered row. */
  function Last(page: int, pagelen: int, n: nat): (hi: nat)
    ensures First(page, pagelen, n) <= hi <= n
  {
    if Paging(page, pagelen) then
      assert page * pagelen >= 0 by { MulNonNegative(page, pagelen); }
      Min(page * pagelen + pagelen, n)
    else n
  }

  /** The window of rows, stated through the page's first and past-the-end indices. */
  lemma WindowBounds(page: int, pagelen: int, n: nat)
    ensures Paging(page, pagelen) ==>
      0 <= page * pagelen <= page * pagelen + pagelen
      && First(page, pagelen, n) == Min(page * pagelen, n)
      && Last(page, pagelen, n) == Min(page * pagelen + pagelen, n)
    ensures !Paging(page, pagelen) ==> First(page, pagelen, n) == 0 && Last(page, pagelen, n) == n
  {
    if Paging(page, pagelen) {
      MulNonNegative(page, pagelen);
    }
  }

  lemma MulNonNegative(a: int, b: int)
    requires a >= 0 && b >= 0
    ensures a * b >= 0
  {
  }

  /** The rendered rows are exactly those of the page; without paging every row is. */
  lemma WindowExact(page: int, pagelen: int, n: nat, i: int)
    requires 0 <= i < n
    ensures First(page, pagelen, n) <= i < Last(page, pagelen, n) <==> InPage(page, pagelen, i)
  {
  }

  /** A page holds at most pagelen rows, and every row when there is no paging. */
  lemma WindowSize(page: int, pagelen: int, n: nat)
    ensures Paging(page, pagelen) ==> Last(page, pagelen, n) - First(page, pagelen, n) <= pagelen
    ensures !Paging(page, pagelen) ==> Last(page, pagelen, n) - First(page, pagelen, n) == n
  {
  }

  // ---------------------------------------------------------------------
  // build()

  const NoSql := "no sql"
  const NoSelect := "no selext present"

  /** The header after build(): the given one, or the labels when it is null or empty. */
  function HeaderOf(header: Option<seq<Option<string>>>, cols: seq<Column>): (h: seq<Option<string>>)
    ensures header.Some? && header.value != [] ==> h == header.value
    ensures (header.None? || header.value == []) ==> |h| == |cols|
  {
    if header.Some? && header.value != [] then header.value
    else seq(|cols|, i requires 0 <= i < |cols| => Some(Labels(cols)[i]))
  }

  function HeaderRow(header: seq<Option<string>>, fieldsHeader: Option<seq<Option<string>>>): string {
    RowStart(Some("header")) + Cells(header) + Cells(if fieldsHeader.Some? then fieldsHeader.value else [])
    + RowEnd
  }

  /** What a select leaves: the table returned, the buffer, and the header field. */
  datatype Report = Report(table: Table, sb: string, header: Option<seq<Option<string>>>)

  /** The select branch of build(), from the buffer as it was before the table was opened;
      `npe` is the text the running JVM gives the NullPointerException of a null template
      list (its wording differs between Java versions). */
  function Rendered(q: Query, header: Option<seq<Option<string>>>, fieldsHeader: Option<seq<Option<string>>>,
                    fields: Option<seq<Option<string>>>, page: int, pagelen: int, sb: string, npe: string): Report
  {
    match q
    case Failed(e) => Report(Table(None, Some(e), 0), sb + TableOpen, header)
    case Answer(cols, rows) =>
      var h := HeaderOf(header, cols);
      var lo := First(page, pagelen, |rows|);
      var hi := Last(page, pagelen, |rows|);
      var shown := PageOf(cols, rows, h != [], fields, lo, hi, sb + TableOpen + HeaderRow(h, fieldsHeader), npe);
      Report(shown.0, shown.1, Some(h))
  }

  /** The rows lo up to hi after the header row `top`, and the table closed: the table returned
      and the buffer left. A null template list fails at the first row when `fill`. */
  function PageOf(cols: seq<Column>, rows: seq<Row>, fill: bool, fields: Option<seq<Option<string>>>,
                  lo: nat, hi: nat, top: string, npe: string): (Table, string)
    requires lo <= hi <= |rows|
  {
    if lo < hi && fill && fields.None? then
      (Table(None, Some(npe), 0), top + RowStart(None) + ValueCells(cols, rows[lo], |cols|))
    else
      var html := top + RowsHtml(cols, rows, lo, hi, fill, Each(fields)) + TableClose;
      (Table(Some(html), None, hi - lo), html)
  }

  /** How many of the first n rows belong to the page. */
  function PageCount(page: int, pagelen: int, n: nat): nat {
    if n == 0 then 0 else PageCount(page, pagelen, n - 1) + (if InPage(page, pagelen, n - 1) then 1 else 0)
  }

  /** The window holds exactly as many rows as belong to the page. */
  lemma {:induction false} PageCountWindow(page: int, pagelen: int, n: nat)
    ensures PageCount(page, pagelen, n) == Last(page, pagelen, n) - First(page, pagelen, n)
  {
    if n > 0 {
      PageCountWindow(page, pagelen, n - 1);
      if Paging(page, pagelen) {
        MulNonNegative(page, pagelen);
      }
    }
  }

  /** A rendered table holds the rows of the page, its size counts them, and its html
      continues the buffer with the opened table. */
  lemma RenderedRows(cols: seq<Column>, rows: seq<Row>, header: Option<seq<Option<string>>>,
                     fieldsHeader: Option<seq<Option<string>>>, fields: Option<seq<Option<string>>>,
                     page: int, pagelen: int, sb: string, npe: string)
    requires Rendered(Answer(cols, rows), header, fieldsHeader, fields, page, pagelen, sb, npe).table.error.None?
    ensures var t := Rendered(Answer(cols, rows), header, fieldsHeader, fields, page, pagelen, sb, npe).table;
      && t.html.Some?
      && t.size == PageCount(page, pagelen, |rows|)
      && StartsWith(t.html.value, sb + TableOpen)
  {
    PageCountWindow(page, pagelen, |rows|);
    var lo := First(page, pagelen, |rows|);
    var hi := Last(page, pagelen, |rows|);
    var h := HeaderOf(header, cols);
    var each := Each(fields);
    var top := sb + TableOpen;
    assert StartsWith(top, top);
    StartsWithExtend(top, HeaderRow(h, fieldsHeader), top);
    StartsWithExtend(top + HeaderRow(h, fieldsHeader), RowsHtml(cols, rows, lo, hi, h != [], each), top);
    StartsWithExtend(top + HeaderRow(h, fieldsHeader) + RowsHtml(cols, rows, lo, hi, h != [], each), TableClose, top);
  }

  /** A placeholder holds one '$', at its start, and one '}', at its end, when its key holds neither. */
  predicate PlainKey(key: string) { '$' !in key && '}' !in key }

  /** Replacing a placeholder leaves another key's placeholder alone. */
  lemma OtherPlaceholder(key: string, other: string, v: string)
    requires PlainKey(key) && PlainKey(other) && key != other
    ensures Replace(Placeholder(key), Placeholder(other), v) == Placeholder(key)
  {
    var s := Placeholder(key);
    var t := Placeholder(other);
    if |s| >= |t| {
      if |t| == |s| {
        assert s[2..|s| - 1] == key && t[2..|t| - 1] == other;
        assert s[..|t|] == s != t;
      } else {
        assert s[|t| - 1] == key[|t| - 3] && key[|t| - 3] in key;
        assert t[|t| - 1] == '}';
        assert s[..|t|][|t| - 1] != t[|t| - 1];
      }
      assert s[1..] == "{" + key + "}";
      ReplaceAbsent(s[1..], t, v);
      assert [s[0]] + s[1..] == s;
    } else {
      ReplaceShort(s, t, v);
    }
  }

  /** A template that is exactly the placeholder of column j's label is filled with the value of
      the last column carrying that label, when no label holds '$' or '}' and no value holds '$'. */
  lemma {:induction false} PlaceholderFilled(keys: seq<string>, vals: seq<string>, j: nat)
    requires |keys| == |vals| && j < |keys|
    requires forall i :: 0 <= i < |keys| ==> PlainKey(keys[i])
    requires forall i :: 0 <= i < |vals| ==> '$' !in vals[i]
    requires forall i :: j < i < |keys| ==> keys[i] != keys[j]
    ensures Fill(Placeholder(keys[j]), keys, vals) == vals[j]
  {
    var n := |keys| - 1;
    if j < n {
      OtherPlaceholder(keys[j], keys[n], vals[n]);
      PlaceholderFilled(keys[..n], vals[..n], j);
    } else {
      var t := Placeholder(keys[j]);
      assert t[..|t|] == t && t[|t|..] == [];
      assert Replace(t, t, vals[j]) == vals[j] + Replace([], t, vals[j]);
      assert vals[j] + [] == vals[j];
      FillAbsent(vals[j], keys[..n], vals[..n]);
    }
  }

  /** Text without a '$' is left alone by every substitution. */
  lemma {:induction false} FillAbsent(s: string, keys: seq<string>, vals: seq<string>)
    requires |keys| == |vals| && '$' !in s
    ensures Fill(s, keys, vals) == s
  {
    if keys != [] {
      var n := |keys| - 1;
      ReplaceAbsent(s, Placeholder(keys[n]), vals[n]);
      FillAbsent(s, keys[..n], vals[..n]);
    }
  }

  /** SqlToHtml: the query settings the fluent setters fill in, and the buffer build() writes. */
  class SqlToHtml {
    var sql: Option<string>
    var header: Option<seq<Option<string>>>
    var fieldsHeader: Option<seq<Option<string>>>
    var fields: Option<seq<Option<string>>>
    var page: int
    var pagelen: int
    var sb: string

    /** instance(conn): nothing set, page 0, no page length, an empty buffer. */
    constructor ()
      ensures sql.None? && header.None? && fieldsHeader.None? && fields.None?
      ensures page == 0 && pagelen == 0 && sb == ""
    {
      sql := None;
      header := None;
      fieldsHeader := None;
      fields := None;
      page := 0;
      pagelen := 0;
      sb := "";
    }

    method Sql(value: Option<string>) returns (r: SqlToHtml)
      modifies this`sql
      ensures r == this && sql == value
    {
      sql := value;
      r := this;
    }

    method SqlHeader(value: Option<seq<Option<string>>>) returns (r: SqlToHtml)
      modifies this`header
      ensures r == this && header == value
    {
      header := value;
      r := this;
    }

    method FieldsHeader(value: Option<seq<Option<string>>>) returns (r: SqlToHtml)
      modifies this`fieldsHeader
      ensures r == this && fieldsHeader == value
    {
      fieldsHeader := value;
      r := this;
    }

    method Fields(value: Option<seq<Option<string>>>) returns (r: SqlToHtml)
      modifies this`fields
      ensures r == this && fields == value
    {
      fields := value;
      r := this;
    }

    method Page(value: int) returns (r: SqlToHtml)
      modifies this`page
      ensures r == this && page == value
    {
      page := value;
      r := this;
    }

    method Pagelen(value: int) returns (r: SqlToHtml)
      modifies this`pagelen
      ensures r == this && pagelen == value
    {
      pagelen := value;
      r := this;
    }

    /** rowStart(classes). */
    method EmitRowStart(classes: Option<string>)
      modifies this`sb
      ensures sb == old(sb) + RowStart(classes)
    {
      if classes.None? {
        sb := sb + " <tr>\n";
      } else {
        sb := sb + (" <tr class=\"" + classes.value + "\">\n");
      }
    }

    /** rowEnd(). */
    method EmitRowEnd()
      modifies this`sb
      ensures sb == old(sb) + RowEnd
    {
      sb := sb + "</tr>\n";
    }

    /** coll(value, classes). */
    method Coll(value: Option<string>, classes: Option<string>)
      modifies this`sb
      ensures sb == old(sb) + Cell(value, classes)
    {
      var open := if classes.None? then "  <td>" else "  <td class=\"" + classes.value + "\">";
      var text := if value.Some? then value.value else "";
      sb := sb + (open + text + "</td>\n");
    }

    /** The loop over a list of header captions. */
    method EmitCells(values: seq<Option<string>>)
      modifies this`sb
      ensures sb == old(sb) + Cells(values)
    {
      var i := 0;
      while i < |values|
        invariant 0 <= i <= |values|
        invariant sb == old(sb) + Cells(values[..i])
      {
        assert values[..i + 1][..i] == values[..i];
        Coll(values[i], None);
        Associative(old(sb), Cells(values[..i]), Cell(values[i], None));
        i := i + 1;
      }
      assert values[..|values|] == values;
    }

    /** The header row: the header captions, then the captions of the template columns. */
    method EmitHeader(h: seq<Option<string>>, fieldsHeader: Option<seq<Option<string>>>)
      modifies this`sb
      ensures sb == old(sb) + HeaderRow(h, fieldsHeader)
    {
      var captions := if fieldsHeader.Some? then fieldsHeader.value else [];
      EmitRowStart(Some("header"));
      EmitCells(h);
      Associative(old(sb), RowStart(Some("header")), Cells(h));
      EmitCells(captions);
      Associative(old(sb), RowStart(Some("header")) + Cells(h), Cells(captions));
      EmitRowEnd();
      Associative(old(sb), RowStart(Some("header")) + Cells(h) + Cells(captions), RowEnd);
    }

    /** The loop over the columns of one row: each value with the class of its type. */
    method EmitValues(cols: seq<Column>, row: Row)
      modifies this`sb
      ensures sb == old(sb) + ValueCells(cols, row, |cols|)
    {
      var i := 0;
      while i < |cols|
        invariant 0 <= i <= |cols|
        invariant sb == old(sb) + ValueCells(cols, row, i)
      {
        var value := At(row, i);
        var style := Style(cols[i].sqlType);
        Coll(value, style);
        Associative(old(sb), ValueCells(cols, row, i), Cell(value, style));
        i := i + 1;
      }
    }

    /** The loop over the templates of one row. */
    method EmitFields(templates: seq<Option<string>>, keys: seq<string>, vals: seq<string>)
      requires |keys| == |vals|
      modifies this`sb
      ensures sb == old(sb) + FieldCells(templates, keys, vals)
    {
      var j := 0;
      while j < |templates|
        invariant 0 <= j <= |templates|
        invariant sb == old(sb) + FieldCells(templates[..j], keys, vals)
      {
        assert templates[..j + 1][..j] == templates[..j];
        var value := templates[j];
        if value.Some? {
          value := Some(Fill(value.value, keys, vals));
        }
        Coll(value, None);
        Associative(old(sb), FieldCells(templates[..j], keys, vals), Cell(value, None));
        j := j + 1;
      }
      assert templates[..|templates|] == templates;
    }

    /** The loop collecting the lowercased column labels. */
    static method ColumnLabels(cols: seq<Column>) returns (labels: seq<string>)
      ensures labels == Labels(cols)
    {
      labels := [];
      var i := 0;
      while i < |cols|
        invariant 0 <= i <= |cols|
        invariant labels == Labels(cols)[..i]
      {
        var caption := if cols[i].columnLabel.Some? then cols[i].columnLabel.value else "";
        labels := labels + [Lower(caption)];
        i := i + 1;
      }
    }

    /** One rendered row, complete. */
    method EmitRow(cols: seq<Column>, row: Row, fill: bool, templates: seq<Option<string>>)
      modifies this`sb
      ensures sb == old(sb) + RowHtml(cols, row, fill, templates)
    {
      EmitRowStart(None);
      EmitValues(cols, row);
      Associative(old(sb), RowStart(None), ValueCells(cols, row, |cols|));
      ghost var open := RowStart(None) + ValueCells(cols, row, |cols|);
      ghost var tail := if fill then FieldCells(templates, Labels(cols), Values(row, |cols|)) else "";
      if fill {
        var keys := ColumnLabels(cols);
        EmitFields(templates, keys, Values(row, |cols|));
      } else {
        assert sb == sb + tail;
      }
      Associative(old(sb), open, tail);
      EmitRowEnd();
      Associative(old(sb), open + tail, RowEnd);
    }

    /** The next row of the page, after the rows with indices lo up to n. */
    method EmitNextRow(cols: seq<Column>, rows: seq<Row>, ghost lo: nat, n: nat, fill: bool,
                       templates: seq<Option<string>>, ghost texts: seq<string>, ghost base: string)
      requires lo <= n < |rows| && RenderedFrom(texts, cols, rows, fill, templates, 0)
      requires sb == base + Concat(texts, lo, n)
      modifies this`sb
      ensures sb == base + Concat(texts, lo, n + 1)
    {
      RenderedAt(texts, cols, rows, fill, templates, 0, n);
      EmitRow(cols, rows[n], fill, templates);
      Associative(base, Concat(texts, lo, n), texts[n]);
    }

    /** A row of the page: with a header and no template list the template loop fails once
        the values are written, otherwise the row is rendered whole. */
    method EmitPageRow(cols: seq<Column>, rows: seq<Row>, ghost lo: nat, n: nat, fill: bool,
                       templates: Option<seq<Option<string>>>, ghost texts: seq<string>, ghost base: string)
      returns (failed: bool)
      requires lo <= n < |rows| && RenderedFrom(texts, cols, rows, fill, Each(templates), 0)
      requires sb == base + Concat(texts, lo, n)
      requires fill && templates.None? ==> n == lo
      modifies this`sb
      ensures failed == (fill && templates.None?)
      ensures failed ==> sb == base + RowStart(None) + ValueCells(cols, rows[lo], |cols|)
      ensures !failed ==> sb == base + Concat(texts, lo, n + 1)
    {
      failed := fill && templates.None?;
      if failed {
        assert sb == base;
        EmitRowStart(None);
        EmitValues(cols, rows[n]);
      } else {
        EmitNextRow(cols, rows, lo, n, fill, Each(templates), texts, base);
      }
    }

    /** The row loop of build(): every row is read, those before the page are skipped, the
        loop stops at the first row after it; a null template list fails at the first row
        rendered when there is a header. */
    method EmitRows(cols: seq<Column>, rows: seq<Row>, fill: bool, templates: Option<seq<Option<string>>>,
                   paging: bool, startindex: int, endindex: int, ghost lo: nat, ghost hi: nat, ghost texts: seq<string>)
      returns (size: int, failed: bool)
      requires paging ==> 0 <= startindex <= endindex && lo == Min(startindex, |rows|) && hi == Min(endindex, |rows|)
      requires !paging ==> lo == 0 && hi == |rows|
      requires RenderedFrom(texts, cols, rows, fill, Each(templates), 0)
      modifies this`sb
      ensures failed == (lo < hi && fill && templates.None?)
      ensures failed ==> sb == old(sb) + RowStart(None) + ValueCells(cols, rows[lo], |cols|)
      ensures !failed ==> size == hi - lo && sb == old(sb) + Concat(texts, lo, hi)
    {
      var index := -1;
      size := 0;
      failed := false;
      var stop := false;
      while !stop && index + 1 < |rows|
        invariant -1 <= index < |rows|
        invariant !stop ==> !failed && RowsRead(rows, fill, templates, lo, hi, texts, index + 1, size, old(sb))
        invariant stop ==> Finished(cols, rows, fill, templates, lo, hi, texts, size, failed, old(sb))
        decreases |rows| - index, !stop
      {
        index := index + 1;
        stop, failed, size := ReadRow(cols, rows, fill, templates, paging, startindex, endindex, lo, hi, texts, index, size, old(sb));
      }
      if !stop {
        assert Clamp(|rows|, lo, hi) == hi;
      }
    }

    /** After n rows were read: the rows of the page among them are rendered and counted. */
    ghost predicate RowsRead(rows: seq<Row>, fill: bool, templates: Option<seq<Option<string>>>, lo: nat, hi: nat,
                             texts: seq<string>, n: nat, size: int, base: string)
      reads this`sb
    {
      lo <= hi <= |rows| == |texts| && n <= |rows|
      && size == Clamp(n, lo, hi) - lo
      && sb == base + Concat(texts, lo, Clamp(n, lo, hi))
      && (fill && templates.None? ==> Clamp(n, lo, hi) == lo)
    }

    /** The loop is over: either the whole page is rendered or the first row of it failed. */
    ghost predicate Finished(cols: seq<Column>, rows: seq<Row>, fill: bool, templates: Option<seq<Option<string>>>, lo: nat, hi: nat,
                             texts: seq<string>, size: int, failed: bool, base: string)
      reads this`sb
    {
      lo <= hi <= |rows| == |texts|
      && failed == (lo < hi && fill && templates.None?)
      && (failed ==> sb == base + RowStart(None) + ValueCells(cols, rows[lo], |cols|))
      && (!failed ==> size == hi - lo && sb == base + Concat(texts, lo, hi))
    }

    /** One turn of the row loop, for the row with 0-based index `index`. */
    method ReadRow(cols: seq<Column>, rows: seq<Row>, fill: bool, templates: Option<seq<Option<string>>>,
                   paging: bool, startindex: int, endindex: int, ghost lo: nat, ghost hi: nat, ghost texts: seq<string>,
                   index: nat, size: int, ghost base: string)
      returns (stop: bool, failed: bool, size': int)
      requires index < |rows|
      requires paging ==> 0 <= startindex <= endindex && lo == Min(startindex, |rows|) && hi == Min(endindex, |rows|)
      requires !paging ==> lo == 0 && hi == |rows|
      requires RenderedFrom(texts, cols, rows, fill, Each(templates), 0)
      requires RowsRead(rows, fill, templates, lo, hi, texts, index, size, base)
      modifies this`sb
      ensures !stop ==> !failed && RowsRead(rows, fill, templates, lo, hi, texts, index + 1, size', base)
      ensures stop ==> Finished(cols, rows, fill, templates, lo, hi, texts, size', failed, base)
    {
      WindowStep(paging, startindex, endindex, lo, hi, |rows|, index);
      stop, failed, size' := false, false, size;
      if paging && index < startindex {
        return;
      }
      if paging && index >= endindex {
        stop := true;
        return;
      }
      size' := size + 1;
      failed := EmitPageRow(cols, rows, lo, index, fill, templates, texts, base);
      stop := failed;
    }

    /** build(answer, npe): the query's answer is given as a function of the sql sent, and
        `npe` is the JVM's text for the NullPointerException of a null template list. */
    method Build(answer: string -> Query, npe: string) returns (t: Table)
      modifies this`sql, this`page, this`header, this`sb
      ensures old(sql).None? ==> t == Table(None, Some(NoSql), 0)
      ensures old(sql).None? ==> sql == old(sql) && page == old(page) && header == old(header) && sb == old(sb)
      ensures old(sql).Some? ==> sql == Some(CleanSql(old(sql).value))
      ensures old(sql).Some? ==> page == (if pagelen < 1 then 0 else old(page))
      ensures old(sql).Some? && !IsSelect(sql.value) ==> t == Table(None, Some(NoSelect), 0)
      ensures old(sql).Some? && !IsSelect(sql.value) ==> header == old(header) && sb == old(sb)
      ensures old(sql).Some? && IsSelect(sql.value) ==>
        var rep := Rendered(answer(sql.value), old(header), fieldsHeader, fields, page, pagelen, old(sb), npe);
        t == rep.table && sb == rep.sb && header == rep.header
    {
      t := Table(None, None, 0);
      if sql.None? {
        t := t.(error := Some(NoSql));
        return;
      }
      var cleaned := ClearSql(sql.value);
      sql := Some(cleaned);
      if pagelen < 1 {
        page := 0;
      }
      if !IsSelect(cleaned) {
        t := t.(error := Some(NoSelect));
        return;
      }
      t := EmitSelect(answer(cleaned), npe);
    }

    /** The select branch of build(): the table opened, then the query's failure, or its
        header row and page. */
    method EmitSelect(q: Query, npe: string) returns (t: Table)
      modifies this`header, this`sb
      ensures var rep := Rendered(q, old(header), fieldsHeader, fields, page, pagelen, old(sb), npe);
        t == rep.table && sb == rep.sb && header == rep.header
    {
      sb := sb + TableOpen;
      if q.Failed? {
        t := Table(None, Some(q.exception), 0);
        return;
      }
      EmitTableHeader(q.columns);
      t := EmitPage(q.columns, q.rows, npe);
    }

    /** The column labels, the header they stand in for when none is set, and the header row. */
    method EmitTableHeader(cols: seq<Column>)
      modifies this`header, this`sb
      ensures header == Some(HeaderOf(old(header), cols))
      ensures sb == old(sb) + HeaderRow(HeaderOf(old(header), cols), fieldsHeader)
    {
      var labels := ColumnLabels(cols);
      if header.None? || header.value == [] {
        header := Some(seq(|labels|, i requires 0 <= i < |labels| => Some(labels[i])));
      }
      EmitHeader(header.value, fieldsHeader);
    }

    /** The rows of the page and the closing tag, after the header row. */
    method EmitPage(cols: seq<Column>, rows: seq<Row>, npe: string) returns (t: Table)
      requires header.Some?
      modifies this`sb
      ensures (t, sb) == PageOf(cols, rows, header.value != [], fields,
                                First(page, pagelen, |rows|), Last(page, pagelen, |rows|), old(sb), npe)
    {
      var paging := page > -1 && pagelen > 0;
      var startindex := page * pagelen;
      var endindex := startindex + pagelen;
      WindowBounds(page, pagelen, |rows|);
      ghost var lo := First(page, pagelen, |rows|);
      ghost var hi := Last(page, pagelen, |rows|);
      ghost var texts := AllRowsHtml(cols, rows, header.value != [], Each(fields));
      t := EmitWindow(cols, rows, header.value != [], fields, paging, startindex, endindex, lo, hi, texts, npe);
    }

    /** The row loop and the closing tag, for the window of rows lo up to hi. */
    method EmitWindow(cols: seq<Column>, rows: seq<Row>, fill: bool, templates: Option<seq<Option<string>>>,
                      paging: bool, startindex: int, endindex: int, ghost lo: nat, ghost hi: nat,
                      ghost texts: seq<string>, npe: string)
      returns (t: Table)
      requires paging ==> 0 <= startindex <= endindex && lo == Min(startindex, |rows|) && hi == Min(endindex, |rows|)
      requires !paging ==> lo == 0 && hi == |rows|
      requires texts == AllRowsHtml(cols, rows, fill, Each(templates))
      modifies this`sb
      ensures lo <= hi <= |rows|
      ensures lo < hi && fill && templates.None? ==>
        t == Table(None, Some(npe), 0) && sb == old(sb) + RowStart(None) + ValueCells(cols, rows[lo], |cols|)
      ensures !(lo < hi && fill && templates.None?) ==>
        t == Table(Some(sb), None, hi - lo) && sb == old(sb) + Concat(texts, lo, hi) + TableClose
    {
      RowTexts(cols, rows, fill, Each(templates));
      var size, failed := EmitRows(cols, rows, fill, templates, paging, startindex, endindex, lo, hi, texts);
      if failed {
        t := Table(None, Some(npe), 0);
        return;
      }
      sb := sb + TableClose;
      t := Table(Some(sb), None, size);
    }
  }

  /** One turn of the row loop, for the row with index n, with the page running from `start`
      to `end` when `paging`: a row before the page leaves nothing rendered yet, a row after it
      means the whole page is rendered, any other row is the next one of the page. */
  lemma WindowStep(paging: bool, start: int, end: int, lo: nat, hi: nat, count: nat, n: nat)
    requires n < count
    requires paging ==> 0 <= start <= end && lo == Min(start, count) && hi == Min(end, count)
    requires !paging ==> lo == 0 && hi == count
    ensures paging && n < start ==> Clamp(n + 1, lo, hi) == lo
    ensures paging && n >= end ==> Clamp(n, lo, hi) == hi
    ensures !(paging && n < start) && !(paging && n >= end) ==> lo <= n < hi
    ensures !(paging && n < start) && !(paging && n >= end) ==> Clamp(n, lo, hi) == n && Clamp(n + 1, lo, hi) == n + 1
  {
  }

  /** The row index clamped into [lo, hi]: how far the loop has got through the page. */
  function Clamp(n: int, lo: int, hi: int): int {
    if n < lo then lo else if n > hi then hi else n
  }
}

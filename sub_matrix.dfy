/** Parsing of whitespace substitution tables and symbol-pair lookup
    (subseq.py SubMatrix, subseq/SubMatrix.py, subseq/ss_SubMatrix.py and the
    SubMatrix of subseq/ss_LA_SEARCH.py). */
module SubMatrix {
  import opened Wrappers
  import opened Errors
  import opened Text

  /** row name -> column name -> the raw token stored there */
  type Table = map<string, map<string, string>>

  /** The two generations of the loader. They differ in how a comment line is
      recognised, in what a row of the wrong length raises, and in what a
      missing pair raises. */
  datatype Dialect =
    | Current   // subseq.py: line.startswith('#'); the mismatch message reads the missing self.matrix_path
    | Modular   // subseq/SubMatrix.py, subseq/ss_SubMatrix.py, subseq/ss_LA_SEARCH.py: line[0] != '#'

  /** What a row whose entry count differs from the header raises. */
  function MismatchError(d: Dialect): Error {
    if d == Current then AttributeError else InvalidMatrixFormatError
  }

  predicate IsComment(line: string) {
    line != [] && line[0] == '#'
  }

  /** The comment filter: the lines that are not comments, in order. In the
      Modular dialect, line[0] on an empty line raises IndexError. */
  function Uncommented(lines: seq<string>, d: Dialect): (r: Result<seq<string>, Error>)
    ensures r.Ok? <==> d == Current || forall k :: 0 <= k < |lines| ==> lines[k] != []
    ensures r.Err? ==> r.error == IndexError
    ensures r.Ok? ==> |r.value| <= |lines|
    ensures r.Ok? ==> forall k :: 0 <= k < |r.value| ==> r.value[k] in lines && !IsComment(r.value[k])
    ensures r.Ok? ==> forall k :: 0 <= k < |lines| && !IsComment(lines[k]) ==> lines[k] in r.value
  {
    if lines == [] then Ok([])
    else if d == Modular && lines[0] == [] then Err(IndexError)
    else match Uncommented(lines[1..], d)
      case Err(e) =>
        assert lines[1..][0] in lines[1..] && lines[1..][0] == lines[1];
        Err(e)
      case Ok(rest) =>
        assert forall k :: 0 < k < |lines| ==> lines[k] == lines[1..][k - 1];
        Ok(if IsComment(lines[0]) then rest else [lines[0]] + rest)
  }

  /** The row built by assigning entries to columns by position; a repeated
      column name keeps the later entry. */
  function RowOf(columns: seq<string>, entries: seq<string>): (row: map<string, string>)
    requires |entries| == |columns|
    ensures forall c :: c in row <==> c in columns
  {
    if columns == [] then map[]
    else
      var n := |columns| - 1;
      RowOf(columns[..n], entries[..n])[columns[n] := entries[n]]
  }

  /** The tokens of each row line, as row.split() gives them. */
  function Tokenize(lines: seq<string>): (rows: seq<seq<string>>)
    ensures |rows| == |lines|
    ensures forall k :: 0 <= k < |lines| ==> rows[k] == Words(lines[k])
  {
    seq(|lines|, k requires 0 <= k < |lines| => Words(lines[k]))
  }

  /** A row is well formed when it holds a row name and one entry per column. */
  predicate WellFormed(columns: seq<string>, row: seq<string>) {
    |row| == |columns| + 1
  }

  /** The row loop, folded from the end so that it grows one row at a time:
      each line is split, its first token names the row (an empty line makes
      pop(0) raise IndexError) and the rest is assigned to the columns. The
      first bad row decides the error. */
  function ParseRows(columns: seq<string>, rows: seq<seq<string>>, d: Dialect): Result<Table, Error> {
    if rows == [] then Ok(map[])
    else
      var n := |rows| - 1;
      match ParseRows(columns, rows[..n], d)
      case Err(e) => Err(e)
      case Ok(t) =>
        var entries := rows[n];
        if entries == [] then Err(IndexError)
        else if |entries| - 1 != |columns| then Err(MismatchError(d))
        else Ok(t[entries[0] := RowOf(columns, entries[1..])])
  }

  /** Once a prefix of the rows has failed, the whole table fails the same way. */
  lemma {:induction false} ParseRowsErrPrefix(columns: seq<string>, rows: seq<seq<string>>, k: nat, d: Dialect)
    requires k <= |rows|
    requires ParseRows(columns, rows[..k], d).Err?
    ensures ParseRows(columns, rows, d) == ParseRows(columns, rows[..k], d)
  {
    if k < |rows| {
      var n := |rows| - 1;
      assert rows[..n][..k] == rows[..k];
      ParseRowsErrPrefix(columns, rows[..n], k, d);
    } else {
      assert rows[..k] == rows;
    }
  }

  /** The lines of a matrix text: stripped, split at newlines, comments dropped. */
  function Lines(text: string, d: Dialect): Result<seq<string>, Error> {
    Uncommented(SplitOn(Strip(text, Whitespace), '\n'), d)
  }

  /** The whole loader: the first remaining line is the header (popping it from
      an empty list raises IndexError), its tokens are the columns. */
  function Load(text: string, d: Dialect): Result<Table, Error> {
    match Lines(text, d)
    case Err(e) => Err(e)
    case Ok(lines) =>
      if lines == [] then Err(IndexError)
      else ParseRows(Words(lines[0]), Tokenize(lines[1..]), d)
  }

  /** The inner loop of the loader: entries are popped one by one into the
      row dict, in column order. */
  method FillRow(columns: seq<string>, entries: seq<string>) returns (row: map<string, string>)
    requires |entries| == |columns|
    ensures row == RowOf(columns, entries)
  {
    row := map[];
    var rest := entries;
    var c := 0;
    while c < |columns|
      invariant 0 <= c <= |columns|
      invariant rest == entries[c..]
      invariant row == RowOf(columns[..c], entries[..c])
    {
      assert columns[..c + 1][..c] == columns[..c];
      assert entries[..c + 1][..c] == entries[..c];
      row := row[columns[c] := rest[0]];
      rest := rest[1..];
      c := c + 1;
    }
    assert columns[..c] == columns && entries[..c] == entries;
  }

  /** The row loop of the loader: a blank line fails the pop of the row name,
      a row of the wrong length fails the count check, and the first failure
      ends the load. */
  method FillRows(columns: seq<string>, lines: seq<string>, d: Dialect) returns (r: Result<Table, Error>)
    ensures r == ParseRows(columns, Tokenize(lines), d)
  {
    ghost var rows := Tokenize(lines);
    var matrix: Table := map[];
    var i := 0;
    while i < |lines|
      invariant 0 <= i <= |lines|
      invariant ParseRows(columns, rows[..i], d) == Ok(matrix)
    {
      var entries := Words(lines[i]);
      if entries == [] {
        ParseRowsNext(columns, rows, i, d);
        ParseRowsErrPrefix(columns, rows, i + 1, d);
        return Err(IndexError);
      }
      var rowName := entries[0];
      entries := entries[1..];
      ghost var cleared := matrix;
      matrix := matrix[rowName := map[]];
      if |entries| != |columns| {
        ParseRowsNext(columns, rows, i, d);
        ParseRowsErrPrefix(columns, rows, i + 1, d);
        return Err(MismatchError(d));
      }
      var row := FillRow(columns, entries);
      matrix := matrix[rowName := row];
      ParseRowsAdd(columns, rows, i, d, cleared, row);
      i := i + 1;
    }
    assert rows[..i] == rows;
    return Ok(matrix);
  }

  /** A well-formed line i adds its row to the table of the lines before it;
      the row name is first cleared and then assigned, which leaves the row. */
  lemma ParseRowsAdd(columns: seq<string>, rows: seq<seq<string>>, i: nat, d: Dialect, t: Table, row: map<string, string>)
    requires i < |rows| && ParseRows(columns, rows[..i], d) == Ok(t)
    requires rows[i] != [] && |rows[i]| - 1 == |columns| && row == RowOf(columns, rows[i][1..])
    ensures ParseRows(columns, rows[..i + 1], d) == Ok(t[rows[i][0] := map[]][rows[i][0] := row])
  {
    ParseRowsNext(columns, rows, i, d);
    assert t[rows[i][0] := map[]][rows[i][0] := row] == t[rows[i][0] := row];
  }

  /** The rows up to line i + 1 parse as the rows up to line i followed by
      line i. */
  lemma ParseRowsNext(columns: seq<string>, rows: seq<seq<string>>, i: nat, d: Dialect)
    requires i < |rows|
    ensures ParseRows(columns, rows[..i + 1], d) ==
      match ParseRows(columns, rows[..i], d)
      case Err(e) => Err(e)
      case Ok(t) =>
        if rows[i] == [] then Err(IndexError)
        else if |rows[i]| - 1 != |columns| then Err(MismatchError(d))
        else Ok(t[rows[i][0] := RowOf(columns, rows[i][1..])])
  {
    assert rows[..i + 1][..i] == rows[..i];
  }

  /** load_matrix / _load_matrix on the text read from the file: the header is
      popped and its tokens become the columns. The table is handed back only
      when every row was accepted, so self.matrix is assigned only on success. */
  method LoadMatrix(text: string, d: Dialect) returns (r: Result<Table, Error>)
    ensures r == Load(text, d)
  {
    var kept := Lines(text, d);
    if kept.Err? {
      return Err(kept.error);
    }
    var lines := kept.value;
    if lines == [] {
      return Err(IndexError);
    }
    var header := lines[0];
    lines := lines[1..];
    r := FillRows(Words(header), lines, d);
  }

  /** The name of a row line: its first token. */
  function RowName(row: seq<string>): string {
    if row == [] then [] else row[0]
  }

  /** The row dict a line yields when it is well formed. */
  function LineRow(columns: seq<string>, row: seq<string>): map<string, string> {
    if WellFormed(columns, row) then RowOf(columns, row[1..]) else map[]
  }

  /** The names of all rows. */
  function RowNames(rows: seq<seq<string>>): set<string> {
    set k | 0 <= k < |rows| :: RowName(rows[k])
  }

  /** No later row line names the same row as line k. */
  predicate LastOfName(rows: seq<seq<string>>, k: nat) {
    forall j :: k < j < |rows| ==> RowName(rows[j]) != RowName(rows[k])
  }

  /** A column name that occurs once in the header reads back the entry at its position. */
  lemma {:induction false} RowOfAt(columns: seq<string>, entries: seq<string>, k: nat)
    requires |entries| == |columns| && k < |columns|
    requires columns[k] !in columns[k + 1..]
    ensures RowOf(columns, entries)[columns[k]] == entries[k]
  {
    var n := |columns| - 1;
    if k < n {
      assert columns[n] == columns[k + 1..][n - k - 1];
      assert columns[..n][k + 1..] == columns[k + 1..n];
      assert columns[..n][k] == columns[k];
      RowOfAt(columns[..n], entries[..n], k);
    }
  }

  /** A table that grows by one well-formed row. */
  lemma ParseRowsStep(columns: seq<string>, rows: seq<seq<string>>, d: Dialect)
    requires rows != [] && WellFormed(columns, rows[|rows| - 1])
    requires ParseRows(columns, rows[..|rows| - 1], d).Ok?
    ensures ParseRows(columns, rows, d)
      == Ok(ParseRows(columns, rows[..|rows| - 1], d).value[RowName(rows[|rows| - 1]) := LineRow(columns, rows[|rows| - 1])])
  {
  }

  /** When every row is well formed the load succeeds and the table has one
      entry per row name. */
  lemma {:induction false} ParseRowsOk(columns: seq<string>, rows: seq<seq<string>>, d: Dialect)
    requires forall k :: 0 <= k < |rows| ==> WellFormed(columns, rows[k])
    ensures ParseRows(columns, rows, d).Ok?
    ensures ParseRows(columns, rows, d).value.Keys == RowNames(rows)
  {
    if rows != [] {
      var n := |rows| - 1;
      var init := rows[..n];
      forall k | 0 <= k < n ensures WellFormed(columns, init[k]) {
        assert init[k] == rows[k];
      }
      ParseRowsOk(columns, init, d);
      ParseRowsStep(columns, rows, d);
      forall name | name in RowNames(rows) ensures name in RowNames(init) + {RowName(rows[n])} {
        var k :| 0 <= k < |rows| && RowName(rows[k]) == name;
        if k < n {
          assert init[k] == rows[k];
        }
      }
      forall name | name in RowNames(init) ensures name in RowNames(rows) {
        var k :| 0 <= k < n && RowName(init[k]) == name;
        assert init[k] == rows[k];
      }
    }
  }

  /** The entry of a row name is the row dict of the last line with that name. */
  lemma {:induction false} ParseRowsAt(columns: seq<string>, rows: seq<seq<string>>, k: nat, d: Dialect)
    requires forall j :: 0 <= j < |rows| ==> WellFormed(columns, rows[j])
    requires k < |rows| && LastOfName(rows, k)
    ensures ParseRows(columns, rows, d).Ok? && RowName(rows[k]) in ParseRows(columns, rows, d).value
    ensures ParseRows(columns, rows, d).value[RowName(rows[k])] == LineRow(columns, rows[k])
  {
    ParseRowsOk(columns, rows, d);
    var n := |rows| - 1;
    var init := rows[..n];
    forall j | 0 <= j < n ensures WellFormed(columns, init[j]) {
      assert init[j] == rows[j];
    }
    ParseRowsOk(columns, init, d);
    ParseRowsStep(columns, rows, d);
    if k < n {
      assert init[k] == rows[k];
      assert RowName(rows[k]) != RowName(rows[n]);
      assert LastOfName(init, k) by {
        forall j | k < j < n ensures RowName(init[j]) != RowName(init[k]) {
          assert init[j] == rows[j];
        }
      }
      ParseRowsAt(columns, init, k, d);
    }
  }

  /** The first ill-formed row decides the error: a blank line fails the pop
      of its name, any other the count check. */
  lemma ParseRowsFails(columns: seq<string>, rows: seq<seq<string>>, k: nat, d: Dialect)
    requires k < |rows| && !WellFormed(columns, rows[k])
    requires forall j :: 0 <= j < k ==> WellFormed(columns, rows[j])
    ensures ParseRows(columns, rows, d)
      == Err(if rows[k] == [] then IndexError else MismatchError(d))
  {
    assert rows[..k + 1][..k] == rows[..k];
    assert forall j :: 0 <= j < k ==> rows[..k][j] == rows[j];
    ParseRowsOk(columns, rows[..k], d);
    assert rows[..k + 1][k] == rows[k];
    ParseRowsErrPrefix(columns, rows, k + 1, d);
  }

  /** sub_matrix[a, b] / get_score(a, b): the stored token, or the error the
      dialect raises for a pair that is not in the table. */
  function Lookup(t: Table, a: string, b: string, d: Dialect): (r: Result<string, Error>)
    ensures r.Ok? <==> a in t && b in t[a]
    ensures r.Err? ==> r.error == if d == Current then KeyError else InvalidPairError(a, b)
  {
    if a in t && b in t[a] then Ok(t[a][b])
    else if d == Current then Err(KeyError)
    else Err(InvalidPairError(a, b))
  }

  /** int(sub_matrix[a, b]) as the aligners use it: the lookup, then the
      integer conversion of the token, which raises ValueError on a token that
      is not a decimal integer. */
  function Score(t: Table, a: char, b: char, d: Dialect): (r: Result<int, Error>)
    ensures r.Ok? <==> Lookup(t, [a], [b], d).Ok? && ParseInt(t[[a]][[b]]).Some?
    ensures r.Ok? ==> r.value == ParseInt(t[[a]][[b]]).value
    ensures r.Err? && Lookup(t, [a], [b], d).Ok? ==> r.error == ValueError
  {
    match Lookup(t, [a], [b], d)
    case Err(e) => Err(e)
    case Ok(token) =>
      match ParseInt(token)
      case None => Err(ValueError)
      case Some(v) => Ok(v)
  }

  /** Every pair the aligners will look up for these two sequences is present
      and numeric: the fill of the score matrix raises on nothing. */
  predicate Covers(t: Table, target: string, sequence: string, d: Dialect) {
    forall i, j :: 0 <= i < |target| && 0 <= j < |sequence| ==> Score(t, target[i], sequence[j], d).Ok?
  }

  /** The score function handed to the aligners. */
  function ScoreFn(t: Table, d: Dialect): (char, char) -> int {
    (a: char, b: char) => if Score(t, a, b, d).Ok? then Score(t, a, b, d).value else 0
  }

  /** The rows of a table: each row name followed by its entries. */
  function TableRows(names: seq<string>, entries: seq<seq<string>>): (rows: seq<seq<string>>)
    requires |entries| == |names|
    ensures |rows| == |names|
    ensures forall k :: 0 <= k < |names| ==> rows[k] == [names[k]] + entries[k]
  {
    seq(|names|, k requires 0 <= k < |names| => [names[k]] + entries[k])
  }

  /** Those rows written out as lines, one space between tokens. */
  function RenderRows(names: seq<string>, entries: seq<seq<string>>): (lines: seq<string>)
    requires |entries| == |names|
    ensures |lines| == |names|
    ensures forall k :: 0 <= k < |names| ==> lines[k] == Unwords(TableRows(names, entries)[k])
  {
    seq(|names|, k requires 0 <= k < |names| => Unwords([names[k]] + entries[k]))
  }

  /** Rows with distinct names and one entry per distinct column load into the
      table they describe: every pair reads the entry at its row and column. */
  lemma TableRowsLoad(columns: seq<string>, names: seq<string>, entries: seq<seq<string>>, d: Dialect)
    requires forall c :: 0 <= c < |columns| ==> columns[c] !in columns[c + 1..]
    requires |entries| == |names|
    requires forall k :: 0 <= k < |names| ==> names[k] !in names[k + 1..]
    requires forall k :: 0 <= k < |names| ==> |entries[k]| == |columns|
    ensures var r := ParseRows(columns, TableRows(names, entries), d);
      r.Ok?
      && (forall name :: name in r.value <==> name in names)
      && (forall k, c :: 0 <= k < |names| && 0 <= c < |columns| ==>
            Lookup(r.value, names[k], columns[c], d) == Ok(entries[k][c]))
  {
    var rows := TableRows(names, entries);
    ParseRowsOk(columns, rows, d);
    var t := ParseRows(columns, rows, d).value;
    forall name | name in t ensures name in names {
      var k :| 0 <= k < |rows| && RowName(rows[k]) == name;
      assert RowName(rows[k]) == names[k];
    }
    forall k, c | 0 <= k < |names| && 0 <= c < |columns|
      ensures names[k] in t && Lookup(t, names[k], columns[c], d) == Ok(entries[k][c])
    {
      TableRowsEntry(columns, names, entries, d, k);
      RowOfAt(columns, entries[k], c);
    }
  }

  /** The row of each name is the dict of its entries. */
  lemma TableRowsEntry(columns: seq<string>, names: seq<string>, entries: seq<seq<string>>, d: Dialect, k: nat)
    requires |entries| == |names| && k < |names|
    requires forall m :: 0 <= m < |names| ==> names[m] !in names[m + 1..]
    requires forall m :: 0 <= m < |names| ==> |entries[m]| == |columns|
    ensures var r := ParseRows(columns, TableRows(names, entries), d);
      r.Ok? && names[k] in r.value && r.value[names[k]] == RowOf(columns, entries[k])
  {
    var rows := TableRows(names, entries);
    assert RowName(rows[k]) == names[k];
    forall j | k < j < |rows| ensures RowName(rows[j]) != RowName(rows[k]) {
      assert names[j] == names[k + 1..][j - k - 1];
    }
    assert rows[k][1..] == entries[k];
    ParseRowsAt(columns, rows, k, d);
  }

  /** Splitting the written-out lines gives the rows back. */
  lemma RenderRowsTokens(names: seq<string>, entries: seq<seq<string>>)
    requires |entries| == |names|
    requires forall k :: 0 <= k < |names| ==> IsToken(names[k])
    requires forall k, c :: 0 <= k < |names| && 0 <= c < |entries[k]| ==> IsToken(entries[k][c])
    ensures Tokenize(RenderRows(names, entries)) == TableRows(names, entries)
  {
    var rows := TableRows(names, entries);
    forall k | 0 <= k < |names| ensures Words(Unwords(rows[k])) == rows[k] {
      forall i | 0 <= i < |rows[k]| ensures IsToken(rows[k][i]) {
        if i > 0 { assert rows[k][i] == entries[k][i - 1]; }
      }
      WordsUnwords(rows[k]);
    }
  }

  /** A table written out one token per entry loads back. */
  lemma RenderedRowsLoad(columns: seq<string>, names: seq<string>, entries: seq<seq<string>>, d: Dialect)
    requires forall c :: 0 <= c < |columns| ==> columns[c] !in columns[c + 1..]
    requires |entries| == |names|
    requires forall k :: 0 <= k < |names| ==> IsToken(names[k]) && names[k] !in names[k + 1..]
    requires forall k :: 0 <= k < |names| ==> |entries[k]| == |columns|
    requires forall k, c :: 0 <= k < |names| && 0 <= c < |columns| ==> IsToken(entries[k][c])
    ensures var r := ParseRows(columns, Tokenize(RenderRows(names, entries)), d);
      r.Ok?
      && (forall name :: name in r.value <==> name in names)
      && (forall k, c :: 0 <= k < |names| && 0 <= c < |columns| ==>
            Lookup(r.value, names[k], columns[c], d) == Ok(entries[k][c]))
  {
    RenderRowsTokens(names, entries);
    TableRowsLoad(columns, names, entries, d);
  }

  /** Lines that are neither empty nor comments pass the filter unchanged. */
  lemma {:induction false} UncommentedPlain(lines: seq<string>, d: Dialect)
    requires forall k :: 0 <= k < |lines| ==> lines[k] != [] && !IsComment(lines[k])
    ensures Uncommented(lines, d) == Ok(lines)
  {
    if lines != [] {
      UncommentedPlain(lines[1..], d);
      assert [lines[0]] + lines[1..] == lines;
    }
  }

  /** The text of a table: a header line of the columns, then one line per
      row, each line's tokens joined by single spaces. */
  function RenderTable(columns: seq<string>, names: seq<string>, entries: seq<seq<string>>): string
    requires |entries| == |names|
  {
    Join([Unwords(columns)] + RenderRows(names, entries), '\n')
  }

  /** The text a non-empty token list renders to is a line the loader keeps:
      it survives the strip, holds no line break and is not a comment. */
  lemma RenderedLine(ws: seq<string>)
    requires ws != [] && forall i :: 0 <= i < |ws| ==> IsToken(ws[i])
    requires !IsComment(ws[0])
    ensures var s := Unwords(ws);
      s != [] && s[0] !in Whitespace && s[|s| - 1] !in Whitespace && '\n' !in s && !IsComment(s)
  {
    UnwordsShape(ws);
    var s := Unwords(ws);
    assert !IsSpace(ws[0][0]);
    var w := ws[|ws| - 1];
    assert !IsSpace(w[|w| - 1]);
    forall i | 0 <= i < |s| ensures s[i] != '\n' {
      if s[i] == '\n' { assert IsSpace(s[i]); }
    }
  }

  /** A table written out as text loads back through the whole loader --
      strip, split into lines, comment filter, header, row loop -- into the
      table it describes, when no column or row name starts with '#'. */
  lemma RenderedTableLoad(columns: seq<string>, names: seq<string>, entries: seq<seq<string>>, d: Dialect)
    requires forall c :: 0 <= c < |columns| ==> IsToken(columns[c]) && columns[c] !in columns[c + 1..]
    requires columns != [] && !IsComment(columns[0])
    requires |entries| == |names|
    requires forall k :: 0 <= k < |names| ==> IsToken(names[k]) && !IsComment(names[k]) && names[k] !in names[k + 1..]
    requires forall k :: 0 <= k < |names| ==> |entries[k]| == |columns|
    requires forall k, c :: 0 <= k < |names| && 0 <= c < |columns| ==> IsToken(entries[k][c])
    ensures var r := Load(RenderTable(columns, names, entries), d);
      r.Ok?
      && (forall name :: name in r.value <==> name in names)
      && (forall k, c :: 0 <= k < |names| && 0 <= c < |columns| ==>
            Lookup(r.value, names[k], columns[c], d) == Ok(entries[k][c]))
  {
    var rendered := RenderRows(names, entries);
    var lines := [Unwords(columns)] + rendered;
    var rows := TableRows(names, entries);
    forall k | 0 <= k < |lines|
      ensures var s := lines[k];
        s != [] && s[0] !in Whitespace && s[|s| - 1] !in Whitespace && '\n' !in s && !IsComment(s)
    {
      if k == 0 {
        RenderedLine(columns);
      } else {
        var row := rows[k - 1];
        assert row[0] == names[k - 1];
        forall i | 0 <= i < |row| ensures IsToken(row[i]) {
          if i > 0 { assert row[i] == entries[k - 1][i - 1]; }
        }
        RenderedLine(row);
      }
    }
    var text := Join(lines, '\n');
    JoinEnds(lines, '\n');
    StripUnchanged(text, Whitespace);
    SplitOnJoined(lines, '\n');
    UncommentedPlain(lines, d);
    assert Lines(text, d) == Ok(lines);
    WordsUnwords(columns);
    assert lines[1..] == rendered;
    RenderedRowsLoad(columns, names, entries, d);
  }

  /** The tables subseq.py falls back on when the named file cannot be opened. */
  const Blosum62: string := @"
   A  R  N  D  C  Q  E  G  H  I  L  K  M  F  P  S  T  W  Y  V  B  Z  X  *
A  4 -1 -2 -2  0 -1 -1  0 -2 -1 -1 -1 -1 -2 -1  1  0 -3 -2  0 -2 -1  0 -4
R -1  5  0 -2 -3  1  0 -2  0 -3 -2  2 -1 -3 -2 -1 -1 -3 -2 -3 -1  0 -1 -4
N -2  0  6  1 -3  0  0  0  1 -3 -3  0 -2 -3 -2  1  0 -4 -2 -3  3  0 -1 -4
D -2 -2  1  6 -3  0  2 -1 -1 -3 -4 -1 -3 -3 -1  0 -1 -4 -3 -3  4  1 -1 -4
C  0 -3 -3 -3  9 -3 -4 -3 -3 -1 -1 -3 -1 -2 -3 -1 -1 -2 -2 -1 -3 -3 -2 -4
Q -1  1  0  0 -3  5  2 -2  0 -3 -2  1  0 -3 -1  0 -1 -2 -1 -2  0  3 -1 -4
E -1  0  0  2 -4  2  5 -2  0 -3 -3  1 -2 -3 -1  0 -1 -3 -2 -2  1  4 -1 -4
G  0 -2  0 -1 -3 -2 -2  6 -2 -4 -4 -2 -3 -3 -2  0 -2 -2 -3 -3 -1 -2 -1 -4
H -2  0  1 -1 -3  0  0 -2  8 -3 -3 -1 -2 -1 -2 -1 -2 -2  2 -3  0  0 -1 -4
I -1 -3 -3 -3 -1 -3 -3 -4 -3  4  2 -3  1  0 -3 -2 -1 -3 -1  3 -3 -3 -1 -4
L -1 -2 -3 -4 -1 -2 -3 -4 -3  2  4 -2  2  0 -3 -2 -1 -2 -1  1 -4 -3 -1 -4
K -1  2  0 -1 -3  1  1 -2 -1 -3 -2  5 -1 -3 -1  0 -1 -3 -2 -2  0  1 -1 -4
M -1 -1 -2 -3 -1  0 -2 -3 -2  1  2 -1  5  0 -2 -1 -1 -1 -1  1 -3 -1 -1 -4
F -2 -3 -3 -3 -2 -3 -3 -3 -1  0  0 -3  0  6 -4 -2 -2  1  3 -1 -3 -3 -1 -4
P -1 -2 -2 -1 -3 -1 -1 -2 -2 -3 -3 -1 -2 -4  7 -1 -1 -4 -3 -2 -2 -1 -2 -4
S  1 -1  1  0 -1  0  0  0 -1 -2 -2  0 -1 -2 -1  4  1 -3 -2 -2  0  0  0 -4
T  0 -1  0 -1 -1 -1 -1 -2 -2 -1 -1 -1 -1 -2 -1  1  5 -2 -2  0 -1 -1  0 -4
W -3 -3 -4 -4 -2 -2 -3 -2 -2 -3 -2 -3 -1  1 -4 -3 -2 11  2 -3 -4 -3 -2 -4
Y -2 -2 -2 -3 -2 -1 -2 -3  2 -1 -1 -2 -1  3 -3 -2 -2  2  7 -1 -3 -2 -1 -4
V  0 -3 -3 -3 -1 -2 -2 -3 -3  3  1 -2  1 -1 -2 -2  0 -3 -1  4 -3 -2 -1 -4
B -2 -1  3  4 -3  0  1 -1  0 -3 -4  0 -3 -3 -2  0 -1 -4 -3 -3  4  1 -1 -4
Z -1  0  0  1 -3  3  4 -2  0 -3 -3  1 -1 -3 -1  0 -1 -3 -2 -2  1  4 -1 -4
X  0 -1 -1 -1 -2 -1 -1 -1 -1 -1 -1 -1 -1 -1 -2  0  0 -2 -1 -1 -1 -1 -1 -4
* -4 -4 -4 -4 -4 -4 -4 -4 -4 -4 -4 -4 -4 -4 -4 -4 -4 -4 -4 -4 -4 -4 -4  1
"

  const NucleicMatrix: string := @"
   A  C  G  T  U  X
A  2 -1 -1 -1 -1 -1
C -1  2 -1 -1 -1 -1
G -1 -1  2 -1 -1 -1
T -1 -1 -1  2 -1 -1
U -1 -1 -1 -1  2 -1
X -1 -1 -1 -1 -1  1
"

  function Builtin(name: string): Option<string> {
    if name == "blossum62" then Some(Blosum62)
    else if name == "nucleicmatrix" then Some(NucleicMatrix)
    else None
  }
}

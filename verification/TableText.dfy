/** Printing tables as Markdown and reading them back (src/doc/serialize.rs, src/doc/parser.rs). */
module TableText {
  import opened OpIds

  datatype Alignment = Left | Center | Right

  datatype Table = Table(header: seq<string>, alignments: seq<Alignment>, rows: seq<seq<string>>)

  /** Unicode White_Space, as `str::trim` uses it. */
  predicate IsSpace(c: char) {
    var u := c as int;
    || 0x09 <= u <= 0x0D || u == 0x20 || u == 0x85 || u == 0xA0 || u == 0x1680
    || 0x2000 <= u <= 0x200A || u == 0x2028 || u == 0x2029 || u == 0x202F || u == 0x205F || u == 0x3000
  }

  function TrimStart(s: string): string {
    if s != "" && IsSpace(s[0]) then TrimStart(s[1..]) else s
  }

  function TrimEnd(s: string): string {
    if s != "" && IsSpace(s[|s| - 1]) then TrimEnd(s[..|s| - 1]) else s
  }

  function Trim(s: string): string {
    TrimEnd(TrimStart(s))
  }

  predicate Trimmed(s: string) {
    s == "" || (!IsSpace(s[0]) && !IsSpace(s[|s| - 1]))
  }

  lemma TrimPadded(c: string)
    requires Trimmed(c)
    ensures Trim(" " + c + " ") == c
  {
    var padded := " " + c + " ";
    assert padded[1..] == c + " ";
    if c == "" {
      assert TrimStart(padded[1..]) == TrimStart("");
    } else {
      assert TrimStart(c + " ") == c + " ";
      assert (c + " ")[..|c|] == c;
      assert TrimEnd(c + " ") == TrimEnd(c);
    }
  }

  lemma TrimNothing(s: string)
    requires Trimmed(s)
    ensures Trim(s) == s
  {
  }

  // ----- printing

  function Escape(cell: string): string {
    if cell == "" then ""
    else (if cell[0] == '\\' || cell[0] == '|' then ['\\', cell[0]] else [cell[0]]) + Escape(cell[1..])
  }

  method EscapeTableCell(cell: string) returns (escaped: string)
    ensures escaped == Escape(cell)
  {
    hide Escape;
    escaped := "";
    assert cell[0..] == cell;
    for i := 0 to |cell|
      invariant escaped + Escape(cell[i..]) == Escape(cell)
    {
      EscapeNext(cell, i, escaped);
      if cell[i] == '\\' || cell[i] == '|' {
        escaped := escaped + ['\\'];
      }
      escaped := escaped + [cell[i]];
    }
    EscapeNone(cell);
  }

  lemma EscapeNext(cell: string, i: nat, before: string)
    requires i < |cell|
    ensures before + Escape(cell[i..])
         == before + (if cell[i] == '\\' || cell[i] == '|' then ['\\'] else []) + [cell[i]] + Escape(cell[i + 1..])
  {
    assert cell[i..][1..] == cell[i + 1..];
  }

  lemma EscapeNone(cell: string)
    ensures Escape(cell[|cell|..]) == ""
  {
  }

  function EscapeAll(cells: seq<string>): (out: seq<string>)
    ensures |out| == |cells| && forall i :: 0 <= i < |out| ==> out[i] == Escape(cells[i])
  {
    seq(|cells|, i requires 0 <= i < |cells| => Escape(cells[i]))
  }

  function Join(parts: seq<string>, separator: string): string {
    if parts == [] then ""
    else if |parts| == 1 then parts[0]
    else parts[0] + separator + Join(parts[1..], separator)
  }

  lemma {:induction false} JoinSnoc(parts: seq<string>, last: string, separator: string)
    requires parts != []
    ensures Join(parts + [last], separator) == Join(parts, separator) + separator + last
  {
    var all := parts + [last];
    assert all[1..] == parts[1..] + [last];
    if |parts| == 1 {
      assert all[1..] == [last];
    } else {
      JoinSnoc(parts[1..], last, separator);
    }
  }

  method JoinParts(parts: seq<string>, separator: string) returns (out: string)
    ensures out == Join(parts, separator)
  {
    out := "";
    for i := 0 to |parts|
      invariant out == Join(parts[..i], separator)
    {
      assert parts[..i + 1] == parts[..i] + [parts[i]];
      if i > 0 {
        JoinSnoc(parts[..i], parts[i], separator);
        out := out + separator;
      }
      out := out + parts[i];
    }
    assert parts[..|parts|] == parts;
  }

  function PrintRow(parts: seq<string>): string {
    "| " + Join(parts, " | ") + " |"
  }

  function Marker(a: Alignment): string {
    match a
    case Left => "---"
    case Center => ":---:"
    case Right => "---:"
  }

  function Markers(alignments: seq<Alignment>): (out: seq<string>)
    ensures |out| == |alignments| && forall i :: 0 <= i < |out| ==> out[i] == Marker(alignments[i])
  {
    seq(|alignments|, i requires 0 <= i < |alignments| => Marker(alignments[i]))
  }

  function PrintRows(rows: seq<seq<string>>): (out: seq<string>)
    ensures |out| == |rows| && forall i :: 0 <= i < |out| ==> out[i] == PrintRow(EscapeAll(rows[i]))
  {
    seq(|rows|, i requires 0 <= i < |rows| => PrintRow(EscapeAll(rows[i])))
  }

  /** Header, delimiter line, rows: the lines of a table whose rows all have the same width. */
  function PrintTable(t: Table): seq<string> {
    [PrintRow(EscapeAll(t.header)), PrintRow(Markers(t.alignments))] + PrintRows(t.rows)
  }

  /** The widest of the header, the columns and the rows. */
  function Width(t: Table): nat {
    WidestRow(t.rows, if |t.header| > |t.alignments| then |t.header| else |t.alignments|)
  }

  function WidestRow(rows: seq<seq<string>>, least: nat): nat {
    if rows == [] then least
    else WidestRow(rows[1..], if |rows[0]| > least then |rows[0]| else least)
  }

  /** Cells past the last column are dropped; missing ones read as empty. */
  function FitRow(cells: seq<string>, n: nat): (out: seq<string>)
    ensures |out| == n
    ensures forall i :: 0 <= i < n ==> out[i] == if i < |cells| then cells[i] else ""
  {
    seq(n, i requires 0 <= i < n => if i < |cells| then cells[i] else "")
  }

  function FitRows(rows: seq<seq<string>>, n: nat): (out: seq<seq<string>>)
    ensures |out| == |rows| && forall i :: 0 <= i < |rows| ==> out[i] == FitRow(rows[i], n)
  {
    seq(|rows|, i requires 0 <= i < |rows| => FitRow(rows[i], n))
  }

  function FitAlignments(alignments: seq<Alignment>, n: nat): seq<Alignment> {
    seq(n, i requires 0 <= i < n => if i < |alignments| then alignments[i] else Left)
  }

  /** The same table with every row and the alignments padded to the full width. */
  function Squared(t: Table): Table {
    var n := Width(t);
    Table(FitRow(t.header, n), FitAlignments(t.alignments, n), FitRows(t.rows, n))
  }

  method WidestOf(t: Table) returns (n: nat)
    ensures n == Width(t)
  {
    n := if |t.header| > |t.alignments| then |t.header| else |t.alignments|;
    assert t.rows[0..] == t.rows;
    for i := 0 to |t.rows|
      invariant WidestRow(t.rows[i..], n) == Width(t)
    {
      assert t.rows[i..][1..] == t.rows[i + 1..];
      n := if |t.rows[i]| > n then |t.rows[i]| else n;
    }
  }

  method SerializeRow(cells: seq<string>, n: nat) returns (line: string)
    ensures line == PrintRow(EscapeAll(FitRow(cells, n)))
  {
    var parts: seq<string>, fitted := [], FitRow(cells, n);
    for i := 0 to |fitted|
      invariant |parts| == i && forall k :: 0 <= k < i ==> parts[k] == Escape(fitted[k])
    {
      var part := EscapeTableCell(fitted[i]);
      parts := parts + [part];
    }
    assert parts == EscapeAll(fitted);
    var joined := JoinParts(parts, " | ");
    line := "| " + joined + " |";
  }

  method SerializeMarkers(alignments: seq<Alignment>, n: nat) returns (line: string)
    ensures line == PrintRow(Markers(FitAlignments(alignments, n)))
  {
    var parts: seq<string> := [];
    for i := 0 to n
      invariant |parts| == i && forall k :: 0 <= k < i ==> parts[k] == Marker(FitAlignments(alignments, n)[k])
    {
      var a := if i < |alignments| then alignments[i] else Left;
      parts := parts + [Marker(a)];
    }
    assert parts == Markers(FitAlignments(alignments, n));
    var joined := JoinParts(parts, " | ");
    line := "| " + joined + " |";
  }

  method SerializeTable(t: Table) returns (text: string)
    ensures text == if Width(t) == 0 then "" else Join(PrintTable(Squared(t)), "\n")
  {
    hide PrintRow, EscapeAll, FitRow, Width;
    var n := WidestOf(t);
    if n == 0 {
      return "";
    }
    var header := SerializeRow(t.header, n);
    var delimiter := SerializeMarkers(t.alignments, n);
    var lines := [header, delimiter];
    for i := 0 to |t.rows|
      invariant |lines| == 2 + i && lines[0] == header && lines[1] == delimiter
      invariant forall k :: 0 <= k < i ==> lines[2 + k] == PrintRow(EscapeAll(FitRow(t.rows[k], n)))
    {
      var line := SerializeRow(t.rows[i], n);
      lines := lines + [line];
    }
    assert lines == PrintTable(Squared(t));
    text := JoinParts(lines, "\n");
  }

  // ----- parsing

  /** Split at unescaped pipes; a backslash escapes a pipe or a backslash and nothing else. */
  function Scan(inner: string, cell: string): seq<string>
    decreases |inner|
  {
    if inner == "" then [cell]
    else if inner[0] == '|' then [cell] + Scan(inner[1..], "")
    else if inner[0] == '\\' && |inner| > 1 && (inner[1] == '|' || inner[1] == '\\')
        then Scan(inner[2..], cell + [inner[1]])
    else Scan(inner[1..], cell + [inner[0]])
  }

  function TrimAll(cells: seq<string>): (out: seq<string>)
    ensures |out| == |cells| && forall i :: 0 <= i < |out| ==> out[i] == Trim(cells[i])
  {
    seq(|cells|, i requires 0 <= i < |cells| => Trim(cells[i]))
  }

  function TrailingBackslashes(s: string): nat {
    if s != "" && s[|s| - 1] == '\\' then 1 + TrailingBackslashes(s[..|s| - 1]) else 0
  }

  /** Drop the outer pipes; a closing pipe counts only if an even number of backslashes precedes it. */
  function Inner(trimmed: string): string {
    var inner := if trimmed != "" && trimmed[0] == '|' then trimmed[1..] else trimmed;
    if inner != "" && inner[|inner| - 1] == '|' && TrailingBackslashes(inner[..|inner| - 1]) % 2 == 0
    then inner[..|inner| - 1] else inner
  }

  function CellsOf(line: string): Option<seq<string>> {
    var trimmed := Trim(line);
    if '|' !in trimmed then None else Some(TrimAll(Scan(Inner(trimmed), "")))
  }

  method ParseTableCells(line: string) returns (cells: Option<seq<string>>)
    ensures cells == CellsOf(line)
  {
    var trimmed := Trim(line);
    if '|' !in trimmed {
      return None;
    }
    var inner := Inner(trimmed);
    var raw: seq<string>, cell: string, i := [], "", 0;
    while i < |inner|
      invariant i <= |inner| && raw + Scan(inner[i..], cell) == Scan(inner, "")
    {
      var c := inner[i];
      assert inner[i..][1..] == inner[i + 1..];
      if c == '|' {
        raw := raw + [cell];
        cell := "";
        i := i + 1;
      } else if c == '\\' && i + 1 < |inner| && (inner[i + 1] == '|' || inner[i + 1] == '\\') {
        assert inner[i..][2..] == inner[i + 2..];
        cell := cell + [inner[i + 1]];
        i := i + 2;
      } else {
        cell := cell + [c];
        i := i + 1;
      }
    }
    raw := raw + [cell];
    return Some(TrimAll(raw));
  }

  function StripColons(s: string): string {
    if s != "" && s[0] == ':' then StripColons(s[1..])
    else if s != "" && s[|s| - 1] == ':' then StripColons(s[..|s| - 1])
    else s
  }

  function AlignmentOf(cell: string): Option<Alignment> {
    var marker := Trim(cell);
    var dashes := StripColons(marker);
    if |dashes| < 3 || exists i :: 0 <= i < |dashes| && dashes[i] != '-' then None
    else
      var left, right := marker[0] == ':', marker[|marker| - 1] == ':';
      Some(if left && right then Center else if right then Right else Left)
  }

  function AlignmentsOf(cells: seq<string>): Option<seq<Alignment>> {
    if cells == [] then Some([])
    else
      var first, rest := AlignmentOf(cells[0]), AlignmentsOf(cells[1..]);
      if first.None? || rest.None? then None else Some([first.value] + rest.value)
  }

  function DelimiterOf(line: string): Option<seq<Alignment>> {
    var cells := CellsOf(line);
    if cells.None? then None else AlignmentsOf(cells.value)
  }

  function RowsOf(lines: seq<string>, n: nat): seq<seq<string>> {
    if lines == [] then []
    else
      var cells := CellsOf(lines[0]);
      if cells.None? then [] else [FitRow(cells.value, n)] + RowsOf(lines[1..], n)
  }

  /** A header line, a delimiter line of as many cells, and rows until a line without a pipe. */
  function TableOf(lines: seq<string>): Option<Table> {
    if |lines| < 2 then None
    else
      var columns, header := DelimiterOf(lines[1]), CellsOf(lines[0]);
      if columns.None? || header.None? || |header.value| != |columns.value| then None
      else Some(Table(header.value, columns.value, RowsOf(lines[2..], |columns.value|)))
  }

  method ParseTable(lines: seq<string>) returns (t: Option<Table>)
    ensures t == TableOf(lines)
  {
    hide CellsOf, AlignmentsOf, DelimiterOf, RowsOf;
    if |lines| < 2 {
      return None;
    }
    var delimiter := ParseTableDelimiter(lines[1]);
    var header := ParseTableCells(lines[0]);
    if delimiter.None? || header.None? || |header.value| != |delimiter.value| {
      return None;
    }
    var rows, _ := ParseTableRows(lines, 2, |delimiter.value|);
    return Some(Table(header.value, delimiter.value, rows));
  }

  /** Rows from `start` on, up to the first line without a pipe. */
  method ParseTableRows(lines: seq<string>, start: nat, columns: nat) returns (rows: seq<seq<string>>, end: nat)
    requires start <= |lines|
    ensures rows == RowsOf(lines[start..], columns)
    ensures start <= end <= |lines|
    ensures end < |lines| ==> CellsOf(lines[end]).None?
    ensures forall i :: start <= i < end ==> CellsOf(lines[i]).Some?
  {
    hide CellsOf, FitRow;
    rows, end := [], start;
    while end < |lines|
      invariant start <= end <= |lines| && rows + RowsOf(lines[end..], columns) == RowsOf(lines[start..], columns)
      invariant forall i :: start <= i < end ==> CellsOf(lines[i]).Some?
    {
      var cells := ParseTableCells(lines[end]);
      assert lines[end..][1..] == lines[end + 1..];
      if cells.None? {
        return;
      }
      rows := rows + [FitRow(cells.value, columns)];
      end := end + 1;
    }
  }

  method ParseTableDelimiter(line: string) returns (columns: Option<seq<Alignment>>)
    ensures columns == DelimiterOf(line)
  {
    hide CellsOf, AlignmentOf;
    var cells := ParseTableCells(line);
    if cells.None? {
      return None;
    }
    var markers := cells.value;
    var out: seq<Alignment> := [];
    assert markers[0..] == markers;
    PrependOne([], [], AlignmentsOf(markers));
    for i := 0 to |markers|
      invariant AlignmentsOf(markers) == Prepended(out, AlignmentsOf(markers[i..]))
    {
      var a := AlignmentOf(markers[i]);
      assert markers[i..][1..] == markers[i + 1..];
      if a.None? {
        return None;
      }
      PrependOne(out, [a.value], AlignmentsOf(markers[i + 1..]));
      out := out + [a.value];
    }
    assert markers[|markers|..] == [] && out + [] == out;
    return Some(out);
  }

  function Prepended(out: seq<Alignment>, rest: Option<seq<Alignment>>): Option<seq<Alignment>> {
    if rest.None? then None else Some(out + rest.value)
  }

  lemma PrependOne(out: seq<Alignment>, more: seq<Alignment>, rest: Option<seq<Alignment>>)
    ensures Prepended(out + more, rest) == Prepended(out, Prepended(more, rest))
    ensures Prepended([], rest) == rest
  {
    if rest.Some? {
      assert out + more + rest.value == out + (more + rest.value) && [] + rest.value == rest.value;
    }
  }

  // ----- reading back what was printed

  predicate Printable(cells: seq<string>) {
    forall i :: 0 <= i < |cells| ==> Trimmed(cells[i])
  }

  /** Every cell is trimmed; rows may still be ragged. */
  predicate WellFormed(t: Table) {
    && Printable(t.header)
    && forall i :: 0 <= i < |t.rows| ==> Printable(t.rows[i])
  }

  /** Scanning an escaped cell gives the cell back, whatever pipes and backslashes it holds. */
  lemma {:induction false} ScanEscaped(cell: string, rest: string, sofar: string)
    ensures Scan(Escape(cell) + rest, sofar) == Scan(rest, sofar + cell)
    decreases |cell|
  {
    if cell == "" {
      assert Escape(cell) + rest == rest && sofar + cell == sofar;
    } else {
      var tail := Escape(cell[1..]) + rest;
      assert sofar + [cell[0]] + cell[1..] == sofar + cell;
      if cell[0] == '\\' || cell[0] == '|' {
        assert Escape(cell) + rest == ['\\', cell[0]] + tail;
        assert (['\\', cell[0]] + tail)[2..] == tail;
      } else {
        assert Escape(cell) + rest == [cell[0]] + tail;
        assert ([cell[0]] + tail)[1..] == tail;
      }
      ScanEscaped(cell[1..], rest, sofar + [cell[0]]);
    }
  }

  function Padded(cells: seq<string>): (out: seq<string>)
    ensures |out| == |cells| && forall i :: 0 <= i < |out| ==> out[i] == " " + cells[i] + " "
  {
    seq(|cells|, i requires 0 <= i < |cells| => " " + cells[i] + " ")
  }

  /** One cell between its two spaces. */
  lemma ScanCell(cell: string, rest: string)
    ensures Scan(" " + Escape(cell) + " " + rest, "") == Scan(rest, " " + cell + " ")
  {
    var line, body := " " + Escape(cell) + " " + rest, Escape(cell) + (" " + rest);
    assert line[0] == ' ' && line[1..] == body && "" + [' '] == " ";
    ScanEscaped(cell, " " + rest, " ");
    assert (" " + rest)[1..] == rest && (" " + cell) + [' '] == " " + cell + " ";
  }

  lemma {:induction false} ScanJoined(cells: seq<string>)
    requires cells != []
    ensures Scan(" " + Join(EscapeAll(cells), " | ") + " ", "") == Padded(cells)
  {
    hide Scan, Escape;
    var parts := EscapeAll(cells);
    if |cells| == 1 {
      ScanCell(cells[0], "");
      assert " " + Escape(cells[0]) + " " + "" == " " + Join(parts, " | ") + " ";
      ScanLast(" " + cells[0] + " ");
      assert Padded(cells) == [" " + cells[0] + " "];
    } else {
      var rest := " " + Join(parts[1..], " | ") + " ";
      ScanCell(cells[0], "|" + rest);
      assert " " + Escape(cells[0]) + " " + ("|" + rest) == " " + Join(parts, " | ") + " ";
      ScanBar(" " + cells[0] + " ", rest);
      assert parts[1..] == EscapeAll(cells[1..]);
      ScanJoined(cells[1..]);
      assert Padded(cells) == [" " + cells[0] + " "] + Padded(cells[1..]);
    }
  }

  lemma ScanLast(cell: string)
    ensures Scan("", cell) == [cell]
  {
  }

  lemma ScanBar(cell: string, rest: string)
    ensures Scan("|" + rest, cell) == [cell] + Scan(rest, "")
  {
    assert ("|" + rest)[1..] == rest;
  }

  lemma RowInner(parts: seq<string>)
    ensures Trim(PrintRow(parts)) == PrintRow(parts) && '|' in PrintRow(parts)
    ensures Inner(PrintRow(parts)) == " " + Join(parts, " | ") + " "
  {
    hide Join, TrimStart, TrimEnd, Trim;
    var inner := " " + Join(parts, " | ") + " ";
    assert PrintRow(parts) == "|" + inner + "|";
    TrimNothing("|" + inner + "|");
    InnerOf(inner);
  }

  lemma InnerOf(inner: string)
    requires inner != "" && inner[|inner| - 1] == ' '
    ensures Inner("|" + inner + "|") == inner
  {
    assert ("|" + inner + "|")[1..] == inner + "|";
    assert (inner + "|")[..|inner|] == inner && TrailingBackslashes(inner) == 0;
  }

  /** Printing a row and parsing it gives back the cells. */
  lemma RowRoundTrip(cells: seq<string>)
    requires cells != [] && Printable(cells)
    ensures CellsOf(PrintRow(EscapeAll(cells))) == Some(cells)
  {
    hide Trim, Scan, Inner, PrintRow, Join;
    RowInner(EscapeAll(cells));
    ScanJoined(cells);
    forall i | 0 <= i < |cells| ensures Trim(Padded(cells)[i]) == cells[i] {
      TrimPadded(cells[i]);
    }
    assert TrimAll(Padded(cells)) == cells;
  }

  lemma MarkerReads(a: Alignment)
    ensures Trimmed(Marker(a)) && AlignmentOf(Marker(a)) == Some(a)
  {
    TrimNothing(Marker(a));
    assert ":---:"[1..] == "---:" && "---:"[..3] == "---";
    assert StripColons("---") == "---";
    assert StripColons("---:") == "---";
  }

  /** Markers hold nothing to escape. */
  lemma {:induction false} NothingToEscape(s: string)
    requires '|' !in s && '\\' !in s
    ensures Escape(s) == s
  {
    if s != "" {
      NothingToEscape(s[1..]);
      assert s == [s[0]] + s[1..];
    }
  }

  lemma {:induction false} MarkersRead(alignments: seq<Alignment>)
    ensures AlignmentsOf(Markers(alignments)) == Some(alignments)
  {
    hide AlignmentOf, Marker;
    if alignments != [] {
      MarkerReads(alignments[0]);
      MarkersRead(alignments[1..]);
      assert Markers(alignments)[1..] == Markers(alignments[1..]);
      assert alignments == [alignments[0]] + alignments[1..];
    }
  }

  lemma DelimiterReads(alignments: seq<Alignment>)
    requires alignments != []
    ensures DelimiterOf(PrintRow(Markers(alignments))) == Some(alignments)
  {
    hide CellsOf, AlignmentOf, Escape, PrintRow;
    var markers := Markers(alignments);
    forall i | 0 <= i < |markers| ensures Trimmed(markers[i]) && Escape(markers[i]) == markers[i] {
      MarkerReads(alignments[i]);
      NothingToEscape(markers[i]);
    }
    assert EscapeAll(markers) == markers;
    RowRoundTrip(markers);
    MarkersRead(alignments);
  }

  lemma {:induction false} RowsRoundTrip(rows: seq<seq<string>>, n: nat)
    requires n > 0 && forall i :: 0 <= i < |rows| ==> Printable(rows[i]) && |rows[i]| == n
    ensures RowsOf(PrintRows(rows), n) == rows
  {
    hide CellsOf, PrintRow, EscapeAll;
    if rows != [] {
      RowRoundTrip(rows[0]);
      RowsRoundTrip(rows[1..], n);
      assert PrintRows(rows)[1..] == PrintRows(rows[1..]);
      assert FitRow(rows[0], n) == rows[0];
      assert rows == [rows[0]] + rows[1..];
    }
  }

  lemma {:induction false} WidestCovers(rows: seq<seq<string>>, least: nat)
    ensures WidestRow(rows, least) >= least
    ensures forall i :: 0 <= i < |rows| ==> |rows[i]| <= WidestRow(rows, least)
  {
    if rows != [] {
      WidestCovers(rows[1..], if |rows[0]| > least then |rows[0]| else least);
      forall i | 0 <= i < |rows| ensures |rows[i]| <= WidestRow(rows, least) {
        assert i > 0 ==> rows[i] == rows[1..][i - 1];
      }
    }
  }

  lemma {:induction false} WidestAttained(rows: seq<seq<string>>, least: nat)
    requires forall i :: 0 <= i < |rows| ==> |rows[i]| <= least
    ensures WidestRow(rows, least) == least
  {
    if rows != [] {
      WidestAttained(rows[1..], least);
    }
  }

  /** Printing a table and parsing its lines gives back the same cells and alignments, squared up. */
  lemma TableRoundTrip(t: Table)
    requires WellFormed(t) && Width(t) > 0
    ensures TableOf(PrintTable(Squared(t))) == Some(Squared(t))
  {
    hide CellsOf, PrintRow, EscapeAll, DelimiterOf, RowsOf, Width, Markers, PrintRows;
    var square := Squared(t);
    RowRoundTrip(square.header);
    DelimiterReads(square.alignments);
    RowsRoundTrip(square.rows, Width(t));
    assert PrintTable(square)[2..] == PrintRows(square.rows);
  }

  /** Nothing is lost by squaring: every cell keeps its place, and a rectangular table is unchanged. */
  lemma SquaringLosesNothing(t: Table)
    ensures t.header <= Squared(t).header && t.alignments <= Squared(t).alignments
    ensures |Squared(t).rows| == |t.rows| && forall i :: 0 <= i < |t.rows| ==> t.rows[i] <= Squared(t).rows[i]
    ensures |t.header| == |t.alignments| && (forall i :: 0 <= i < |t.rows| ==> |t.rows[i]| == |t.header|) ==>
        Squared(t) == t
  {
    WidestCovers(t.rows, if |t.header| > |t.alignments| then |t.header| else |t.alignments|);
    if |t.header| == |t.alignments| && forall i :: 0 <= i < |t.rows| ==> |t.rows[i]| == |t.header| {
      WidestAttained(t.rows, |t.header|);
      assert Width(t) == |t.header|;
      forall i | 0 <= i < |t.rows| ensures FitRow(t.rows[i], |t.header|) == t.rows[i] {
      }
    }
  }
}

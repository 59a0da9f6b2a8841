/** Cutting a text into lines, keeping where each one lies (`source_lines`, src/doc/parser.rs). */
module SourceLines {
  import opened OpIds
  import opened TableText

  datatype Line = Line(text: string, start: nat, contentEnd: nat)

  /** The first newline at or after `from`, or the end of the text. */
  function NewlineFrom(text: string, from: nat): (at: nat)
    requires from <= |text|
    ensures from <= at <= |text| && '\n' !in text[from..at]
    ensures at < |text| ==> text[at] == '\n'
    decreases |text| - from
  {
    if from == |text| || text[from] == '\n' then from
    else
      var at := NewlineFrom(text, from + 1);
      assert text[from..at] == [text[from]] + text[from + 1..at];
      at
  }

  /** Where the content of a line ends: a carriage return before a newline is not content. */
  function ContentEnd(text: string, from: nat, newline: nat): (end: nat)
    requires from <= newline <= |text|
    ensures from <= end <= newline <= end + 1
  {
    if newline < |text| && newline > from && text[newline - 1] == '\r' then newline - 1 else newline
  }

  function Cut(text: string, from: nat): seq<Line>
    requires from <= |text|
    decreases |text| - from
  {
    if from == |text| then []
    else
      var newline := NewlineFrom(text, from);
      var end := ContentEnd(text, from, newline);
      var line := Line(text[from..end], from, end);
      if newline == |text| then [line] else [line] + Cut(text, newline + 1)
  }

  method FindNewline(text: string, start: nat) returns (at: nat)
    requires start <= |text|
    ensures at == NewlineFrom(text, start)
  {
    at := start;
    while at < |text| && text[at] != '\n'
      invariant start <= at <= |text| && NewlineFrom(text, at) == NewlineFrom(text, start)
    {
      at := at + 1;
    }
  }

  method CutLines(text: string) returns (lines: seq<Line>)
    ensures lines == Cut(text, 0)
  {
    hide NewlineFrom, ContentEnd;
    lines := [];
    var start: nat := 0;
    while start < |text|
      invariant start <= |text| && lines + Cut(text, start) == Cut(text, 0)
    {
      ghost var sofar := lines;
      var newline := FindNewline(text, start);
      var line := LineAt(text, start, newline);
      lines := lines + [line];
      var next := if newline < |text| then newline + 1 else newline;
      CutStep(text, start, next, line);
      assert sofar + ([line] + Cut(text, next)) == lines + Cut(text, next);
      start := next;
    }
  }

  method LineAt(text: string, start: nat, newline: nat) returns (line: Line)
    requires start <= newline <= |text|
    ensures line == Line(text[start..ContentEnd(text, start, newline)], start, ContentEnd(text, start, newline))
  {
    var end := newline;
    if newline < |text| && newline > start && text[newline - 1] == '\r' {
      end := newline - 1;
    }
    line := Line(text[start..end], start, end);
  }

  lemma CutStep(text: string, start: nat, next: nat, line: Line)
    requires start < |text|
    requires next == if NewlineFrom(text, start) < |text| then NewlineFrom(text, start) + 1 else |text|
    requires var end := ContentEnd(text, start, NewlineFrom(text, start)); line == Line(text[start..end], start, end)
    ensures Cut(text, start) == [line] + Cut(text, next)
  {
  }

  /** Where line `k` and its terminator end. */
  function NextStart(text: string, lines: seq<Line>, k: nat): nat
    requires k < |lines|
  {
    if k + 1 < |lines| then lines[k + 1].start else |text|
  }

  /** The lines lie end to end over the text, with nothing but line terminators between them. */
  ghost predicate LinesTile(text: string, from: nat, lines: seq<Line>) {
    && (lines == [] ==> from == |text|)
    && (lines != [] ==> lines[0].start == from)
    && forall k :: 0 <= k < |lines| ==> LineTiles(text, lines, k)
  }

  /** A newline ends the line, and a carriage return before it belongs to the terminator. */
  ghost predicate Terminated(line: string, terminator: string) {
    terminator == "\r\n" || (terminator == "\n" && (line == "" || line[|line| - 1] != '\r'))
  }

  ghost predicate LineTiles(text: string, lines: seq<Line>, k: nat)
    requires k < |lines|
  {
    var line, next := lines[k], NextStart(text, lines, k);
    && line.start <= line.contentEnd <= next <= |text| && line.start < next
    && line.text == text[line.start..line.contentEnd] && '\n' !in line.text
    && (Terminated(line.text, text[line.contentEnd..next]) || (k + 1 == |lines| && line.contentEnd == |text|))
  }

  lemma {:induction false} CutTiles(text: string, from: nat)
    requires from <= |text|
    ensures LinesTile(text, from, Cut(text, from))
    decreases |text| - from
  {
    hide LinesTile;
    NoTiles(text);
    if from < |text| {
      var newline := NewlineFrom(text, from);
      var end := ContentEnd(text, from, newline);
      CutPrefix(text, from, newline, end);
      var line := Line(text[from..end], from, end);
      if newline < |text| {
        CutTiles(text, newline + 1);
        Terminator(text, from, newline);
        TilePrepend(text, line, newline + 1, Cut(text, newline + 1));
      } else {
        LastTile(text, line);
      }
    }
  }

  lemma NoTiles(text: string)
    ensures LinesTile(text, |text|, [])
  {
  }

  lemma LastTile(text: string, line: Line)
    requires line.start < line.contentEnd == |text| && line.text == text[line.start..] && '\n' !in line.text
    ensures LinesTile(text, line.start, [line])
  {
  }

  /** A line and its terminator in front of lines that tile the rest. */
  lemma {:induction false} TilePrepend(text: string, line: Line, next: nat, rest: seq<Line>)
    requires line.start <= line.contentEnd < next <= |text| && LinesTile(text, next, rest)
    requires line.text == text[line.start..line.contentEnd] && '\n' !in line.text
    requires Terminated(line.text, text[line.contentEnd..next])
    ensures LinesTile(text, line.start, [line] + rest)
  {
    var lines := [line] + rest;
    assert NextStart(text, lines, 0) == next;
    forall k | 0 <= k < |lines| ensures LineTiles(text, lines, k) {
      if k > 0 {
        LaterTiles(text, line, rest, k);
      }
    }
  }

  lemma {:induction false} LaterTiles(text: string, line: Line, rest: seq<Line>, k: nat)
    requires 0 < k <= |rest| && LineTiles(text, rest, k - 1)
    ensures LineTiles(text, [line] + rest, k)
  {
    assert NextStart(text, [line] + rest, k) == NextStart(text, rest, k - 1);
  }

  lemma Terminator(text: string, from: nat, newline: nat)
    requires from <= newline < |text| && text[newline] == '\n'
    ensures var end := ContentEnd(text, from, newline); Terminated(text[from..end], text[end..newline + 1])
  {
    var end := ContentEnd(text, from, newline);
    assert text[end..newline + 1] == (if end == newline then "\n" else "\r\n");
  }

  lemma CutPrefix(text: string, from: nat, newline: nat, end: nat)
    requires from <= end <= newline <= |text| && '\n' !in text[from..newline]
    ensures '\n' !in text[from..end]
  {
    assert text[from..end] == text[from..newline][..end - from];
  }

  function Texts(lines: seq<Line>): (out: seq<string>)
    ensures |out| == |lines| && forall k :: 0 <= k < |lines| ==> out[k] == lines[k].text
  {
    seq(|lines|, k requires 0 <= k < |lines| => lines[k].text)
  }

  /** A line that joining with newlines cannot change. */
  predicate OneLine(s: string) {
    s != "" && '\n' !in s && s[|s| - 1] != '\r'
  }

  lemma {:induction false} NewlineAfter(text: string, from: nat, at: nat)
    requires from <= at <= |text| && '\n' !in text[from..at]
    requires at == |text| || text[at] == '\n'
    ensures NewlineFrom(text, from) == at
    decreases at - from
  {
    if from < at {
      assert text[from] == text[from..at][0];
      assert text[from + 1..at] == text[from..at][1..];
      NewlineAfter(text, from + 1, at);
    }
  }

  /** Lines joined with newlines are cut back into the same lines. */
  lemma {:induction false} CutJoined(before: string, lines: seq<string>)
    requires forall k :: 0 <= k < |lines| ==> OneLine(lines[k])
    ensures Texts(Cut(before + Join(lines, "\n"), |before|)) == lines
    decreases |lines|
  {
    hide Cut, OneLine;
    var text := before + Join(lines, "\n");
    if lines == [] {
      CutEnd(text);
    } else if |lines| == 1 {
      assert text[|before|..|text|] == lines[0];
      CutLine(text, |before|, |text|);
    } else {
      var rest := Join(lines[1..], "\n");
      var further := before + lines[0] + "\n";
      assert text == further + rest;
      assert text[|before|..|further| - 1] == lines[0] && text[|further| - 1] == '\n';
      CutLine(text, |before|, |further| - 1);
      CutJoined(further, lines[1..]);
      assert lines == [lines[0]] + lines[1..];
    }
  }

  lemma CutEnd(text: string)
    ensures Cut(text, |text|) == []
  {
  }

  /** The first line that is cut off. */
  lemma CutLine(text: string, from: nat, at: nat)
    requires from <= at <= |text| && OneLine(text[from..at]) && (at == |text| || text[at] == '\n')
    ensures Texts(Cut(text, from)) == [text[from..at]] + (if at == |text| then [] else Texts(Cut(text, at + 1)))
  {
    hide Cut, NewlineFrom;
    var line := Line(text[from..at], from, at);
    assert text[at - 1] == line.text[at - 1 - from];
    NewlineAfter(text, from, at);
    assert ContentEnd(text, from, at) == at;
    hide OneLine;
    var next := if at == |text| then |text| else at + 1;
    CutStep(text, from, next, line);
    CutEnd(text);
    assert Texts([line] + Cut(text, next)) == [line.text] + Texts(Cut(text, next));
  }

  predicate SingleLineCells(cells: seq<string>) {
    forall i :: 0 <= i < |cells| ==> '\n' !in cells[i]
  }

  lemma {:induction false} EscapedHolds(cell: string)
    requires '\n' !in cell
    ensures '\n' !in Escape(cell)
  {
    if cell != "" {
      EscapedHolds(cell[1..]);
    }
  }

  lemma {:induction false} JoinHolds(parts: seq<string>)
    requires forall i :: 0 <= i < |parts| ==> '\n' !in parts[i]
    ensures '\n' !in Join(parts, " | ")
  {
    if |parts| > 1 {
      JoinHolds(parts[1..]);
    }
  }

  lemma RowIsOneLine(parts: seq<string>)
    requires forall i :: 0 <= i < |parts| ==> '\n' !in parts[i]
    ensures OneLine(PrintRow(parts))
  {
    JoinHolds(parts);
  }

  predicate SingleLine(t: Table) {
    SingleLineCells(t.header) && forall i :: 0 <= i < |t.rows| ==> SingleLineCells(t.rows[i])
  }

  /** A printed table, cut into lines and parsed, is the table it came from. */
  method PrintAndReparse(t: Table) returns (text: string, back: Option<Table>)
    requires WellFormed(t) && SingleLine(t)
    ensures text == if Width(t) == 0 then "" else Join(PrintTable(Squared(t)), "\n")
    ensures back == TableOf(Texts(Cut(text, 0)))
    ensures Width(t) > 0 ==> back == Some(Squared(t))
    ensures Width(t) == 0 ==> text == "" && back == None
  {
    text := SerializeTable(t);
    var cut := CutLines(text);
    if Width(t) > 0 {
      PrintedIsOneLinePerRow(t);
      CutJoined("", PrintTable(Squared(t)));
      assert "" + text == text;
      TableRoundTrip(t);
    }
    back := ParseTable(Texts(cut));
  }

  lemma PrintedIsOneLinePerRow(t: Table)
    requires SingleLine(t)
    ensures forall k :: 0 <= k < |PrintTable(Squared(t))| ==> OneLine(PrintTable(Squared(t))[k])
  {
    hide OneLine, Width, PrintRow, Escape;
    var square := Squared(t);
    forall cells: seq<string> | SingleLineCells(cells) ensures OneLine(PrintRow(EscapeAll(cells))) {
      forall i | 0 <= i < |cells| ensures '\n' !in EscapeAll(cells)[i] {
        EscapedHolds(cells[i]);
      }
      RowIsOneLine(EscapeAll(cells));
    }
    RowIsOneLine(Markers(square.alignments));
    assert SingleLineCells(square.header);
    forall i | 0 <= i < |square.rows| ensures SingleLineCells(square.rows[i]) {
      assert SingleLineCells(t.rows[i]);
    }
  }
}

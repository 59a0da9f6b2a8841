/** The line classifiers of the block parser (src/doc/parser.rs); each looks at one trimmed line. */
module LineKinds {
  import opened OpIds
  import opened TableText

  datatype Fence = Fence(symbol: char, length: nat)

  datatype ListStyle = ListStyle(ordered: bool, symbol: char, first: nat, loose: bool)

  datatype Marked = Marked(symbol: char, number: nat, body: string)

  /** How many times `c` opens the string. */
  function Run(s: string, c: char): (n: nat)
    ensures n <= |s|
    ensures forall i :: 0 <= i < n ==> s[i] == c
    ensures n < |s| ==> s[n] != c
  {
    if s != "" && s[0] == c then 1 + Run(s[1..], c) else 0
  }

  predicate AllSpace(s: string) {
    forall i :: 0 <= i < |s| ==> IsSpace(s[i])
  }

  predicate AllAre(s: string, c: char) {
    forall i :: 0 <= i < |s| ==> s[i] == c
  }

  predicate Blank(line: string) {
    Trim(line) == ""
  }

  function FenceOpen(trimmed: string): Option<(Fence, string)> {
    if trimmed == "" || (trimmed[0] != '`' && trimmed[0] != '~') then None
    else
      var length := Run(trimmed, trimmed[0]);
      if length < 3 || length > 255 then None
      else if trimmed[0] == '`' && '`' in trimmed[length..] then None
      else Some((Fence(trimmed[0], length), trimmed[length..]))
  }

  predicate FenceCloses(trimmed: string, fence: Fence) {
    var length := Run(trimmed, fence.symbol);
    length >= fence.length && AllSpace(trimmed[length..])
  }

  predicate QuoteLine(trimmed: string) {
    trimmed != "" && trimmed[0] == '>'
  }

  predicate RawLine(trimmed: string) {
    ":::" <= trimmed
  }

  function TrimEndOf(s: string, c: char): (r: string)
    ensures r <= s
  {
    if s != "" && s[|s| - 1] == c then TrimEndOf(s[..|s| - 1], c) else s
  }

  function StripClosing(text: string): string {
    var trimmed := TrimEnd(text);
    var before := TrimEndOf(trimmed, '#');
    if |before| < |trimmed| && (before == "" || before[|before| - 1] in {' ', '\t'}) then TrimEnd(before) else trimmed
  }

  function AtxHeading(trimmed: string): Option<(nat, string)> {
    var level := Run(trimmed, '#');
    if level == 0 || level > 6 then None
    else
      var suffix := trimmed[level..];
      if suffix != "" && suffix[0] !in {' ', '\t'} then None
      else Some((level, StripClosing(TrimStart(suffix))))
  }

  function SetextUnderline(trimmed: string): Option<nat> {
    if trimmed == "" then None
    else if AllAre(trimmed, '=') then Some(1)
    else if AllAre(trimmed, '-') then Some(2)
    else None
  }

  /** What follows a marker: nothing, or a space or tab and the body. */
  function AfterMarker(rest: string): Option<string> {
    if rest == "" then Some("")
    else if rest[0] in {' ', '\t'} then Some(TrimStart(rest[1..]))
    else None
  }

  function UnorderedMarker(trimmed: string): Option<Marked> {
    if trimmed == "" || trimmed[0] !in {'-', '*', '+'} then None
    else
      var body := AfterMarker(trimmed[1..]);
      if body.None? then None else Some(Marked(trimmed[0], 0, body.value))
  }

  predicate IsDigit(c: char) {
    '0' <= c <= '9'
  }

  function Digits(s: string): (n: nat)
    ensures n <= |s| && forall i :: 0 <= i < n ==> IsDigit(s[i])
  {
    if s != "" && IsDigit(s[0]) then 1 + Digits(s[1..]) else 0
  }

  function Number(s: string): nat
    requires forall i :: 0 <= i < |s| ==> IsDigit(s[i])
  {
    if s == "" then 0 else assert IsDigit(s[|s| - 1]); 10 * Number(s[..|s| - 1]) + (s[|s| - 1] as int - '0' as int)
  }

  function OrderedMarker(trimmed: string): Option<Marked> {
    var n := Digits(trimmed);
    if n == 0 || n > 9 then None
    else
      var rest := trimmed[n..];
      if rest == "" || rest[0] !in {'.', ')'} then None
      else
        var body := AfterMarker(rest[1..]);
        if body.None? then None else Some(Marked(rest[0], Number(trimmed[..n]), body.value))
  }

  predicate ListStart(trimmed: string) {
    UnorderedMarker(trimmed).Some? || OrderedMarker(trimmed).Some?
  }

  /** The style of the list that `trimmed` opens. */
  function StyleOf(trimmed: string): ListStyle
    requires ListStart(trimmed)
  {
    var ordered, bullet := OrderedMarker(trimmed), UnorderedMarker(trimmed);
    if ordered.Some? then ListStyle(true, ordered.value.symbol, ordered.value.number, false)
    else ListStyle(false, bullet.value.symbol, 1, false)
  }

  /** The body of an item of a list of this style; None when the line opens no such item. */
  function ItemBody(trimmed: string, style: ListStyle): Option<string> {
    var marked := if style.ordered then OrderedMarker(trimmed) else UnorderedMarker(trimmed);
    if marked.Some? && marked.value.symbol == style.symbol then Some(marked.value.body) else None
  }

  lemma FirstItemFits(trimmed: string)
    requires ListStart(trimmed)
    ensures trimmed != "" && ItemBody(trimmed, StyleOf(trimmed)).Some? && !StyleOf(trimmed).loose
  {
  }

  function TaskMarker(body: string): (Option<bool>, string) {
    if |body| < 3 || body[..3] !in {"[ ]", "[x]", "[X]"} || (|body| > 3 && body[3] !in {' ', '\t'}) then (None, body)
    else (Some(body[..3] != "[ ]"), TrimStart(body[3..]))
  }

  /** The column of the first character that is neither space nor tab; a tab goes to the next multiple of four. */
  function IndentFrom(line: string, column: nat): nat {
    if line == "" || line[0] !in {' ', '\t'} then column
    else IndentFrom(line[1..], if line[0] == '\t' then column + (4 - column % 4) else column + 1)
  }

  function Indent(line: string): nat {
    IndentFrom(line, 0)
  }

  /** Lines that end a paragraph; each opens a block of its own, or is blank. */
  predicate Breaks(trimmed: string) {
    || trimmed == "" || FenceOpen(trimmed).Some? || QuoteLine(trimmed) || RawLine(trimmed)
    || AtxHeading(trimmed).Some? || ListStart(trimmed)
  }

  lemma {:induction false} TrimStartShortens(s: string)
    ensures |TrimStart(s)| <= |s|
  {
    if s != "" && IsSpace(s[0]) {
      TrimStartShortens(s[1..]);
    }
  }

  lemma {:induction false} TrimEndShortens(s: string)
    ensures |TrimEnd(s)| <= |s|
  {
    if s != "" && IsSpace(s[|s| - 1]) {
      TrimEndShortens(s[..|s| - 1]);
    }
  }

  /** A quoted line without its quote markers and the space after them. */
  function Unquoted(line: string): (r: string)
    requires QuoteLine(Trim(line))
    ensures |r| < |line|
  {
    var trimmed := Trim(line);
    var inner := trimmed[Run(trimmed, '>')..];
    TrimStartShortens(line);
    TrimEndShortens(TrimStart(line));
    TrimStartShortens(inner);
    TrimStart(inner)
  }

  lemma {:induction false} StartsWithText(s: string)
    ensures TrimStart(s) != "" ==> !IsSpace(TrimStart(s)[0])
  {
    if s != "" && IsSpace(s[0]) {
      StartsWithText(s[1..]);
    }
  }

  lemma {:induction false} EndKept(s: string)
    requires s != "" && !IsSpace(s[0])
    ensures TrimEnd(s) != ""
  {
    if IsSpace(s[|s| - 1]) {
      EndKept(s[..|s| - 1]);
    }
  }

  lemma TrimmedTextIsNotBlank(s: string)
    ensures TrimStart(s) != "" ==> !Blank(TrimStart(s))
  {
    StartsWithText(s);
    if TrimStart(s) != "" {
      EndKept(TrimStart(s));
    }
  }

  /** The text after an item's marker is empty or not blank. */
  lemma TextIsNotBlank(trimmed: string, style: ListStyle)
    requires ItemBody(trimmed, style).Some?
    ensures var (_, text) := TaskMarker(ItemBody(trimmed, style).value); text != "" ==> !Blank(text)
  {
    var body := ItemBody(trimmed, style).value;
    if |body| >= 3 {
      TrimmedTextIsNotBlank(body[3..]);
    }
    BodyIsNotBlank(trimmed, style);
  }

  lemma BodyIsNotBlank(trimmed: string, style: ListStyle)
    requires ItemBody(trimmed, style).Some?
    ensures ItemBody(trimmed, style).value != "" ==> !Blank(ItemBody(trimmed, style).value)
  {
    forall rest: string ensures AfterMarker(rest).Some? && AfterMarker(rest).value != "" ==>
        !Blank(AfterMarker(rest).value) {
      if rest != "" {
        TrimmedTextIsNotBlank(rest[1..]);
      }
    }
    hide AfterMarker, Blank;
  }
}

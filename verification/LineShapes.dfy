/** What the line classifiers accept, and what they read, written out as the shapes of lines (src/doc/parser.rs). */
module LineShapes {
  import opened OpIds
  import opened TableText
  import opened LineKinds

  ghost function Times(c: char, n: nat): (s: string)
    ensures |s| == n && forall i :: 0 <= i < n ==> s[i] == c
  {
    seq(n, i => c)
  }

  /** Starts with a space or a tab. */
  ghost predicate Spaced(s: string) {
    s != "" && (s[0] == ' ' || s[0] == '\t')
  }

  ghost predicate StartsInk(s: string) {
    s != "" ==> !IsSpace(s[0])
  }

  ghost predicate EndsInk(s: string) {
    s != "" ==> !IsSpace(s[|s| - 1])
  }

  // ----- trimming

  lemma {:induction false} TrimStartIs(pad: string, s: string)
    requires AllSpace(pad) && StartsInk(s)
    ensures TrimStart(pad + s) == s
  {
    if pad == "" {
      assert pad + s == s;
    } else {
      assert (pad + s)[1..] == pad[1..] + s;
      TrimStartIs(pad[1..], s);
    }
  }

  lemma {:induction false} TrimEndIs(s: string, pad: string)
    requires AllSpace(pad) && EndsInk(s)
    ensures TrimEnd(s + pad) == s
    decreases |pad|
  {
    if pad == "" {
      assert s + pad == s;
    } else {
      assert (s + pad)[..|s + pad| - 1] == s + pad[..|pad| - 1];
      TrimEndIs(s, pad[..|pad| - 1]);
    }
  }

  /** Trimming takes off the white space around a text and nothing else. */
  lemma TrimIs(before: string, text: string, after: string)
    requires AllSpace(before) && AllSpace(after) && Trimmed(text)
    ensures Trim(before + text + after) == text
  {
    if text == "" {
      assert before + text + after == (before + after) + "";
      TrimStartIs(before + after, "");
    } else {
      assert before + text + after == before + (text + after);
      TrimStartIs(before, text + after);
      TrimEndIs(text, after);
    }
  }

  // ----- runs of one character

  lemma {:induction false} RunIs(c: char, n: nat, rest: string)
    requires rest != "" ==> rest[0] != c
    ensures Run(Times(c, n) + rest, c) == n
  {
    if n == 0 {
      assert Times(c, n) + rest == rest;
    } else {
      assert (Times(c, n) + rest)[1..] == Times(c, n - 1) + rest;
      RunIs(c, n - 1, rest);
    }
  }

  lemma RunSplits(s: string, c: char)
    ensures s == Times(c, Run(s, c)) + s[Run(s, c)..]
  {
  }

  // ----- headings

  /** A heading is one to six hash signs, then nothing or a space or tab; its level is their number. */
  lemma HeadingLevel(s: string, k: nat)
    ensures (AtxHeading(s).Some? && AtxHeading(s).value.0 == k)
       <==> 1 <= k <= 6 && exists rest :: s == Times('#', k) + rest && (rest == "" || Spaced(rest))
  {
    if AtxHeading(s).Some? && AtxHeading(s).value.0 == k {
      RunSplits(s, '#');
      assert s == Times('#', k) + s[k..] && (s[k..] == "" || Spaced(s[k..]));
    }
    if rest :| 1 <= k <= 6 && s == Times('#', k) + rest && (rest == "" || Spaced(rest)) {
      RunIs('#', k, rest);
      assert s[k..] == rest;
    }
  }

  /** Its text stands between white space; a run of hash signs set off by a space is not part of it. */
  lemma HeadingText(k: nat, pad: string, text: string, gap: string, closing: nat, after: string)
    requires 1 <= k <= 6 && AllSpace(pad) && Spaced(pad) && AllSpace(after)
    requires Trimmed(text) && text != "" && text[|text| - 1] != '#'
    requires AllSpace(gap) && if closing > 0 then gap != "" && gap[|gap| - 1] in {' ', '\t'} else gap == ""
    ensures AtxHeading(Times('#', k) + pad + text + gap + Times('#', closing) + after) == Some((k, text))
  {
    var inner := text + gap + Times('#', closing) + after;
    var s := Times('#', k) + pad + text + gap + Times('#', closing) + after;
    assert s == Times('#', k) + (pad + inner);
    RunIs('#', k, pad + inner);
    assert s[k..] == pad + inner;
    TrimStartIs(pad, inner);
    ClosingStripped(text, gap, closing, after);
  }

  lemma ClosingStripped(text: string, gap: string, closing: nat, after: string)
    requires AllSpace(after) && Trimmed(text) && text != "" && text[|text| - 1] != '#'
    requires AllSpace(gap) && if closing > 0 then gap != "" && gap[|gap| - 1] in {' ', '\t'} else gap == ""
    ensures StripClosing(text + gap + Times('#', closing) + after) == text
  {
    var kept := text + gap + Times('#', closing);
    TrimEndIs(kept, after);
    TrimHashes(text + gap, closing);
    if closing > 0 {
      TrimEndIs(text, gap);
    } else {
      assert kept == text;
    }
  }

  lemma {:induction false} TrimHashes(s: string, n: nat)
    requires s != "" && s[|s| - 1] != '#'
    ensures TrimEndOf(s + Times('#', n), '#') == s
  {
    if n == 0 {
      assert s + Times('#', n) == s;
    } else {
      assert (s + Times('#', n))[..|s| + n - 1] == s + Times('#', n - 1);
      TrimHashes(s, n - 1);
    }
  }

  /** Hash signs that touch the text belong to it. */
  lemma HashesKept(k: nat, pad: string, text: string, hashes: nat)
    requires 1 <= k <= 6 && AllSpace(pad) && Spaced(pad)
    requires Trimmed(text) && text != "" && text[|text| - 1] != '#'
    ensures AtxHeading(Times('#', k) + pad + (text + Times('#', hashes))) == Some((k, text + Times('#', hashes)))
  {
    var inner := text + Times('#', hashes);
    var s := Times('#', k) + pad + inner;
    assert s == Times('#', k) + (pad + inner);
    RunIs('#', k, pad + inner);
    assert s[k..] == pad + inner;
    TrimStartIs(pad, inner);
    TrimEndIs(inner, "");
    assert inner + "" == inner;
    TrimHashes(text, hashes);
  }

  /** An underline of equals signs makes a heading of level 1, one of dashes a heading of level 2; nothing else does. */
  lemma UnderlineLevel(s: string, level: nat)
    ensures SetextUnderline(s) == Some(level)
       <==> s != "" && ((level == 1 && s == Times('=', |s|)) || (level == 2 && s == Times('-', |s|)))
  {
    if s != "" && s == Times('-', |s|) {
      assert s[0] == '-';
    }
  }

  // ----- fences, quotes and raw blocks

  /** A fence is 3 to 255 backquotes or tildes; no backquote may follow backquotes. */
  lemma FenceShape(s: string, c: char, n: nat, info: string)
    ensures FenceOpen(s) == Some((Fence(c, n), info))
       <==> && (c == '`' || c == '~') && 3 <= n <= 255 && s == Times(c, n) + info && !([c] <= info)
            && (c == '`' ==> '`' !in info)
  {
    if FenceOpen(s) == Some((Fence(c, n), info)) {
      RunSplits(s, c);
    }
    if 3 <= n && s == Times(c, n) + info && !([c] <= info) {
      RunIs(c, n, info);
      assert s[n..] == info && s[0] == c;
    }
  }

  /** A fence is closed by at least as many of its characters, and white space. */
  lemma FenceEnd(s: string, fence: Fence)
    requires !IsSpace(fence.symbol)
    ensures FenceCloses(s, fence)
       <==> exists n, pad :: n >= fence.length && AllSpace(pad) && s == Times(fence.symbol, n) + pad
  {
    var c := fence.symbol;
    if FenceCloses(s, fence) {
      RunSplits(s, c);
      var n := Run(s, c);
      assert n >= fence.length && AllSpace(s[n..]) && s == Times(c, n) + s[n..];
    }
    if n: nat, pad :| n >= fence.length && AllSpace(pad) && s == Times(c, n) + pad {
      RunIs(c, n, pad);
      assert s[n..] == pad;
    }
  }

  /** A quoted line opens with an angle bracket, a raw block with three colons. */
  lemma QuoteAndRaw(s: string)
    ensures QuoteLine(s) <==> exists rest :: s == ">" + rest
    ensures RawLine(s) <==> exists rest :: s == ":::" + rest
  {
    if QuoteLine(s) {
      assert s == ">" + s[1..];
    }
    if RawLine(s) {
      assert s == ":::" + s[3..];
    }
  }

  /** Quote markers, however many, come off together with the white space around them. */
  lemma UnquotedShape(before: string, k: nat, pad: string, text: string, after: string)
    requires k >= 1 && AllSpace(before) && AllSpace(pad) && AllSpace(after) && Trimmed(text)
    requires pad == "" && text != "" ==> text[0] != '>'
    ensures var line := before + (Times('>', k) + pad + text) + after; QuoteLine(Trim(line)) && Unquoted(line) == text
  {
    if text == "" {
      assert before + (Times('>', k) + pad + text) + after == before + Times('>', k) + (pad + after);
      TrimIs(before, Times('>', k), pad + after);
      assert Times('>', k) == Times('>', k) + "";
      RunIs('>', k, "");
    } else {
      var quoted := Times('>', k) + pad + text;
      TrimIs(before, quoted, after);
      assert quoted == Times('>', k) + (pad + text);
      RunIs('>', k, pad + text);
      assert quoted[k..] == pad + text;
      TrimStartIs(pad, text);
    }
  }

  // ----- lists

  /** A bullet is a dash, a star or a plus, alone or followed by white space and the item. */
  lemma BulletShape(c: char, pad: string, body: string)
    requires c in {'-', '*', '+'} && StartsInk(body) && AllSpace(pad) && (if pad == "" then body == "" else Spaced(pad))
    ensures UnorderedMarker([c] + pad + body) == Some(Marked(c, 0, body))
  {
    var s := [c] + pad + body;
    assert s[1..] == pad + body;
    if pad != "" {
      assert (pad + body)[1..] == pad[1..] + body;
      TrimStartIs(pad[1..], body);
    }
  }

  lemma BulletOnly(s: string)
    ensures UnorderedMarker(s).Some? <==> s != "" && s[0] in {'-', '*', '+'} && (|s| == 1 || Spaced(s[1..]))
  {
  }

  ghost predicate AllDigits(s: string) {
    forall i :: 0 <= i < |s| ==> IsDigit(s[i])
  }

  lemma {:induction false} DigitsAre(s: string, rest: string)
    requires AllDigits(s) && (rest != "" ==> !IsDigit(rest[0]))
    ensures Digits(s + rest) == |s|
  {
    if s == "" {
      assert s + rest == rest;
    } else {
      assert (s + rest)[1..] == s[1..] + rest;
      DigitsAre(s[1..], rest);
    }
  }

  ghost function Decimal(n: nat): (s: string)
    ensures |s| > 0 && AllDigits(s)
  {
    var last := [('0' as int + n % 10) as char];
    if n < 10 then last else Decimal(n / 10) + last
  }

  /** Reading a number undoes writing it. */
  lemma {:induction false} NumberOfDecimal(n: nat)
    ensures Number(Decimal(n)) == n
  {
    var s := Decimal(n);
    var digit := s[|s| - 1] as int - '0' as int;
    if n < 10 {
      assert Number(s[..0]) == 0;
    } else {
      assert s[..|s| - 1] == Decimal(n / 10);
      NumberOfDecimal(n / 10);
    }
    assert digit == n % 10;
  }

  /** After a marker: nothing, or white space and the item. */
  lemma AfterShape(pad: string, body: string)
    requires StartsInk(body) && AllSpace(pad) && (if pad == "" then body == "" else Spaced(pad))
    ensures AfterMarker(pad + body) == Some(body)
  {
    if pad != "" {
      assert (pad + body)[1..] == pad[1..] + body;
      TrimStartIs(pad[1..], body);
    }
  }

  /** A numbered item: at most nine digits, a dot or a parenthesis, and white space before the item. */
  lemma NumberedShape(n: nat, c: char, pad: string, body: string)
    requires |Decimal(n)| <= 9 && c in {'.', ')'} && StartsInk(body) && AllSpace(pad)
    requires if pad == "" then body == "" else Spaced(pad)
    ensures OrderedMarker(Decimal(n) + [c] + pad + body) == Some(Marked(c, n, body))
  {
    var digits, rest := Decimal(n), [c] + (pad + body);
    var s, k := Decimal(n) + [c] + pad + body, |Decimal(n)|;
    assert s == digits + rest && rest[0] == c;
    DigitsAre(digits, rest);
    NumberOfDecimal(n);
    AfterShape(pad, body);
    hide Digits, Number, Decimal, AfterMarker, IsDigit;
    assert s[..k] == digits && s[k..] == rest && rest[1..] == pad + body;
  }

  /** A numbered list starts with the number of its first item. */
  lemma StyleShape(n: nat, c: char, pad: string, body: string)
    requires |Decimal(n)| <= 9 && c in {'.', ')'} && StartsInk(body) && AllSpace(pad)
    requires if pad == "" then body == "" else Spaced(pad)
    ensures ListStart(Decimal(n) + [c] + pad + body)
    ensures StyleOf(Decimal(n) + [c] + pad + body) == ListStyle(true, c, n, false)
  {
    NumberedShape(n, c, pad, body);
    hide OrderedMarker, UnorderedMarker, Decimal;
  }

  lemma NumberedOnly(s: string)
    requires OrderedMarker(s).Some?
    ensures exists k: nat ::
      && 1 <= k <= 9 && k < |s| && AllDigits(s[..k]) && s[k] in {'.', ')'}
      && (|s| == k + 1 || Spaced(s[k + 1..]))
  {
    var k := Digits(s);
    assert s[k..][0] == s[k] && s[k..][1..] == s[k + 1..];
    assert 1 <= k <= 9 && k < |s| && AllDigits(s[..k]) && s[k] in {'.', ')'};
  }

  /** A list of bullets takes items with the same bullet, a numbered one items with the same mark, whatever number. */
  lemma ItemShape(pad: string, body: string, c: char, first: nat, n: nat, loose: bool)
    requires StartsInk(body) && AllSpace(pad) && (if pad == "" then body == "" else Spaced(pad))
    ensures c in {'-', '*', '+'} ==> ItemBody([c] + pad + body, ListStyle(false, c, first, loose)) == Some(body)
    ensures c in {'.', ')'} && |Decimal(n)| <= 9 ==>
      ItemBody(Decimal(n) + [c] + pad + body, ListStyle(true, c, first, loose)) == Some(body)
  {
    if c in {'-', '*', '+'} {
      BulletShape(c, pad, body);
    }
    if c in {'.', ')'} && |Decimal(n)| <= 9 {
      NumberedShape(n, c, pad, body);
    }
  }

  /** An item of another mark is no item of the list. */
  lemma OtherMark(s: string, style: ListStyle)
    requires ItemBody(s, style).Some?
    ensures if style.ordered
            then exists k: nat ::
              1 <= k < |s| && AllDigits(s[..k]) && s[k] == style.symbol && style.symbol in {'.', ')'}
            else s != "" && s[0] == style.symbol && style.symbol in {'-', '*', '+'}
  {
    if style.ordered {
      var k := Digits(s);
      assert s[k..][0] == s[k];
      assert 1 <= k < |s| && AllDigits(s[..k]) && s[k] == style.symbol && style.symbol in {'.', ')'};
    }
  }

  /** A checkbox: empty, or crossed with a small or a capital x. */
  lemma TaskShape(pad: string, text: string)
    requires AllSpace(pad) && StartsInk(text) && (if pad == "" then text == "" else Spaced(pad))
    ensures TaskMarker("[ ]" + pad + text) == (Some(false), text)
    ensures TaskMarker("[x]" + pad + text) == TaskMarker("[X]" + pad + text) == (Some(true), text)
  {
    forall box: string | box == "[ ]" || box == "[x]" || box == "[X]"
      ensures TaskMarker(box + pad + text) == (Some(box != "[ ]"), text)
    {
      var s := box + pad + text;
      assert s[..3] == box && s[3..] == pad + text;
      TrimStartIs(pad, text);
    }
  }

  lemma NoTask(body: string)
    requires !("[ ]" <= body) && !("[x]" <= body) && !("[X]" <= body)
    ensures TaskMarker(body) == (None, body)
  {
    if |body| >= 3 {
      assert body[..3] <= body;
    }
  }

  // ----- indentation

  lemma {:induction false} SpacesIndent(k: nat, rest: string, column: nat)
    ensures IndentFrom(Times(' ', k) + rest, column) == IndentFrom(rest, column + k)
    decreases k
  {
    if k == 0 {
      assert Times(' ', k) + rest == rest;
    } else {
      assert (Times(' ', k) + rest)[1..] == Times(' ', k - 1) + rest;
      SpacesIndent(k - 1, rest, column + 1);
    }
  }

  /** Spaces count one each, and a tab goes to the next column that is a multiple of four. */
  lemma IndentShape(k: nat, tabs: nat, text: string)
    requires text != "" ==> text[0] !in {' ', '\t'}
    ensures Indent(Times(' ', k) + text) == k
    ensures Indent(Times(' ', k) + Times('\t', tabs) + text) == if tabs == 0 then k else 4 * (k / 4 + tabs)
  {
    SpacesIndent(k, text, 0);
    assert Times(' ', k) + Times('\t', tabs) + text == Times(' ', k) + (Times('\t', tabs) + text);
    SpacesIndent(k, Times('\t', tabs) + text, 0);
    TabsIndent(tabs, text, k);
  }

  lemma {:induction false} TabsIndent(tabs: nat, text: string, column: nat)
    requires text != "" ==> text[0] !in {' ', '\t'}
    ensures IndentFrom(Times('\t', tabs) + text, column) == if tabs == 0 then column else 4 * (column / 4 + tabs)
    decreases tabs
  {
    if tabs == 0 {
      assert Times('\t', tabs) + text == text;
    } else {
      assert (Times('\t', tabs) + text)[1..] == Times('\t', tabs - 1) + text;
      TabsIndent(tabs - 1, text, column + (4 - column % 4));
    }
  }

  // ----- the cells and rows of a table

  lemma {:induction false} EscapeJoined(a: string, b: string)
    ensures Escape(a + b) == Escape(a) + Escape(b)
  {
    if a == "" {
      assert a + b == b;
    } else {
      assert (a + b)[1..] == a[1..] + b;
      EscapeJoined(a[1..], b);
    }
  }

  /** A backslash goes before each pipe and each backslash, and nothing else changes. */
  lemma EscapeShape(before: string, c: char, after: string)
    ensures Escape("") == ""
    ensures Escape(before + [c] + after)
         == Escape(before) + (if c == '|' || c == '\\' then "\\" + [c] else [c]) + Escape(after)
  {
    assert [c][1..] == "" && Escape([c]) == (if c == '|' || c == '\\' then "\\" + [c] else [c]);
    hide Escape;
    EscapeJoined(before + [c], after);
    EscapeJoined(before, [c]);
  }

  /** A row is written between pipes, with a space on either side of each cell. */
  lemma RowShape(parts: seq<string>, last: string)
    ensures PrintRow([last]) == "| " + last + " |"
    ensures parts != [] ==> PrintRow(parts + [last]) == PrintRow(parts) + " " + last + " |"
  {
    if parts != [] {
      JoinSnoc(parts, last, " | ");
    }
  }

  lemma {:induction false} BackslashesCounted(s: string, k: nat)
    requires s == "" || s[|s| - 1] != '\\'
    ensures TrailingBackslashes(s + Times('\\', k)) == k
  {
    if k == 0 {
      assert s + Times('\\', k) == s;
    } else {
      assert (s + Times('\\', k))[..|s| + k - 1] == s + Times('\\', k - 1);
      BackslashesCounted(s, k - 1);
    }
  }

  /** The outer pipes come off; one after an odd number of backslashes is escaped and belongs to the last cell. */
  lemma OuterPipes(s: string, k: nat)
    requires s == "" || s[|s| - 1] != '\\'
    ensures Inner("|" + s + Times('\\', k) + "|") == s + Times('\\', k) + if k % 2 == 0 then "" else "|"
  {
    var line, inner := "|" + s + Times('\\', k) + "|", s + Times('\\', k) + "|";
    assert line[1..] == inner && inner[..|inner| - 1] == s + Times('\\', k);
    BackslashesCounted(s, k);
  }

  // ----- the delimiter line of a table

  lemma {:induction false} StripsFront(l: nat, rest: string)
    requires rest != "" ==> rest[0] != ':'
    ensures StripColons(Times(':', l) + rest) == StripColons(rest)
  {
    if l == 0 {
      assert Times(':', l) + rest == rest;
    } else {
      assert (Times(':', l) + rest)[1..] == Times(':', l - 1) + rest;
      StripsFront(l - 1, rest);
    }
  }

  lemma {:induction false} StripsBack(dashes: string, r: nat)
    requires dashes != "" && dashes[0] != ':' && dashes[|dashes| - 1] != ':'
    ensures StripColons(dashes + Times(':', r)) == dashes
  {
    if r == 0 {
      assert dashes + Times(':', r) == dashes;
    } else {
      assert (dashes + Times(':', r))[..|dashes| + r - 1] == dashes + Times(':', r - 1);
      StripsBack(dashes, r - 1);
    }
  }

  lemma {:induction false} StripsColons(s: string) returns (l: nat, r: nat)
    ensures s == Times(':', l) + StripColons(s) + Times(':', r)
  {
    if s != "" && s[0] == ':' {
      l, r := StripsColons(s[1..]);
      assert s == [':'] + s[1..] && Times(':', l + 1) == [':'] + Times(':', l);
      l := l + 1;
    } else if s != "" && s[|s| - 1] == ':' {
      l, r := StripsColons(s[..|s| - 1]);
      assert s == s[..|s| - 1] + [':'] && Times(':', r + 1) == Times(':', r) + [':'];
      r := r + 1;
    } else {
      l, r := 0, 0;
    }
  }

  /** `l` colons, `n` dashes, `r` colons. */
  ghost function Ruled(l: nat, n: nat, r: nat): string {
    Times(':', l) + Times('-', n) + Times(':', r)
  }

  /** Three dashes or more make a column; a colon on the right alone aligns it right, colons on both sides centre it,
      and otherwise it is aligned left. */
  lemma AlignmentShape(cell: string, l: nat, n: nat, r: nat)
    requires n >= 3 && Trim(cell) == Ruled(l, n, r)
    ensures AlignmentOf(cell) == Some(if r == 0 then Left else if l == 0 then Right else Center)
  {
    var s, dashes := Ruled(l, n, r), Times('-', n);
    assert s == Times(':', l) + (dashes + Times(':', r));
    StripsFront(l, dashes + Times(':', r));
    StripsBack(dashes, r);
    assert s[0] == ':' <==> l > 0;
    assert s[|s| - 1] == ':' <==> r > 0;
  }

  lemma AlignmentOnly(cell: string)
    ensures AlignmentOf(cell).Some? <==> exists l, n, r :: n >= 3 && Trim(cell) == Ruled(l, n, r)
  {
    var s := Trim(cell);
    if AlignmentOf(cell).Some? {
      var l, r := StripsColons(s);
      var dashes := StripColons(s);
      assert dashes == Times('-', |dashes|);
      assert |dashes| >= 3 && Trim(cell) == Ruled(l, |dashes|, r);
    }
    if l: nat, n: nat, r: nat :| n >= 3 && s == Ruled(l, n, r) {
      AlignmentShape(cell, l, n, r);
    }
  }

  /** The marker that is printed for each alignment. */
  lemma MarkerShape()
    ensures Marker(Left) == Ruled(0, 3, 0) && Marker(Right) == Ruled(0, 3, 1) && Marker(Center) == Ruled(1, 3, 1)
  {
  }
}

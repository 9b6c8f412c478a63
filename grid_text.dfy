/** The text form of a grid (`Grid.from_string`, `Grid.to_string`): one line
    per row, cells as bracketed tokens separated by blanks. */
module GridText {
  import opened Wrappers
  import opened Cells
  import opened Grids

  /** The characters at which Python's `str.splitlines` ends a line. */
  predicate IsLineBreak(c: char) {
    var n := c as int;
    (10 <= n <= 13) || (0x1C <= n <= 0x1E) || n == 0x85 || n == 0x2028 || n == 0x2029
  }

  predicate NoLineBreak(s: string) {
    forall k :: 0 <= k < |s| ==> !IsLineBreak(s[k])
  }

  /** The line-break characters of s, in order. */
  function Breaks(s: string): (bs: string)
    ensures forall k :: 0 <= k < |bs| ==> IsLineBreak(bs[k])
  {
    if s == [] then []
    else if IsLineBreak(s[0]) then [s[0]] + Breaks(s[1..])
    else Breaks(s[1..])
  }

  /** The pieces with the break bs[k] put back between piece k and piece k + 1. */
  function Rejoined(pieces: seq<string>, bs: string): string
    requires |pieces| == |bs| + 1
  {
    if bs == [] then pieces[0]
    else pieces[0] + [bs[0]] + Rejoined(pieces[1..], bs[1..])
  }

  /** The pieces of text between line-break characters. Unlike `splitlines`,
      a `\r\n` pair, a final break and the empty text yield an extra empty
      piece; the parser drops blank pieces, so it sees the same lines. */
  function SplitLines(text: string): (lines: seq<string>)
    ensures |lines| == |Breaks(text)| + 1
    ensures forall k :: 0 <= k < |lines| ==> NoLineBreak(lines[k])
    ensures Rejoined(lines, Breaks(text)) == text
  {
    if text == [] then [[]]
    else
      var rest := SplitLines(text[1..]);
      if IsLineBreak(text[0]) then [[]] + rest
      else [[text[0]] + rest[0]] + rest[1..]
  }

  /** `len(row.strip()) == 0`. */
  predicate IsBlank(line: string) {
    forall k :: 0 <= k < |line| ==> IsSpace(line[k])
  }

  function NonBlank(lines: seq<string>): (r: seq<string>)
    ensures |r| <= |lines|
    ensures forall k :: 0 <= k < |r| ==> !IsBlank(r[k]) && r[k] in lines
    ensures forall l :: l in r <==> l in lines && !IsBlank(l)
  {
    if lines == [] then []
    else if IsBlank(lines[0]) then NonBlank(lines[1..])
    else [lines[0]] + NonBlank(lines[1..])
  }

  /** Offset of the first `]` of s, unless a newline or the end of s comes
      first: how far the lazy `.*?` of the token pattern reaches. */
  function CloseBracket(s: string): (r: Option<nat>)
    ensures r.Some? ==> r.value < |s| && s[r.value] == ']'
    ensures r.Some? ==> forall k :: 0 <= k < r.value ==> s[k] != ']' && s[k] != '\n'
    ensures r.None? ==> forall k :: 0 <= k < |s| && s[k] == ']' ==> '\n' in s[..k]
  {
    if s == [] then None
    else if s[0] == ']' then Some(0)
    else if s[0] == '\n' then None
    else
      match CloseBracket(s[1..])
      case Some(m) => Some(m + 1)
      case None => None
  }

  /** `re.findall("\[.*?\]", line)`: the bracketed tokens of a line, left to
      right, each from a `[` to the first `]` after it. */
  function FindTokens(line: string): (ts: seq<string>)
    decreases |line|
    ensures forall k :: 0 <= k < |ts| ==> |ts[k]| >= 2 && ts[k][0] == '[' && ts[k][|ts[k]| - 1] == ']'
    ensures forall k, m :: 0 <= k < |ts| && 0 < m < |ts[k]| - 1 ==> ts[k][m] != ']' && ts[k][m] != '\n'
  {
    if line == [] then []
    else if line[0] == '[' then
      match CloseBracket(line[1..])
      case Some(m) => [line[..m + 2]] + FindTokens(line[m + 2..])
      case None => FindTokens(line[1..])
    else FindTokens(line[1..])
  }

  /** The cells of one row, or the error of its first bad token. */
  function ParseRow(tokens: seq<string>): (r: Result<seq<Status>, ParseError>)
    ensures r.Ok? ==> (|r.value| == |tokens|
      && forall k :: 0 <= k < |tokens| ==> ParseCell(tokens[k]) == Ok(r.value[k]))
    ensures r.Err? ==>
      exists k :: (0 <= k < |tokens| && ParseCell(tokens[k]) == Err(r.error)
        && forall k' :: 0 <= k' < k ==> ParseCell(tokens[k']).Ok?)
    ensures r.Ok? <==> forall k :: 0 <= k < |tokens| ==> ParseCell(tokens[k]).Ok?
  {
    if tokens == [] then Ok([])
    else
      match ParseCell(tokens[0])
      case Err(e) => Err(e)
      case Ok(c) =>
        match ParseRow(tokens[1..])
        case Err(e) =>
          var k :| 0 <= k < |tokens[1..]| && ParseCell(tokens[1..][k]) == Err(e)
            && forall k' :: 0 <= k' < k ==> ParseCell(tokens[1..][k']).Ok?;
          assert ParseCell(tokens[k + 1]) == Err(e);
          assert forall k' :: 1 <= k' < k + 1 ==> tokens[k'] == tokens[1..][k' - 1];
          Err(e)
        case Ok(cs) =>
          assert forall k :: 1 <= k < |tokens| ==> tokens[k] == tokens[1..][k - 1];
          Ok([c] + cs)
  }

  /** Line k is the first line whose tokens fail to parse, with error e. */
  predicate FirstBadLine(lines: seq<string>, k: nat, e: ParseError) {
    k < |lines| && ParseRow(FindTokens(lines[k])) == Err(e)
    && forall k' :: 0 <= k' < k ==> ParseRow(FindTokens(lines[k'])).Ok?
  }

  /** One row per line, each holding that line's tokens parsed; the first bad
      token (in text order) is the error. */
  function ParseRows(lines: seq<string>): (r: Result<seq<seq<Status>>, ParseError>)
    ensures r.Ok? ==> (|r.value| == |lines|
      && forall k :: 0 <= k < |lines| ==> ParseRow(FindTokens(lines[k])) == Ok(r.value[k]))
    ensures r.Ok? <==> forall k :: 0 <= k < |lines| ==> ParseRow(FindTokens(lines[k])).Ok?
  {
    if lines == [] then Ok([])
    else
      match ParseRow(FindTokens(lines[0]))
      case Err(e) => Err(e)
      case Ok(row) =>
        assert forall k :: 1 <= k < |lines| ==> lines[k] == lines[1..][k - 1];
        match ParseRows(lines[1..])
        case Err(e) => Err(e)
        case Ok(rows) => Ok([row] + rows)
  }

  lemma FirstBadShift(lines: seq<string>, k: nat, e: ParseError)
    requires |lines| > 0 && ParseRow(FindTokens(lines[0])).Ok? && FirstBadLine(lines[1..], k, e)
    ensures FirstBadLine(lines, k + 1, e)
  {
    assert forall k' :: 1 <= k' <= k ==> lines[k'] == lines[1..][k' - 1];
  }

  /** When the rows fail to parse, the error is that of the first bad line. */
  lemma {:induction false} ParseRowsError(lines: seq<string>)
    ensures ParseRows(lines).Err? ==> exists k: nat :: FirstBadLine(lines, k, ParseRows(lines).error)
  {
    if lines != [] && ParseRows(lines).Err? {
      var first := ParseRow(FindTokens(lines[0]));
      if first.Err? {
        assert FirstBadLine(lines, 0, first.error);
      } else {
        var tail := lines[1..];
        var rest := ParseRows(tail);
        assert rest.Err? && ParseRows(lines).error == rest.error;
        ParseRowsError(tail);
        var k: nat :| FirstBadLine(tail, k, rest.error);
        FirstBadShift(lines, k, rest.error);
      }
    }
  }

  /** `Grid.from_string`. */
  function GridFromString(text: string): (r: Result<Grid, ParseError>)
    ensures var lines := NonBlank(SplitLines(text));
      r.Ok? <==> forall k :: 0 <= k < |lines| ==> ParseRow(FindTokens(lines[k])).Ok?
    ensures r.Ok? && NonBlank(SplitLines(text)) == [] ==> r.value == [[]]
    ensures r.Err? ==> exists k: nat :: FirstBadLine(NonBlank(SplitLines(text)), k, r.error)
    ensures r.Ok? ==> |r.value| > 0
    ensures r.Ok? && NonBlank(SplitLines(text)) != [] ==>
      |r.value| == |NonBlank(SplitLines(text))|
    ensures r.Ok? ==> forall a, b :: 0 <= a < |r.value| && 0 <= b < |r.value[a]| ==> Printable(r.value[a][b])
    ensures var lines := NonBlank(SplitLines(text));
      r.Ok? && lines != [] ==> forall k :: 0 <= k < |lines| ==> ParseRow(FindTokens(lines[k])) == Ok(r.value[k])
  {
    var lines := NonBlank(SplitLines(text));
    ParseRowsError(lines);
    match ParseRows(lines)
    case Err(e) => Err(e)
    case Ok(rows) =>
      ParsedPrintable(lines, rows);
      Ok(MakeGrid(rows))
  }

  /** Every cell of successfully parsed rows is printable. */
  lemma ParsedPrintable(lines: seq<string>, rows: seq<seq<Status>>)
    requires ParseRows(lines) == Ok(rows)
    ensures forall a, b :: 0 <= a < |rows| && 0 <= b < |rows[a]| ==> Printable(rows[a][b])
  {
    forall a, b | 0 <= a < |rows| && 0 <= b < |rows[a]| ensures Printable(rows[a][b]) {
      assert ParseRow(FindTokens(lines[a])) == Ok(rows[a]);
      assert ParseCell(FindTokens(lines[a])[b]) == Ok(rows[a][b]);
    }
  }

  /** `" ".join(cell.to_string() for cell in row)`: one line whose tokens,
      scanned back, are the row's cells' tokens. */
  function RowToString(row: seq<Status>): (line: string)
    ensures NoLineBreak(line)
    ensures |row| > 0 ==> |line| > 0 && line[0] == '[' && !IsBlank(line)
    ensures (forall k :: 0 <= k < |row| ==> Printable(row[k])) ==> FindTokens(line) == RowTokens(row)
  {
    if |row| == 0 then ""
    else if |row| == 1 then
      TokenText(row[0]);
      assert !IsSpace('[');
      assert Printable(row[0]) ==> FindTokens(Token(row[0])) == RowTokens(row) by {
        if Printable(row[0]) {
          FindFirstToken(row[0], "");
          assert Token(row[0]) + "" == Token(row[0]);
        }
      }
      Token(row[0])
    else
      var t := Token(row[0]);
      var rest := RowToString(row[1..]);
      TokenText(row[0]);
      NoBreakConcat(t, " ");
      NoBreakConcat(t + " ", rest);
      assert (t + " " + rest)[0] == t[0];
      assert !IsSpace('[');
      assert (forall k :: 0 <= k < |row| ==> Printable(row[k])) ==> FindTokens(t + " " + rest) == RowTokens(row) by {
        if forall k :: 0 <= k < |row| ==> Printable(row[k]) {
          assert forall k :: 0 <= k < |row[1..]| ==> row[1..][k] == row[k + 1];
          FindTokenThenBlank(row[0], rest);
        }
      }
      t + " " + rest
  }

  /** `Grid.to_string`: the rows joined by newlines. For a grid with a row,
      the lines of the text are exactly the printed rows. */
  function GridToString(g: Grid): (text: string)
    ensures |g| > 0 ==> SplitLines(text) == RowStrings(g)
  {
    if |g| == 0 then ""
    else if |g| == 1 then
      SplitNoBreak(RowToString(g[0]));
      RowToString(g[0])
    else
      SplitAtBreak(RowToString(g[0]), GridToString(g[1..]));
      assert forall a :: 0 <= a < |g[1..]| ==> g[1..][a] == g[a + 1];
      RowToString(g[0]) + "\n" + GridToString(g[1..])
  }

  // ----- the round trip -----

  lemma SplitNoBreak(s: string)
    requires NoLineBreak(s)
    ensures SplitLines(s) == [s]
  {
    if s != [] {
      SplitNoBreak(s[1..]);
      assert [s[0]] + s[1..] == s;
    }
  }

  lemma SplitAtBreak(l: string, t: string)
    requires NoLineBreak(l)
    ensures SplitLines(l + "\n" + t) == [l] + SplitLines(t)
  {
    if l == [] {
      assert l + "\n" + t == ['\n'] + t;
      assert (['\n'] + t)[1..] == t;
    } else {
      var s := l + "\n" + t;
      assert s[1..] == l[1..] + "\n" + t;
      SplitAtBreak(l[1..], t);
      assert [l[0]] + l[1..] == l;
    }
  }

  /** The tokens a row prints as. */
  function RowTokens(row: seq<Status>): (ts: seq<string>)
    ensures |ts| == |row| && forall k :: 0 <= k < |row| ==> ts[k] == Token(row[k])
  {
    if row == [] then [] else [Token(row[0])] + RowTokens(row[1..])
  }

  lemma FindFirstToken(s: Status, rest: string)
    requires Printable(s)
    ensures FindTokens(Token(s) + rest) == [Token(s)] + FindTokens(rest)
  {
    var t := Token(s);
    var line := t + rest;
    var x := t[1];
    assert t == ['[', x, ']'] by {
      if s.NUM? { assert Value(s) == [Digit(s.value)]; }
    }
    assert line[1..][0] == x && line[1..][1] == ']';
    assert x != ']' && x != '\n' by {
      if s.NUM? { assert Value(s) == [Digit(s.value)]; }
    }
    assert CloseBracket(line[1..]) == Some(1) by {
      assert line[1..][1..][0] == ']';
    }
    assert line[..3] == t;
    assert line[3..] == rest;
  }

  lemma NoBreakConcat(a: string, b: string)
    requires NoLineBreak(a) && NoLineBreak(b)
    ensures NoLineBreak(a + b)
  {
    forall k | 0 <= k < |a + b| ensures !IsLineBreak((a + b)[k]) {
      if k < |a| { assert (a + b)[k] == a[k]; } else { assert (a + b)[k] == b[k - |a|]; }
    }
  }

  lemma TokenText(s: Status)
    ensures NoLineBreak(Token(s))
  {
    var t := Token(s);
    assert t == "[" + Value(s) + "]";
    match s
    case NUM(v) => assert forall k :: 0 <= k < |Decimal(v)| ==> !IsLineBreak(Decimal(v)[k]);
    case _ =>
  }

  lemma FindTokenThenBlank(s: Status, rest: string)
    requires Printable(s)
    ensures FindTokens(Token(s) + " " + rest) == [Token(s)] + FindTokens(rest)
  {
    var t := Token(s);
    FindFirstToken(s, " " + rest);
    assert t + " " + rest == t + (" " + rest);
    assert (" " + rest)[1..] == rest;
  }

  lemma ParseRowCons(t: string, ts: seq<string>, c: Status, cs: seq<Status>)
    requires ParseCell(t) == Ok(c) && ParseRow(ts) == Ok(cs)
    ensures ParseRow([t] + ts) == Ok([c] + cs)
  {
    assert ([t] + ts)[0] == t && ([t] + ts)[1..] == ts;
  }

  lemma {:induction false} ParsePrinted(row: seq<Status>)
    requires forall k :: 0 <= k < |row| ==> Printable(row[k])
    ensures ParseRow(RowTokens(row)) == Ok(row)
  {
    if row != [] {
      var rest := row[1..];
      assert forall k :: 0 <= k < |rest| ==> rest[k] == row[k + 1];
      TokenRoundTrip(row[0]);
      ParsePrinted(rest);
      assert RowTokens(row) == [Token(row[0])] + RowTokens(rest);
      ParseRowCons(Token(row[0]), RowTokens(rest), row[0], rest);
      assert [row[0]] + rest == row;
    }
  }

  predicate AllPrintable(g: Grid) {
    forall a, b :: 0 <= a < |g| && 0 <= b < |g[a]| ==> Printable(g[a][b])
  }

  /** The printed rows of g. */
  function RowStrings(g: Grid): (ls: seq<string>)
    ensures |ls| == |g|
  {
    if g == [] then [] else [RowToString(g[0])] + RowStrings(g[1..])
  }

  lemma RowStringsAt(g: Grid, k: nat)
    requires k < |g|
    ensures RowStrings(g)[k] == RowToString(g[k])
  {
    if k > 0 { RowStringsAt(g[1..], k - 1); }
  }

  lemma RowsStart(g: Grid)
    requires forall a :: 0 <= a < |g| ==> g[a] != []
    ensures forall k :: 0 <= k < |g| ==> !IsBlank(RowStrings(g)[k])
  {
    forall k | 0 <= k < |g| ensures !IsBlank(RowStrings(g)[k]) {
      RowStringsAt(g, k);
    }
  }

  lemma NonBlankAll(lines: seq<string>)
    requires forall k :: 0 <= k < |lines| ==> !IsBlank(lines[k])
    ensures NonBlank(lines) == lines
  {
    if lines != [] {
      assert forall k :: 1 <= k < |lines| ==> lines[k] == lines[1..][k - 1];
      NonBlankAll(lines[1..]);
    }
  }

  /** Only the non-blank lines are kept, in their order: dropping blank lines
      distributes over concatenation. */
  lemma {:induction false} NonBlankAppend(a: seq<string>, b: seq<string>)
    ensures NonBlank(a + b) == NonBlank(a) + NonBlank(b)
  {
    if a != [] {
      assert (a + b)[0] == a[0] && (a + b)[1..] == a[1..] + b;
      NonBlankAppend(a[1..], b);
    } else {
      assert a + b == b;
    }
  }

  /** A single line is kept exactly when it is not blank. */
  lemma NonBlankOne(l: string)
    ensures NonBlank([l]) == if IsBlank(l) then [] else [l]
  {
    assert [l][1..] == [];
  }

  /** A `[`, a stretch without `]` or newline, and a `]` make the first
      token: the lazy match ends at the first closing bracket. */
  lemma FindTokensLazy(body: string, rest: string)
    requires forall k :: 0 <= k < |body| ==> body[k] != ']' && body[k] != '\n'
    ensures FindTokens("[" + body + "]" + rest) == ["[" + body + "]"] + FindTokens(rest)
  {
    var line := "[" + body + "]" + rest;
    var s := line[1..];
    assert s == body + "]" + rest;
    CloseBracketAt(body, rest);
    assert line[..|body| + 2] == "[" + body + "]";
    assert line[|body| + 2..] == rest;
  }

  lemma {:induction false} CloseBracketAt(body: string, rest: string)
    requires forall k :: 0 <= k < |body| ==> body[k] != ']' && body[k] != '\n'
    ensures CloseBracket(body + "]" + rest) == Some(|body|)
  {
    if body != [] {
      assert (body + "]" + rest)[1..] == body[1..] + "]" + rest;
      CloseBracketAt(body[1..], rest);
    }
  }

  /** Text before the first `[` holds no token. */
  lemma {:induction false} FindTokensSkip(pre: string, rest: string)
    requires '[' !in pre
    ensures FindTokens(pre + rest) == FindTokens(rest)
  {
    if pre != [] {
      assert (pre + rest)[0] == pre[0] && (pre + rest)[1..] == pre[1..] + rest;
      FindTokensSkip(pre[1..], rest);
    } else {
      assert pre + rest == rest;
    }
  }

  /** Printing a grid and parsing the text gives the grid back, when its rows
      are non-empty and its counts are in 0..8 (or it is the one-empty-row grid
      of an empty text). */
  lemma {:induction false} GridRoundTrip(g: Grid)
    requires g == [[]] || (|g| > 0 && forall a :: 0 <= a < |g| ==> g[a] != [])
    requires AllPrintable(g)
    ensures GridFromString(GridToString(g)) == Ok(g)
  {
    if g == [[]] {
      assert GridToString(g) == "";
      assert SplitLines("") == [""];
      assert IsBlank("");
    } else {
      RowsStart(g);
      NonBlankAll(RowStrings(g));
      var lines := NonBlank(SplitLines(GridToString(g)));
      assert lines == RowStrings(g);
      PrintedRowsParse(g);
      var r := ParseRows(lines);
      assert r.Ok?;
      assert r.value == g;
    }
  }

  /** Each printed row's tokens parse back to that row. */
  lemma PrintedRowsParse(g: Grid)
    requires AllPrintable(g)
    ensures forall k :: 0 <= k < |g| ==> ParseRow(FindTokens(RowStrings(g)[k])) == Ok(g[k])
  {
    forall k | 0 <= k < |g| ensures ParseRow(FindTokens(RowStrings(g)[k])) == Ok(g[k]) {
      RowStringsAt(g, k);
      ParsePrinted(g[k]);
    }
  }

  /** A token already in the printer's form: it parses, and the parsed cell
      prints as the same token. */
  predicate Canonical(t: string) {
    ParseCell(t).Ok? && Token(ParseCell(t).value) == t
  }

  /** Parsing text and printing the grid keeps the token stream, line by
      line: the k-th printed line holds the printed cells of the k-th
      non-blank line, so each token in its printer's form, and the very
      tokens of that line when they already were. */
  lemma {:induction false} TextRoundTrip(text: string)
    requires GridFromString(text).Ok? && NonBlank(SplitLines(text)) != []
    ensures var lines := NonBlank(SplitLines(text));
      var g := GridFromString(text).value;
      var printed := SplitLines(GridToString(g));
      |printed| == |lines| && |g| == |lines|
      && forall k :: 0 <= k < |lines| ==> FindTokens(printed[k]) == RowTokens(g[k])
    ensures var lines := NonBlank(SplitLines(text));
      var printed := SplitLines(GridToString(GridFromString(text).value));
      |printed| == |lines| && forall k :: 0 <= k < |lines| ==>
        (forall i :: 0 <= i < |FindTokens(lines[k])| ==> Canonical(FindTokens(lines[k])[i]))
        ==> FindTokens(printed[k]) == FindTokens(lines[k])
  {
    var lines := NonBlank(SplitLines(text));
    var g := GridFromString(text).value;
    var printed := SplitLines(GridToString(g));
    forall k | 0 <= k < |lines| ensures FindTokens(printed[k]) == RowTokens(g[k]) {
      PrintedLine(g, k);
    }
    forall k | 0 <= k < |lines| && (forall i :: 0 <= i < |FindTokens(lines[k])| ==> Canonical(FindTokens(lines[k])[i]))
      ensures FindTokens(printed[k]) == FindTokens(lines[k])
    {
      CanonicalRow(FindTokens(lines[k]), g[k]);
    }
  }

  /** The k-th line of a printed grid holds the tokens of row k. */
  lemma PrintedLine(g: Grid, k: nat)
    requires k < |g| && AllPrintable(g)
    ensures |SplitLines(GridToString(g))| == |g|
    ensures FindTokens(SplitLines(GridToString(g))[k]) == RowTokens(g[k])
  {
    RowStringsAt(g, k);
  }

  /** Tokens already in the printer's form are printed back unchanged. */
  lemma CanonicalRow(ts: seq<string>, row: seq<Status>)
    requires ParseRow(ts) == Ok(row)
    requires forall i :: 0 <= i < |ts| ==> Canonical(ts[i])
    ensures RowTokens(row) == ts
  {
    forall i | 0 <= i < |ts| ensures RowTokens(row)[i] == ts[i] {
      assert ParseCell(ts[i]) == Ok(row[i]);
    }
  }

  /** Parsing the printed grid gives the parsed grid again, when every
      non-blank line holds a token. */
  lemma {:induction false} ReparseStable(text: string)
    requires GridFromString(text).Ok?
    requires forall k :: 0 <= k < |NonBlank(SplitLines(text))| ==> FindTokens(NonBlank(SplitLines(text))[k]) != []
    ensures GridFromString(GridToString(GridFromString(text).value)) == GridFromString(text)
  {
    var lines := NonBlank(SplitLines(text));
    var g := GridFromString(text).value;
    if lines != [] {
      forall a | 0 <= a < |g| ensures g[a] != [] {
        assert ParseRow(FindTokens(lines[a])) == Ok(g[a]);
      }
    }
    GridRoundTrip(g);
  }

  /** A `[9]` anywhere in the text makes parsing fail. */
  lemma NineFailsToParse()
    ensures GridFromString("[9]").Err?
  {
    assert SplitLines("[9]") == ["[9]"] by { SplitNoBreak("[9]"); }
    assert NonBlank(["[9]"]) == ["[9]"] by { assert !IsSpace('['); assert !IsBlank("[9]"); }
    assert FindTokens("[9]") == ["[9]"] by {
      assert CloseBracket("9]") == Some(1) by { assert "9]"[1..] == "]"; }
      assert "[9]"[..3] == "[9]";
      assert "[9]"[3..] == "";
    }
    NineIsRejected();
  }
}

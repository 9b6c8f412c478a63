/** The cell model of board.py: the four-way status, the mutable cell that
    carries it, and the three-character bracketed token a cell is written as. */
module Cells {
  import opened Wrappers

  /** A cell's status: a revealed hint with its count, a confirmed-safe blank,
      an unresolved cell, or a flagged mine. */
  datatype Status = NUM(value: nat) | EMT | UNK | FLG

  /** The error `Cell.from_string` raises (a `ValueError` naming the text). */
  datatype ParseError = InvalidCellToken(token: string)

  /** Python's `str.isspace`: the characters `str.strip()` removes. */
  predicate IsSpace(c: char) {
    var n := c as int;
    (9 <= n <= 13) || (28 <= n <= 32) || n == 0x85 || n == 0xA0 || n == 0x1680
    || (0x2000 <= n <= 0x200A) || n == 0x2028 || n == 0x2029 || n == 0x202F
    || n == 0x205F || n == 0x3000
  }

  function StripLeft(s: string): (r: string)
    ensures |r| <= |s|
    ensures |s| > 0 && IsSpace(s[0]) ==> |r| < |s|
    ensures |r| > 0 ==> !IsSpace(r[0])
    ensures |r| > 0 ==> r[|r| - 1] == s[|s| - 1]
  {
    if |s| > 0 && IsSpace(s[0]) then StripLeft(s[1..]) else s
  }

  function StripRight(s: string): (r: string)
    ensures |r| <= |s|
    ensures |r| > 0 ==> !IsSpace(r[|r| - 1]) && r[0] == s[0]
  {
    if |s| > 0 && IsSpace(s[|s| - 1]) then StripRight(s[..|s| - 1]) else s
  }

  /** Python's `str.strip()` without arguments. */
  function Strip(s: string): (r: string)
    ensures |r| <= |s|
    ensures |s| > 0 && IsSpace(s[0]) ==> |r| < |s|
    ensures |r| > 0 ==> !IsSpace(r[0]) && !IsSpace(r[|r| - 1])
  {
    StripRight(StripLeft(s))
  }

  function Digit(d: nat): (c: char)
    requires d < 10
    ensures '0' <= c <= '9' && c as int - '0' as int == d
  {
    ('0' as int + d) as char
  }

  /** Python's `str(n)` for a non-negative integer. */
  function Decimal(n: nat): (r: string)
    ensures |r| > 0 && forall k :: 0 <= k < |r| ==> '0' <= r[k] <= '9'
    ensures n < 10 ==> r == [Digit(n)]
  {
    if n < 10 then [Digit(n)] else Decimal(n / 10) + [Digit(n % 10)]
  }

  /** The text between the brackets: `Status.X().value`, or the hint's count. */
  function Value(s: Status): string {
    match s
    case NUM(v) => Decimal(v)
    case EMT => " "
    case UNK => "?"
    case FLG => "*"
  }

  /** `Cell.to_string`: the bracketed token of a status. */
  function Token(s: Status): (t: string)
    ensures |t| >= 3 && t[0] == '[' && t[|t| - 1] == ']'
    ensures t[1..|t| - 1] == Value(s)
    ensures Printable(s) ==> |t| == 3
  {
    "[" + Value(s) + "]"
  }

  predicate LeadingSpace(s: string) {
    |s| > 0 && s[0] == ' '
  }

  /** What `re.match("\[[0-8]\]", s)` accepts: a bracketed digit 0..8 at the start. */
  predicate DigitToken(s: string) {
    |s| >= 3 && s[0] == '[' && '0' <= s[1] <= '8' && s[2] == ']'
  }

  /** `Cell.from_string`. A text that starts with a blank is stripped and parsed
      again; otherwise the markers are tried in the source's order (blank first,
      then flag, then unknown), then a bracketed digit; anything else is an
      error. */
  function ParseCell(value: string): (r: Result<Status, ParseError>)
    decreases |value|
    ensures r.Ok? && r.value.NUM? ==> r.value.value <= 8
    ensures !LeadingSpace(value) ==> (r == Ok(EMT) <==> ' ' in value)
    ensures !LeadingSpace(value) && ' ' !in value ==> (r == Ok(FLG) <==> '*' in value)
    ensures !LeadingSpace(value) && ' ' !in value && '*' !in value ==>
              (r == Ok(UNK) <==> '?' in value)
    ensures !LeadingSpace(value) && ' ' !in value && '*' !in value && '?' !in value ==>
              (r.Ok? <==> DigitToken(value))
              && (r.Ok? ==> r.value == NUM(value[1] as int - '0' as int))
              && (r.Err? ==> r.error == InvalidCellToken(value))
  {
    if LeadingSpace(value) then
      ParseCell(Strip(value))
    else if ' ' in value then
      Ok(EMT)
    else if '*' in value then
      Ok(FLG)
    else if '?' in value then
      Ok(UNK)
    else if DigitToken(value) then
      Ok(NUM(value[1] as int - '0' as int))
    else
      Err(InvalidCellToken(value))
  }

  /** A hint count that the token grammar can express. */
  predicate Printable(s: Status) {
    s.NUM? ==> s.value <= 8
  }

  /** Parsing a printed cell gives the cell back, for every count in 0..8. */
  lemma TokenRoundTrip(s: Status)
    requires Printable(s)
    ensures ParseCell(Token(s)) == Ok(s)
  {
    var t := Token(s);
    assert t == ['['] + Value(s) + [']'];
    match s
    case NUM(v) =>
      assert t == ['[', Digit(v), ']'];
      assert ' ' !in t && '*' !in t && '?' !in t;
    case EMT =>
      assert t[1] == ' ';
    case UNK =>
      assert t == ['[', '?', ']'];
    case FLG =>
      assert t == ['[', '*', ']'];
  }

  /** A count of nine or more has no token the parser accepts back. */
  lemma NineIsRejected()
    ensures Token(NUM(9)) == "[9]"
    ensures ParseCell("[9]") == Err(InvalidCellToken("[9]"))
  {
    assert Value(NUM(9)) == "9";
  }

  /** A cell: one mutable status. */
  class Cell {
    var status: Status

    /** `Cell(status)`, and the factories `Cell.emt`, `Cell.unk`, `Cell.num`. */
    constructor (status: Status)
      ensures this.status == status
    {
      this.status := status;
    }

    /** Overwrites the status with a flag, whatever it was. */
    method AsFlagged()
      modifies this
      ensures status == FLG
    {
      status := FLG;
    }

    /** Overwrites the status with a blank, whatever it was. */
    method AsEmpty()
      modifies this
      ensures status == EMT
    {
      status := EMT;
    }

    /** The cell's token; it parses back to the same status. */
    function ToString(): (t: string)
      reads this
      ensures |t| >= 3 && t[0] == '[' && t[|t| - 1] == ']'
      ensures Printable(status) ==> ParseCell(t) == Ok(status)
    {
      if Printable(status) then TokenRoundTrip(status); Token(status) else Token(status)
    }

    /** `Cell.from_string`: a fresh cell holding the parsed status, or the error. */
    static method FromString(value: string) returns (r: Result<Cell, ParseError>)
      ensures r.Ok? <==> ParseCell(value).Ok?
      ensures r.Ok? ==> fresh(r.value) && r.value.status == ParseCell(value).value
      ensures r.Err? ==> r.error == ParseCell(value).error
    {
      match ParseCell(value)
      case Ok(s) =>
        var c := new Cell(s);
        r := Ok(c);
      case Err(e) =>
        r := Err(e);
    }
  }
}

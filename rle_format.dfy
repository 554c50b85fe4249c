/**
 * The Life RLE pattern format as the encoder writes it: decimal run counts,
 * tokens made of an optional count and one of the tags `o` (live cells),
 * `b` (dead cells) and `$` (end of row), line breaks between tokens, and a
 * final `!`. This module is a reference definition of what such a body
 * means (a reader for it, and the cells it paints); the encoder is proved
 * against it.
 */
module RleFormat {
  import opened Globals

  predicate IsDigit(c: char)
  {
    '0' <= c <= '9'
  }

  predicate AllDigits(s: string)
  {
    forall i :: 0 <= i < |s| ==> IsDigit(s[i])
  }

  function DigitChar(d: nat): (c: char)
    requires d < 10
    ensures IsDigit(c)
  {
    (48 + d) as char
  }

  /** The value of a digit character (0 for any other character). */
  function DigitValue(c: char): nat
  {
    if IsDigit(c) then c as int - 48 else 0
  }

  /** std::to_string of a non-negative integer: its decimal digits, most significant first. */
  function Decimal(n: nat): (s: string)
    ensures |s| > 0 && AllDigits(s)
    decreases n
  {
    if n < 10 then [DigitChar(n)] else Decimal(n / 10) + [DigitChar(n % 10)]
  }

  /** std::to_string of any integer: a minus sign before the digits of a negative number. */
  function IntToString(n: int): string
  {
    if n < 0 then "-" + Decimal(-n) else Decimal(n)
  }

  /** The value of a string of decimal digits. */
  function ParseNat(s: string): nat
  {
    if s == [] then 0 else 10 * ParseNat(s[..|s| - 1]) + DigitValue(s[|s| - 1])
  }

  /** Decimal text reads back as the number it was made from, and has no leading zero. */
  lemma {:induction false} DecimalRoundTrip(n: nat)
    ensures ParseNat(Decimal(n)) == n
    ensures n > 0 ==> Decimal(n)[0] != '0'
    decreases n
  {
    var s := Decimal(n);
    if n < 10 {
      assert s[..0] == [];
    } else {
      DecimalRoundTrip(n / 10);
      assert s[..|s| - 1] == Decimal(n / 10);
    }
  }

  /** One run: `count` cells of kind `tag`, with `tag` one of 'o', 'b', '$'. */
  datatype Token = Run(count: nat, tag: char)

  /** Tokens the encoder writes: a positive count and one of the three tags. */
  predicate ValidToken(t: Token)
  {
    t.count >= 1 && (t.tag == 'o' || t.tag == 'b' || t.tag == '$')
  }

  /** A token's text: the count is omitted when it is 1. */
  function TokenText(t: Token): string
  {
    (if t.count > 1 then Decimal(t.count) else "") + [t.tag]
  }

  /** The body is a sequence of tokens with line breaks between them. */
  datatype Piece = Tok(token: Token) | LineBreak

  function PieceText(p: Piece): string
  {
    match p
    case Tok(t) => TokenText(t)
    case LineBreak => "\n"
  }

  function Text(ps: seq<Piece>): string
  {
    if ps == [] then "" else PieceText(ps[0]) + Text(ps[1..])
  }

  /** The tokens of a body, line breaks dropped. */
  function Tokens(ps: seq<Piece>): seq<Token>
  {
    if ps == [] then [] else (if ps[0].Tok? then [ps[0].token] else []) + Tokens(ps[1..])
  }

  lemma {:induction false} TextAppend(ps: seq<Piece>, qs: seq<Piece>)
    ensures Text(ps + qs) == Text(ps) + Text(qs)
    ensures Tokens(ps + qs) == Tokens(ps) + Tokens(qs)
  {
    if ps != [] {
      assert (ps + qs)[1..] == ps[1..] + qs;
      TextAppend(ps[1..], qs);
    } else {
      assert ps + qs == qs;
    }
  }

  /** Length of the leading run of digits. */
  function DigitRun(s: string): (k: nat)
    ensures k <= |s|
  {
    if s != [] && IsDigit(s[0]) then 1 + DigitRun(s[1..]) else 0
  }

  /** Digits followed by a non-digit: the digit run is exactly the digits. */
  lemma {:induction false} DigitRunOf(a: string, b: string)
    requires AllDigits(a) && b != [] && !IsDigit(b[0])
    ensures DigitRun(a + b) == |a|
  {
    if a != [] {
      assert (a + b)[1..] == a[1..] + b;
      DigitRunOf(a[1..], b);
    } else {
      assert a + b == b;
    }
  }

  /**
   * Reads a body up to its terminating `!`: line breaks between tokens are
   * skipped, a token is an optional decimal count (1 when absent) and a tag.
   * Anything else, or a missing `!`, is an error.
   */
  function ParseBody(s: string): Option<seq<Token>>
    decreases |s|
  {
    if s == [] then None
    else if s[0] == '!' then Some([])
    else if s[0] == '\n' then ParseBody(s[1..])
    else
      var k := DigitRun(s);
      if k == |s| || !IsTag(s[k]) then None
      else Prepend(Run(CountOf(s, k), s[k]), ParseBody(s[k + 1..]))
  }

  predicate IsTag(c: char)
  {
    c == 'o' || c == 'b' || c == '$'
  }

  /** The count before a tag: 1 when there are no digits, else their value. */
  function CountOf(s: string, k: nat): nat
    requires k <= |s|
  {
    if k == 0 then 1 else ParseNat(s[..k])
  }

  /** One token read, then the tokens after it (an error after it is an error). */
  function Prepend(t: Token, rest: Option<seq<Token>>): Option<seq<Token>>
  {
    match rest
    case None => None
    case Some(ts) => Some([t] + ts)
  }

  /** A line break before a body is skipped. */
  lemma ParseLineBreak(rest: string)
    ensures ParseBody("\n" + rest) == ParseBody(rest)
  {
    assert ("\n" + rest)[1..] == rest;
  }

  /** A written token before a body is read back as that token. */
  lemma ParseToken(t: Token, rest: string)
    requires ValidToken(t) && ParseBody(rest).Some?
    ensures ParseBody(TokenText(t) + rest) == Some([t] + ParseBody(rest).value)
  {
    var k := TokenTextShape(t, rest);
    ParseOneToken(TokenText(t) + rest, k);
  }

  /** Where a token's text puts its tag, and what its digits read as. */
  lemma TokenTextShape(t: Token, rest: string) returns (k: nat)
    requires ValidToken(t)
    ensures var s := TokenText(t) + rest;
            k < |s| && DigitRun(s) == k && s[k] == t.tag && s[k + 1..] == rest &&
            s[0] != '!' && s[0] != '\n' && CountOf(s, k) == t.count
  {
    var digits := if t.count > 1 then Decimal(t.count) else "";
    assert TokenText(t) + rest == digits + ([t.tag] + rest);
    DigitsThenTag(digits, t.tag, rest);
    k := |digits|;
    if t.count > 1 {
      DecimalRoundTrip(t.count);
    }
  }

  /** Digits, a tag, then anything: the digit run ends right at the tag. */
  lemma DigitsThenTag(digits: string, tag: char, rest: string)
    requires AllDigits(digits) && !IsDigit(tag)
    ensures var s := digits + ([tag] + rest);
            var k := |digits|;
            k < |s| && DigitRun(s) == k && s[k] == tag && s[k + 1..] == rest &&
            s[..k] == digits && s[0] == (if k == 0 then tag else digits[0])
  {
    DigitRunOf(digits, [tag] + rest);
    var s := digits + ([tag] + rest);
    assert s[|digits| + 1..] == rest;
    assert s[..|digits|] == digits;
  }

  /** A body that starts with a count and a tag reads as that token, then the rest. */
  lemma ParseOneToken(s: string, k: nat)
    requires k < |s| && DigitRun(s) == k && IsTag(s[k]) && s[0] != '!' && s[0] != '\n'
    ensures ParseBody(s) == Prepend(Run(CountOf(s, k), s[k]), ParseBody(s[k + 1..]))
  {
  }

  /** Reading back a written body gives exactly its tokens. */
  lemma {:induction false} ParseText(ps: seq<Piece>)
    requires forall i :: 0 <= i < |ps| && ps[i].Tok? ==> ValidToken(ps[i].token)
    ensures ParseBody(Text(ps) + "!") == Some(Tokens(ps))
  {
    if ps == [] {
      assert Text(ps) + "!" == "!";
    } else {
      var rest := Text(ps[1..]) + "!";
      assert Text(ps) + "!" == PieceText(ps[0]) + rest;
      ParseText(ps[1..]);
      match ps[0]
      case LineBreak =>
        assert Text(ps) + "!" == "\n" + rest;
        ParseLineBreak(rest);
        assert !ps[0].Tok?;
        assert Tokens(ps) == Tokens(ps[1..]);
      case Tok(t) =>
        ParseToken(t, rest);
    }
  }

  /** Where the next cell goes and which cells are live so far. */
  datatype Cursor = Cursor(x: int, y: int, live: set<Cell>)

  /** The n cells starting at column x of row y. */
  function RowCells(x: int, n: nat, y: int): set<Cell>
  {
    set i | x <= i < x + n :: Cell(i, y)
  }

  /** `o` paints and advances, `b` advances, `$` moves down and back to column 0. */
  function Step(c: Cursor, t: Token): Cursor
  {
    if t.tag == 'o' then Cursor(c.x + t.count, c.y, c.live + RowCells(c.x, t.count, c.y))
    else if t.tag == 'b' then Cursor(c.x + t.count, c.y, c.live)
    else if t.tag == '$' then Cursor(0, c.y + t.count, c.live)
    else c
  }

  /** The cursor after the tokens, starting at the top-left corner with nothing live. */
  function Paint(toks: seq<Token>): Cursor
  {
    if toks == [] then Cursor(0, 0, {}) else Step(Paint(toks[..|toks| - 1]), toks[|toks| - 1])
  }

  /** The live cells a body describes, or None when it does not read. */
  function Decode(s: string): Option<set<Cell>>
  {
    match ParseBody(s)
    case None => None
    case Some(toks) => Some(Paint(toks).live)
  }

  /** Lengthening a live run by one paints exactly one more cell, at its end. */
  lemma RowCellsGrow(x: int, n: nat, y: int)
    ensures RowCells(x, n + 1, y) == RowCells(x, n, y) + {Cell(x + n, y)}
  {
    assert Cell(x + n, y) in RowCells(x, n + 1, y);
  }

  /** One more token is one more step. */
  lemma PaintSnoc(toks: seq<Token>, t: Token)
    ensures Paint(toks + [t]) == Step(Paint(toks), t)
  {
    assert (toks + [t])[..|toks|] == toks;
  }
}

/**
 * `JSON.stringify` of a grid of integer colours: nested arrays, commas, no white space.
 * The parsers below read back exactly this text; they are the renderer's inverse, not a general JSON reader.
 */
module Json {
  import opened Wrappers
  import opened Colors
  import opened Grid

  predicate IsDigit(ch: char) { '0' <= ch <= '9' }

  predicate AllDigits(s: string) {
    forall i | 0 <= i < |s| :: IsDigit(s[i])
  }

  function DigitChar(d: nat): (ch: char)
    requires d < 10
    ensures IsDigit(ch)
  {
    ('0' as int + d) as char
  }

  function DigitValue(ch: char): (d: nat)
    requires IsDigit(ch)
    ensures d < 10 && DigitChar(d) == ch
  {
    ch as int - '0' as int
  }

  /** Decimal text of a natural number, no leading zeros. */
  function NatText(n: nat): (s: string)
    ensures |s| > 0 && AllDigits(s)
    ensures n == 0 ==> s == "0"
    ensures n > 0 ==> s[0] != '0'
  {
    if n < 10 then [DigitChar(n)] else NatText(n / 10) + [DigitChar(n % 10)]
  }

  /** The characters the text of an integer grid is made of: digits, the minus sign, brackets and commas. */
  predicate JsonChar(ch: char) {
    IsDigit(ch) || ch == '-' || ch == '[' || ch == ']' || ch == ','
  }

  /** No white space, nor anything else outside the literal's own alphabet. */
  predicate Compact(s: string) {
    forall i | 0 <= i < |s| :: JsonChar(s[i])
  }

  /** Decimal text of an integer, a minus sign in front of a negative one. */
  function IntText(i: int): (s: string)
    ensures Compact(s)
    ensures |s| > 0 && (i < 0 <==> s[0] == '-')
  {
    if i < 0 then "-" + NatText(-i) else NatText(i)
  }

  /** The value of a run of decimal digits, most significant first. */
  function DigitsValue(ds: string): nat
    requires AllDigits(ds)
  {
    if ds == [] then 0 else DigitsValue(ds[..|ds| - 1]) * 10 + DigitValue(ds[|ds| - 1])
  }

  lemma {:induction false} DigitsValueOfNatText(n: nat)
    ensures DigitsValue(NatText(n)) == n
  {
    var s := NatText(n);
    if n >= 10 {
      DigitsValueOfNatText(n / 10);
      assert s[..|s| - 1] == NatText(n / 10);
    }
  }

  /** The length of the longest run of digits at the front of `s`. */
  function DigitRun(s: string): (k: nat)
    ensures k <= |s| && AllDigits(s[..k])
    ensures k < |s| ==> !IsDigit(s[k])
  {
    if s != [] && IsDigit(s[0]) then
      var k := 1 + DigitRun(s[1..]);
      assert forall i | 1 <= i < k :: s[..k][i] == s[1..][..k - 1][i - 1];
      k
    else 0
  }

  lemma {:induction false} DigitRunOfDigits(p: string, t: string)
    requires AllDigits(p) && (t == [] || !IsDigit(t[0]))
    ensures DigitRun(p + t) == |p|
    decreases |p|
  {
    if p == [] {
      assert p + t == t;
    } else {
      assert (p + t)[1..] == p[1..] + t;
      DigitRunOfDigits(p[1..], t);
    }
  }

  /** Reads a natural number at the front of `s`; the rest follows. */
  function ParseNat(s: string): (p: Option<(nat, string)>)
    ensures p.Some? ==> |p.value.1| < |s|
  {
    var k := DigitRun(s);
    if k == 0 then None else Some((DigitsValue(s[..k]), s[k..]))
  }

  function ParseInt(s: string): (p: Option<(int, string)>)
    ensures p.Some? ==> |p.value.1| < |s|
  {
    if s != [] && s[0] == '-' then
      var n :- ParseNat(s[1..]);
      var v := 0 - n.0 as int;
      Some((v, n.1))
    else
      var n :- ParseNat(s);
      Some((n.0, n.1))
  }

  lemma ParseIntText(i: int, t: string)
    requires t == [] || !IsDigit(t[0])
    ensures ParseInt(IntText(i) + t) == Some((i, t))
  {
    var n: nat := if i < 0 then -i else i;
    var d := NatText(n);
    DigitRunOfDigits(d, t);
    DigitsValueOfNatText(n);
    assert (d + t)[..|d|] == d && (d + t)[|d|..] == t;
    if i < 0 {
      assert IntText(i) + t == "-" + (d + t);
      assert ("-" + (d + t))[1..] == d + t;
    }
  }

  function Expect(ch: char, s: string): (p: Option<string>)
    ensures p.Some? ==> |s| > 0 && s[0] == ch && p.value == s[1..]
  {
    if s != [] && s[0] == ch then Some(s[1..]) else None
  }

  /** One colour, `[r,g,b,a]`. */
  function ColorText(c: Color): (s: string)
    ensures Compact(s)
  {
    "[" + IntText(c.r) + "," + IntText(c.g) + "," + IntText(c.b) + "," + IntText(c.a) + "]"
  }

  /** A separator followed by an integer. */
  function ParseField(sep: char, s: string): (p: Option<(int, string)>)
    ensures p.Some? ==> |p.value.1| < |s|
  {
    var s1 :- Expect(sep, s);
    ParseInt(s1)
  }

  function ParseColor(s: string): (p: Option<(Color, string)>)
    ensures p.Some? ==> |p.value.1| < |s|
  {
    var r :- ParseField('[', s);
    var g :- ParseField(',', r.1);
    var b :- ParseField(',', g.1);
    var a :- ParseField(',', b.1);
    var rest :- Expect(']', a.1);
    Some((Color(r.0, g.0, b.0, a.0), rest))
  }

  lemma ParseFieldText(sep: char, i: int, t: string)
    requires t == [] || !IsDigit(t[0])
    ensures ParseField(sep, [sep] + (IntText(i) + t)) == Some((i, t))
  {
    ParseIntText(i, t);
    assert ([sep] + (IntText(i) + t))[1..] == IntText(i) + t;
  }

  lemma ParseColorText(c: Color, t: string)
    ensures ParseColor(ColorText(c) + t) == Some((c, t))
  {
    var tb := "]" + t;
    var t3 := "," + (IntText(c.a) + tb);
    var t2 := "," + (IntText(c.b) + t3);
    var t1 := "," + (IntText(c.g) + t2);
    var t0 := "[" + (IntText(c.r) + t1);
    assert ColorText(c) + t == t0;
    ParseFieldText('[', c.r, t1);
    ParseFieldText(',', c.g, t2);
    ParseFieldText(',', c.b, t3);
    ParseFieldText(',', c.a, tb);
    assert Expect(']', tb) == Some(t);
  }

  /** The colours of one row separated by commas. */
  function CellsText(cs: seq<Color>): (s: string)
    ensures Compact(s)
  {
    if |cs| == 0 then ""
    else if |cs| == 1 then ColorText(cs[0])
    else ColorText(cs[0]) + "," + CellsText(cs[1..])
  }

  /** One row, `[c,c,...]`. */
  function RowText(row: seq<Color>): (s: string)
    ensures Compact(s)
  {
    "[" + CellsText(row) + "]"
  }

  /** Reads the colours of a row after its `[`, up to and including its `]`. */
  function ParseCells(s: string): (p: Option<(seq<Color>, string)>)
    ensures p.Some? ==> |p.value.1| < |s|
    decreases |s|
  {
    var c :- ParseColor(s);
    if c.1 != [] && c.1[0] == ',' then
      var more :- ParseCells(c.1[1..]);
      Some(([c.0] + more.0, more.1))
    else
      var rest :- Expect(']', c.1);
      Some(([c.0], rest))
  }

  function ParseRow(s: string): (p: Option<(seq<Color>, string)>)
    ensures p.Some? ==> |p.value.1| < |s|
  {
    var s1 :- Expect('[', s);
    if s1 != [] && s1[0] == ']' then Some(([], s1[1..])) else ParseCells(s1)
  }

  lemma ParseCellsLast(c: Color, t: string)
    ensures ParseCells(ColorText(c) + ("]" + t)) == Some(([c], t))
  {
    ParseColorText(c, "]" + t);
  }

  lemma ParseCellsNext(c: Color, tail: string)
    ensures ParseCells(ColorText(c) + ("," + tail)) ==
      (var more :- ParseCells(tail); Some(([c] + more.0, more.1)))
  {
    ParseColorText(c, "," + tail);
    assert ("," + tail)[1..] == tail;
  }

  lemma ParseCellsOne(cs: seq<Color>, t: string)
    requires |cs| == 1
    ensures ParseCells(CellsText(cs) + "]" + t) == Some((cs, t))
  {
    assert CellsText(cs) + "]" + t == ColorText(cs[0]) + ("]" + t);
    ParseCellsLast(cs[0], t);
    assert [cs[0]] == cs;
  }

  lemma ParseCellsMore(cs: seq<Color>, t: string)
    requires |cs| > 1
    ensures ParseCells(CellsText(cs) + "]" + t) ==
      (var more :- ParseCells(CellsText(cs[1..]) + "]" + t); Some(([cs[0]] + more.0, more.1)))
  {
    var tail := CellsText(cs[1..]) + "]" + t;
    assert CellsText(cs) + "]" + t == ColorText(cs[0]) + ("," + tail);
    ParseCellsNext(cs[0], tail);
  }

  lemma {:induction false} ParseCellsText(cs: seq<Color>, t: string)
    requires |cs| > 0
    ensures ParseCells(CellsText(cs) + "]" + t) == Some((cs, t))
    decreases |cs|
  {
    if |cs| == 1 {
      ParseCellsOne(cs, t);
    } else {
      ParseCellsMore(cs, t);
      ParseCellsText(cs[1..], t);
      assert [cs[0]] + cs[1..] == cs;
    }
  }

  lemma ColorTextStart(c: Color)
    ensures |ColorText(c)| > 0 && ColorText(c)[0] == '['
  {
    assert ColorText(c) == "[" + (IntText(c.r) + "," + IntText(c.g) + "," + IntText(c.b) + "," + IntText(c.a) + "]");
  }

  lemma CellsTextStart(cs: seq<Color>)
    requires |cs| > 0
    ensures CellsText(cs)[0] == '['
  {
    var first := ColorText(cs[0]);
    ColorTextStart(cs[0]);
    if |cs| == 1 {
      assert CellsText(cs) == first;
    } else {
      var rest := "," + CellsText(cs[1..]);
      assert CellsText(cs) == first + rest;
      assert (first + rest)[0] == first[0];
    }
  }

  lemma ParseRowText(row: seq<Color>, t: string)
    ensures ParseRow(RowText(row) + t) == Some((row, t))
  {
    var s1 := CellsText(row) + "]" + t;
    assert RowText(row) + t == "[" + s1;
    assert ("[" + s1)[1..] == s1;
    if |row| > 0 {
      CellsTextStart(row);
      ParseCellsText(row, t);
    } else {
      assert s1 == "]" + t;
    }
  }

  /** The rows of a grid separated by commas. */
  function RowsText(g: Grid): (s: string)
    ensures Compact(s)
  {
    if |g| == 0 then ""
    else if |g| == 1 then RowText(g[0])
    else RowText(g[0]) + "," + RowsText(g[1..])
  }

  /**
   * `JSON.stringify` of a grid: an outer pair of brackets around the rows, each row a bracketed list of
   * `[r,g,b,a]` colours, separated by commas, with no white space. `ParseGridTextInverse` reads it back.
   */
  function GridText(g: Grid): (s: string)
    ensures |s| >= 2 && s[0] == '[' && s[|s| - 1] == ']'
    ensures Compact(s)
    ensures g == [] ==> s == "[]"
  {
    "[" + RowsText(g) + "]"
  }

  /** Reads the rows of a grid after its `[`, up to and including its `]`. */
  function ParseRows(s: string): (p: Option<(Grid, string)>)
    ensures p.Some? ==> |p.value.1| < |s|
    decreases |s|
  {
    var row :- ParseRow(s);
    if row.1 != [] && row.1[0] == ',' then
      var more :- ParseRows(row.1[1..]);
      Some(([row.0] + more.0, more.1))
    else
      var rest :- Expect(']', row.1);
      Some(([row.0], rest))
  }

  /** Reads a whole text as a grid literal; anything after the closing `]` is refused. */
  function ParseGridText(s: string): Option<Grid> {
    var s1 :- Expect('[', s);
    var rows :- if s1 != [] && s1[0] == ']' then Some(([], s1[1..])) else ParseRows(s1);
    if rows.1 == [] then Some(rows.0) else None
  }

  lemma ParseRowsLast(row: seq<Color>, t: string)
    ensures ParseRows(RowText(row) + ("]" + t)) == Some(([row], t))
  {
    ParseRowText(row, "]" + t);
  }

  lemma ParseRowsNext(row: seq<Color>, tail: string)
    ensures ParseRows(RowText(row) + ("," + tail)) ==
      (var more :- ParseRows(tail); Some(([row] + more.0, more.1)))
  {
    ParseRowText(row, "," + tail);
    assert ("," + tail)[1..] == tail;
  }

  lemma {:induction false} ParseRowsText(g: Grid, t: string)
    requires |g| > 0
    ensures ParseRows(RowsText(g) + "]" + t) == Some((g, t))
    decreases |g|
  {
    if |g| == 1 {
      assert RowsText(g) + "]" + t == RowText(g[0]) + ("]" + t);
      ParseRowsLast(g[0], t);
      assert [g[0]] == g;
    } else {
      var tail := RowsText(g[1..]) + "]" + t;
      assert RowsText(g) + "]" + t == RowText(g[0]) + ("," + tail);
      ParseRowsNext(g[0], tail);
      ParseRowsText(g[1..], t);
      assert [g[0]] + g[1..] == g;
    }
  }

  lemma RowsTextStart(g: Grid)
    requires |g| > 0
    ensures RowsText(g)[0] == '['
  {
    if |g| > 1 {
      assert RowsText(g) == RowText(g[0]) + ("," + RowsText(g[1..]));
    }
  }

  /** Reading back the text of a grid gives the grid. */
  lemma ParseGridTextInverse(g: Grid)
    ensures ParseGridText(GridText(g)) == Some(g)
  {
    var s1 := RowsText(g) + "]" + [];
    assert GridText(g) == "[" + s1;
    assert ("[" + s1)[1..] == s1;
    if |g| > 0 {
      RowsTextStart(g);
      ParseRowsText(g, []);
    } else {
      assert s1 == "]";
    }
  }
}

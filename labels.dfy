/**
 * Text the seat map derives from grid coordinates: decimal numerals,
 * the seat id "row-col" and the human-readable seat label ("A1", "B12").
 */
module Labels {

  /** A UTF-16 code unit, the element of a JavaScript string. */
  newtype CodeUnit = x: int | 0 <= x < 0x1_0000

  /**
   * A JavaScript string. Seat labels use this type rather than `string`
   * because `String.fromCharCode` wraps its argument modulo 2^16 and may
   * produce a lone surrogate, which a Dafny `char` cannot hold.
   */
  type JsString = seq<CodeUnit>

  predicate IsDigit(ch: char) {
    '0' as int <= ch as int <= '9' as int
  }

  function DigitChar(d: nat): (ch: char)
    requires d < 10
    ensures IsDigit(ch) && ch as int - '0' as int == d
  {
    ('0' as int + d) as char
  }

  /**
   * The decimal numeral of `n`, as JavaScript prints an integral number below
   * 10^21 (from there on it switches to exponent notation).
   */
  function NatToString(n: nat): (s: string)
    ensures |s| >= 1
    ensures forall i :: 0 <= i < |s| ==> IsDigit(s[i])
    decreases n
  {
    if n < 10 then [DigitChar(n)] else NatToString(n / 10) + [DigitChar(n % 10)]
  }

  /** The value of a numeral: the inverse of NatToString. */
  function DecimalValue(s: string): nat
    requires forall i :: 0 <= i < |s| ==> IsDigit(s[i])
  {
    if s == [] then 0
    else
      assert IsDigit(s[|s| - 1]);
      DecimalValue(s[..|s| - 1]) * 10 + (s[|s| - 1] as int - '0' as int)
  }

  lemma {:induction false} DecimalRoundTrip(n: nat)
    ensures DecimalValue(NatToString(n)) == n
    decreases n
  {
    var s := NatToString(n);
    if n >= 10 {
      assert s[..|s| - 1] == NatToString(n / 10);
      DecimalRoundTrip(n / 10);
    }
  }

  lemma NatToStringInjective(a: nat, b: nat)
    requires NatToString(a) == NatToString(b)
    ensures a == b
  {
    DecimalRoundTrip(a);
    DecimalRoundTrip(b);
  }

  /**
   * The seat id `${row}-${col}` that keys the seat map. It parses back: the
   * first dash separates the row's numeral from the column's.
   */
  function SeatId(row: nat, col: nat): string {
    NatToString(row) + "-" + NatToString(col)
  }

  /** Position of the first '-' in `s`, or |s| when there is none. */
  function DashIndex(s: string): (k: nat)
    ensures k <= |s|
  {
    if s == [] then 0 else if s[0] == '-' then 0 else 1 + DashIndex(s[1..])
  }

  lemma {:induction false} DashIndexAfterDigits(x: string, rest: string)
    requires forall i :: 0 <= i < |x| ==> IsDigit(x[i])
    ensures DashIndex(x + "-" + rest) == |x|
    decreases |x|
  {
    if x != [] {
      assert (x + "-" + rest)[1..] == x[1..] + "-" + rest;
      DashIndexAfterDigits(x[1..], rest);
    }
  }

  /** Distinct coordinates have distinct seat ids. */
  lemma SeatIdInjective(r1: nat, c1: nat, r2: nat, c2: nat)
    requires SeatId(r1, c1) == SeatId(r2, c2)
    ensures r1 == r2 && c1 == c2
  {
    var s, a1, a2 := SeatId(r1, c1), NatToString(r1), NatToString(r2);
    DashIndexAfterDigits(a1, NatToString(c1));
    DashIndexAfterDigits(a2, NatToString(c2));
    assert a1 == s[..|a1|] && a2 == s[..|a2|];
    NatToStringInjective(r1, r2);
    assert NatToString(c1) == s[|a1| + 1..] == NatToString(c2);
    NatToStringInjective(c1, c2);
  }

  /** Two seat ids are equal exactly when their coordinates are. */
  lemma SeatIdEq(r1: nat, c1: nat, r2: nat, c2: nat)
    ensures SeatId(r1, c1) == SeatId(r2, c2) <==> r1 == r2 && c1 == c2
  {
    if SeatId(r1, c1) == SeatId(r2, c2) {
      SeatIdInjective(r1, c1, r2, c2);
    }
  }

  /** Code units of a string made only of ASCII characters. */
  function Ascii(s: string): (u: JsString)
    requires forall i :: 0 <= i < |s| ==> s[i] < 128 as char
    ensures |u| == |s|
    ensures forall i :: 0 <= i < |s| ==> u[i] as int == s[i] as int
  {
    if s == [] then [] else [s[0] as int as CodeUnit] + Ascii(s[1..])
  }

  /**
   * The seat label: the character with code 65 + row (taken modulo 2^16,
   * as `String.fromCharCode` does), followed by the numeral of col + 1.
   */
  function Label(row: nat, col: nat): (u: JsString)
    ensures |u| >= 2
    ensures u[0] as int == (65 + row) % 0x1_0000
    ensures forall i :: 1 <= i < |u| ==> '0' as int <= u[i] as int <= '9' as int
  {
    [((65 + row) % 0x1_0000) as CodeUnit] + Ascii(NatToString(col + 1))
  }

  /** The label's first unit is the letter code and the rest reads back as col + 1. */
  lemma LabelDecodes(row: nat, col: nat)
    ensures row < 26 ==> 'A' as int <= Label(row, col)[0] as int <= 'Z' as int
    ensures exists digits: string ::
      (forall i :: 0 <= i < |digits| ==> IsDigit(digits[i])) &&
      Label(row, col)[1..] == Ascii(digits) && DecimalValue(digits) == col + 1
  {
    var digits := NatToString(col + 1);
    DecimalRoundTrip(col + 1);
    assert Label(row, col)[1..] == Ascii(digits);
  }

  lemma LabelExamples()
    ensures Label(0, 0) == Ascii("A1")
    ensures Label(1, 11) == Ascii("B12")
  {
    assert NatToString(1) == "1";
    assert NatToString(12) == NatToString(1) + "2";
  }
}

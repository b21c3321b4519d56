/**
 * Characters, digits and the few number/string conversions the colour core relies on:
 * JavaScript's `\s` class, `parseInt` of digit runs, `parseFloat` of digit-and-dot runs,
 * `toString(16)`, decimal `String(n)` and `toLowerCase`.
 */
module Text {
  import opened Common

  /** A JavaScript number as it reaches the colour core: a finite value or NaN. */
  datatype Number = Finite(v: real) | NaN

  /** `x / d` for a positive constant divisor; NaN stays NaN. */
  function Div(x: Number, d: real): (y: Number)
    requires d > 0.0
    ensures y.NaN? <==> x.NaN?
    ensures x.Finite? ==> y.v * d == x.v
  {
    match x
    case Finite(v) => Finite(v / d)
    case NaN => NaN
  }

  /** `x + d` for a constant `d`; NaN stays NaN. */
  function Add(x: Number, d: real): (y: Number)
    ensures y.NaN? <==> x.NaN?
    ensures x.Finite? ==> y.v - d == x.v
  {
    match x
    case Finite(v) => Finite(v + d)
    case NaN => NaN
  }

  /** The characters matched by `\s` in a JavaScript regular expression. */
  predicate IsSpace(c: char) {
    c == ' ' || c == '\t' || c == '\n' || c == '\U{B}' || c == '\U{C}' || c == '\r'
    || c == '\U{A0}' || c == '\U{1680}' || ('\U{2000}' <= c <= '\U{200A}')
    || c == '\U{2028}' || c == '\U{2029}' || c == '\U{202F}' || c == '\U{205F}'
    || c == '\U{3000}' || c == '\U{FEFF}'
  }

  predicate IsDigit(c: char) { '0' <= c <= '9' }

  /** `[0-9a-f]` under the case-insensitive flag. */
  predicate IsHexDigit(c: char) { IsDigit(c) || 'a' <= c <= 'f' || 'A' <= c <= 'F' }

  /** A hexadecimal digit as `toString(16)` writes it. */
  predicate IsLowerHexDigit(c: char) { IsDigit(c) || 'a' <= c <= 'f' }

  /** The character classes that the recognisers repeat. */
  datatype CharClass = Space | Digit | HexDigit | DigitOrDot

  predicate InClass(k: CharClass, c: char) {
    match k
    case Space => IsSpace(c)
    case Digit => IsDigit(c)
    case HexDigit => IsHexDigit(c)
    case DigitOrDot => IsDigit(c) || c == '.'
  }

  predicate AllIn(k: CharClass, s: string) {
    forall i | 0 <= i < |s| :: InClass(k, s[i])
  }

  /** End of the longest run of class-`k` characters that starts at `i` (a greedy `k*`). */
  function Span(s: string, i: nat, k: CharClass): (j: nat)
    requires i <= |s|
    ensures i <= j <= |s|
    ensures AllIn(k, s[i..j])
    ensures j == |s| || !InClass(k, s[j])
    decreases |s| - i
  {
    if i < |s| && InClass(k, s[i]) then Span(s, i + 1, k) else i
  }

  /** A run that is all of class `k` and is followed by the end or by a character outside `k` is what `Span` finds. */
  lemma {:induction false} SpanIs(s: string, i: nat, j: nat, k: CharClass)
    requires i <= j <= |s|
    requires forall m | i <= m < j :: InClass(k, s[m])
    requires j == |s| || !InClass(k, s[j])
    ensures Span(s, i, k) == j
    decreases j - i
  {
    if i < j {
      SpanIs(s, i + 1, j, k);
    }
  }

  /** The value of one digit, for any base up to 16. */
  function DigitValue(c: char): (d: nat)
    requires IsHexDigit(c)
    ensures d < 16
    ensures IsDigit(c) <==> d < 10
  {
    if IsDigit(c) then c as int - '0' as int
    else if 'a' <= c <= 'f' then c as int - 'a' as int + 10
    else c as int - 'A' as int + 10
  }

  predicate DigitsIn(s: string, base: nat) {
    forall i | 0 <= i < |s| :: IsHexDigit(s[i]) && DigitValue(s[i]) < base
  }

  /** `parseInt(s, base)` of a text made only of digits below `base`. */
  function ParseDigits(s: string, base: nat): nat
    requires DigitsIn(s, base)
  {
    if s == [] then 0 else ParseDigits(s[..|s| - 1], base) * base + DigitValue(s[|s| - 1])
  }

  /** One lower-case hexadecimal digit. */
  function HexChar(d: nat): (c: char)
    requires d < 16
    ensures IsLowerHexDigit(c) && IsHexDigit(c) && DigitValue(c) == d
  {
    if d < 10 then ('0' as int + d) as char else ('a' as int + d - 10) as char
  }

  /** `n.toString(16)`: lower-case hexadecimal digits without leading zeros. */
  function HexText(n: nat): string
    decreases n
  {
    if n < 16 then [HexChar(n)] else HexText(n / 16) + [HexChar(n % 16)]
  }

  /** `to2PlaceHex`: `n.toString(16)`, with a zero in front when that is a single digit. */
  function To2PlaceHex(n: nat): (s: string)
    ensures n < 256 ==> |s| == 2 && IsLowerHexDigit(s[0]) && IsLowerHexDigit(s[1])
    ensures n < 256 ==> DigitsIn(s, 16) && ParseDigits(s, 16) == n
  {
    var h := HexText(n);
    var s := if |h| == 1 then "0" + h else h;
    if n < 256 then
      HexTextBelow256(n);
      ParseTwoDigits(s);
      s
    else s
  }

  lemma HexTextBelow256(n: nat)
    requires n < 256
    ensures n < 16 ==> HexText(n) == [HexChar(n)]
    ensures n >= 16 ==> HexText(n) == [HexChar(n / 16), HexChar(n % 16)]
  {
    if n >= 16 {
      assert HexText(n / 16) == [HexChar(n / 16)];
    }
  }

  /** Two hexadecimal digits `xy` are worth `16 * x + y`. */
  lemma ParseTwoDigits(s: string)
    requires |s| == 2 && IsHexDigit(s[0]) && IsHexDigit(s[1])
    ensures DigitsIn(s, 16)
    ensures ParseDigits(s, 16) == 16 * DigitValue(s[0]) + DigitValue(s[1])
  {
    assert s[..1][..0] == [];
    assert ParseDigits(s[..1], 16) == DigitValue(s[0]);
  }

  function DecimalChar(d: nat): (c: char)
    requires d < 10
    ensures IsDigit(c) && DigitValue(c) == d
  {
    ('0' as int + d) as char
  }

  /** `String(n)` for a non-negative integer: its decimal digits without leading zeros. */
  function DecimalText(n: nat): (s: string)
    ensures |s| >= 1 && AllIn(Digit, s) && DigitsIn(s, 10)
    ensures n > 0 ==> s[0] != '0'
    ensures ParseDigits(s, 10) == n
    decreases n
  {
    if n < 10 then [DecimalChar(n)]
    else
      var s := DecimalText(n / 10) + [DecimalChar(n % 10)];
      assert s[..|s| - 1] == DecimalText(n / 10);
      s
  }

  function Pow10(k: nat): (p: nat)
    ensures p >= 1
  {
    if k == 0 then 1 else 10 * Pow10(k - 1)
  }

  /**
   * `parseFloat(s)` for a text of digits and dots (the only texts the core passes it):
   * the value of the longest prefix of the form `digits[.digits]` or `.digits`, and NaN
   * when there is no such prefix.
   */
  function ParseFloat(s: string): (x: Number)
    ensures x.Finite? ==> x.v >= 0.0
    ensures x.NaN? <==> (|s| == 0 || !IsDigit(s[0])) && (|s| < 2 || s[0] != '.' || !IsDigit(s[1]))
  {
    var e1 := Span(s, 0, Digit);
    var whole := ParseDigits(s[..e1], 10) as real;
    if e1 < |s| && s[e1] == '.' then
      var e2 := Span(s, e1 + 1, Digit);
      if e1 == 0 && e2 == 1 then NaN
      else Finite(whole + ParseDigits(s[e1 + 1..e2], 10) as real / Pow10(e2 - e1 - 1) as real)
    else if e1 == 0 then NaN
    else Finite(whole)
  }

  /** An ASCII letter folded to lower case: how the case-insensitive flag compares a pattern letter. */
  function FoldAscii(c: char): char {
    if 'A' <= c <= 'Z' then (c as int + 32) as char else c
  }

  /**
   * `toLowerCase` on one character. Modelled are the ASCII letters and the two non-ASCII
   * characters whose lower-case form contains ASCII: the Kelvin sign becomes `k` and
   * U+0130 becomes `i` followed by U+0307. Every other character is kept.
   */
  function LowerChar(c: char): string {
    if 'A' <= c <= 'Z' then [(c as int + 32) as char]
    else if c == '\U{212A}' then "k"
    else if c == '\U{130}' then "i\U{307}"
    else [c]
  }

  /** `toLowerCase` on a string, character by character. */
  function Lower(s: string): string {
    if s == [] then [] else LowerChar(s[0]) + Lower(s[1..])
  }

  lemma {:induction false} LowerAppend(x: string, y: string)
    ensures Lower(x + y) == Lower(x) + Lower(y)
  {
    if x == [] {
      assert x + y == y;
    } else {
      assert (x + y)[0] == x[0];
      assert (x + y)[1..] == x[1..] + y;
      LowerAppend(x[1..], y);
    }
  }

  lemma LowerCharIdempotent(c: char)
    ensures Lower(LowerChar(c)) == LowerChar(c)
  {
    var l := LowerChar(c);
    if |l| == 1 {
      assert Lower(l) == LowerChar(l[0]) + Lower([]);
    } else {
      assert l == ['i', '\U{307}'];
      assert l[1..] == ['\U{307}'];
      assert Lower(l[1..]) == LowerChar('\U{307}') + Lower([]);
    }
  }

  /** Lower-casing twice is lower-casing once. */
  lemma {:induction false} LowerIdempotent(s: string)
    ensures Lower(Lower(s)) == Lower(s)
  {
    if s != [] {
      LowerAppend(LowerChar(s[0]), Lower(s[1..]));
      LowerCharIdempotent(s[0]);
      LowerIdempotent(s[1..]);
    }
  }

  /** A character that lower-casing leaves alone survives into the lower-cased string. */
  lemma {:induction false} LowerKeeps(s: string, c: char)
    requires c in s && LowerChar(c) == [c]
    ensures c in Lower(s)
  {
    if s[0] == c {
      assert Lower(s)[0] == c;
    } else {
      LowerKeeps(s[1..], c);
    }
  }

  /** A text none of whose characters lower-casing changes. */
  predicate LowerFixed(s: string) {
    forall i | 0 <= i < |s| :: LowerChar(s[i]) == [s[i]]
  }

  lemma {:induction false} LowerOfFixed(s: string)
    requires LowerFixed(s)
    ensures Lower(s) == s
  {
    if s != [] {
      assert forall i | 0 <= i < |s[1..]| :: s[1..][i] == s[i + 1];
      LowerOfFixed(s[1..]);
    }
  }

  /** A character that lower-casing leaves alone and that is absent from the lower-cased text is absent from the text. */
  lemma LowerMisses(s: string, c: char)
    requires LowerChar(c) == [c] && c !in Lower(s)
    ensures c !in s
  {
    if c in s {
      LowerKeeps(s, c);
    }
  }
}

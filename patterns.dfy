/**
 * The six regular expressions `Color.parse` tries, each written as a recogniser of
 * exactly that shape that returns the texts of its capture groups.
 *
 * Every repeated class in these patterns is followed by a character outside the class
 * (`\s*` by `#`, a letter, a digit or a bracket; `\d+` by a space, `,` or `)`;
 * `[\d.]+` by a space, `%`, `,` or `)`), so a regular-expression match has only one way
 * to split the input and the greedy, left-to-right scan below finds that split. The
 * helpers are named after the pattern piece they match.
 */
module Patterns {
  import opened Common
  import opened Text

  /** `c` at position `i`. */
  function Lit(s: string, i: nat, c: char): (r: Option<nat>)
    requires i <= |s|
    ensures r.Some? <==> i < |s| && s[i] == c
    ensures r.Some? ==> r.value == i + 1
  {
    if i < |s| && s[i] == c then Some(i + 1) else None
  }

  /** `\s*c`. */
  function Tok(s: string, i: nat, c: char): (r: Option<nat>)
    requires i <= |s|
    ensures r.Some? ==> i < r.value <= |s| && s[r.value - 1] == c
    ensures r.Some? ==> AllIn(Space, s[i..r.value - 1])
  {
    Lit(s, Span(s, i, Space), c)
  }

  /** `\s*w` for a lower-case word `w`, letters compared case-insensitively. */
  function WordAt(s: string, i: nat, w: string): (r: Option<nat>)
    requires i <= |s|
    ensures r.Some? ==> i + |w| <= r.value <= |s|
    ensures r.Some? ==> forall k | 0 <= k < |w| :: FoldAscii(s[r.value - |w| + k]) == w[k]
  {
    var j := Span(s, i, Space);
    if j + |w| <= |s| && forall k | 0 <= k < |w| :: FoldAscii(s[j + k]) == w[k] then Some(j + |w|) else None
  }

  /** `\s*(k+)`: the bounds of the captured run. */
  function Group(s: string, i: nat, k: CharClass): (r: Option<(nat, nat)>)
    requires i <= |s|
    ensures r.Some? ==> i <= r.value.0 < r.value.1 <= |s|
    ensures r.Some? ==> r.value.0 == Span(s, i, Space) && r.value.1 == Span(s, r.value.0, k)
    ensures r.Some? ==> AllIn(k, s[r.value.0..r.value.1])
  {
    var a := Span(s, i, Space);
    var e := Span(s, a, k);
    if a < e then Some((a, e)) else None
  }

  /** `(k{n})` at position `i`: the end of the run. */
  function Exactly(s: string, i: nat, k: CharClass, n: nat): (r: Option<nat>)
    requires i <= |s|
    ensures r.Some? ==> r.value == i + n <= |s| && AllIn(k, s[i..i + n])
  {
    if i + n <= |s| && forall m | i <= m < i + n :: InClass(k, s[m]) then Some(i + n) else None
  }

  /** `\s*$`. */
  predicate End(s: string, i: nat)
    requires i <= |s|
  {
    Span(s, i, Space) == |s|
  }

  /** What `\s*$` leaves after `i` is all space. */
  lemma EndSpaces(s: string, i: nat)
    requires i <= |s| && End(s, i)
    ensures AllIn(Space, s[i..])
  {
    assert s[i..] == s[i..Span(s, i, Space)];
  }

  predicate HexPair(x: string) { |x| == 2 && AllIn(HexDigit, x) }

  predicate HexSingle(x: string) { |x| == 1 && AllIn(HexDigit, x) }

  predicate Digits(x: string) { |x| > 0 && AllIn(Digit, x) }

  predicate DigitsAndDots(x: string) { |x| > 0 && AllIn(DigitOrDot, x) }

  /** `^\s*\#([0-9a-f]{2})([0-9a-f]{2})([0-9a-f]{2})\s*$`, case-insensitive. */
  function Hex6(s: string): (r: Option<(string, string, string)>)
    ensures r.Some? ==> HexPair(r.value.0) && HexPair(r.value.1) && HexPair(r.value.2)
    ensures r.Some? ==>
      var i := Span(s, 0, Space);
      i + 7 <= |s| && s[i] == '#' && s[i + 1..i + 7] == r.value.0 + r.value.1 + r.value.2
      && AllIn(Space, s[i + 7..])
  {
    var p0 :- Tok(s, 0, '#');
    var p1 :- Exactly(s, p0, HexDigit, 2);
    var p2 :- Exactly(s, p1, HexDigit, 2);
    var p3 :- Exactly(s, p2, HexDigit, 2);
    if End(s, p3) then
      assert s[p0..p3] == s[p0..p1] + s[p1..p2] + s[p2..p3];
      EndSpaces(s, p3);
      Some((s[p0..p1], s[p1..p2], s[p2..p3]))
    else None
  }

  /** `^\s*rgb\s*\(\s*(\d+)\s*,\s*(\d+)\s*,\s*(\d+)\s*\)\s*$`, case-insensitive. */
  function Rgb(s: string): (r: Option<(string, string, string)>)
    ensures r.Some? ==> Digits(r.value.0) && Digits(r.value.1) && Digits(r.value.2)
    ensures r.Some? ==> '(' in s
  {
    var p0 :- WordAt(s, 0, "rgb");
    var p1 :- Tok(s, p0, '(');
    var g1 :- Group(s, p1, Digit);
    var p2 :- Tok(s, g1.1, ',');
    var g2 :- Group(s, p2, Digit);
    var p3 :- Tok(s, g2.1, ',');
    var g3 :- Group(s, p3, Digit);
    var p4 :- Tok(s, g3.1, ')');
    if End(s, p4) then Some((s[g1.0..g1.1], s[g2.0..g2.1], s[g3.0..g3.1])) else None
  }

  /** `^\s*rgba\s*\(\s*(\d+)\s*,\s*(\d+)\s*,\s*(\d+)\s*,\s*([\d\.]+)\s*\)\s*$`, case-insensitive. */
  function Rgba(s: string): (r: Option<(string, string, string, string)>)
    ensures r.Some? ==> Digits(r.value.0) && Digits(r.value.1) && Digits(r.value.2)
    ensures r.Some? ==> DigitsAndDots(r.value.3)
    ensures r.Some? ==> '(' in s
  {
    var p0 :- WordAt(s, 0, "rgba");
    var p1 :- Tok(s, p0, '(');
    var g1 :- Group(s, p1, Digit);
    var p2 :- Tok(s, g1.1, ',');
    var g2 :- Group(s, p2, Digit);
    var p3 :- Tok(s, g2.1, ',');
    var g3 :- Group(s, p3, Digit);
    var p4 :- Tok(s, g3.1, ',');
    var g4 :- Group(s, p4, DigitOrDot);
    var p5 :- Tok(s, g4.1, ')');
    if End(s, p5) then
      Some((s[g1.0..g1.1], s[g2.0..g2.1], s[g3.0..g3.1], s[g4.0..g4.1]))
    else None
  }

  /** `^\s*\#([0-9a-f])([0-9a-f])([0-9a-f])\s*$`, case-insensitive. */
  function Hex3(s: string): (r: Option<(string, string, string)>)
    ensures r.Some? ==> HexSingle(r.value.0) && HexSingle(r.value.1) && HexSingle(r.value.2)
    ensures r.Some? ==>
      var i := Span(s, 0, Space);
      i + 4 <= |s| && s[i] == '#' && s[i + 1..i + 4] == r.value.0 + r.value.1 + r.value.2
      && AllIn(Space, s[i + 4..])
  {
    var p0 :- Tok(s, 0, '#');
    var p1 :- Exactly(s, p0, HexDigit, 1);
    var p2 :- Exactly(s, p1, HexDigit, 1);
    var p3 :- Exactly(s, p2, HexDigit, 1);
    if End(s, p3) then
      assert s[p0..p3] == s[p0..p1] + s[p1..p2] + s[p2..p3];
      EndSpaces(s, p3);
      Some((s[p0..p1], s[p1..p2], s[p2..p3]))
    else None
  }

  /** `^\s*hsl\s*\(\s*([\d\.]+)\s*,\s*([\d\.]+)%\s*,\s*([\d\.]+)%\s*\)\s*$`, case-insensitive. */
  function Hsl(s: string): (r: Option<(string, string, string)>)
    ensures r.Some? ==> DigitsAndDots(r.value.0) && DigitsAndDots(r.value.1) && DigitsAndDots(r.value.2)
    ensures r.Some? ==> '(' in s
  {
    var p0 :- WordAt(s, 0, "hsl");
    var p1 :- Tok(s, p0, '(');
    var g1 :- Group(s, p1, DigitOrDot);
    var p2 :- Tok(s, g1.1, ',');
    var g2 :- Group(s, p2, DigitOrDot);
    var q2 :- Lit(s, g2.1, '%');
    var p3 :- Tok(s, q2, ',');
    var g3 :- Group(s, p3, DigitOrDot);
    var q3 :- Lit(s, g3.1, '%');
    var p4 :- Tok(s, q3, ')');
    if End(s, p4) then Some((s[g1.0..g1.1], s[g2.0..g2.1], s[g3.0..g3.1])) else None
  }

  /** `^\s*hsla\s*\(\s*([\d\.]+)\s*,\s*([\d\.]+)%\s*,\s*([\d\.]+)%\s*,\s*([\d\.]+)\s*\)\s*$`, case-insensitive. */
  function Hsla(s: string): (r: Option<(string, string, string, string)>)
    ensures r.Some? ==> DigitsAndDots(r.value.0) && DigitsAndDots(r.value.1) && DigitsAndDots(r.value.2)
    ensures r.Some? ==> DigitsAndDots(r.value.3)
    ensures r.Some? ==> '(' in s
  {
    var p0 :- WordAt(s, 0, "hsla");
    var p1 :- Tok(s, p0, '(');
    var g1 :- Group(s, p1, DigitOrDot);
    var p2 :- Tok(s, g1.1, ',');
    var g2 :- Group(s, p2, DigitOrDot);
    var q2 :- Lit(s, g2.1, '%');
    var p3 :- Tok(s, q2, ',');
    var g3 :- Group(s, p3, DigitOrDot);
    var q3 :- Lit(s, g3.1, '%');
    var p4 :- Tok(s, q3, ',');
    var g4 :- Group(s, p4, DigitOrDot);
    var p5 :- Tok(s, g4.1, ')');
    if End(s, p5) then
      Some((s[g1.0..g1.1], s[g2.0..g2.1], s[g3.0..g3.1], s[g4.0..g4.1]))
    else None
  }

  /** `\s*c` at `i` when the spaces run from `i` to `j` and `c`, not a space, sits at `j`. */
  lemma TokAt(s: string, i: nat, j: nat, c: char)
    requires i <= j < |s| && s[j] == c && !IsSpace(c)
    requires forall m | i <= m < j :: IsSpace(s[m])
    ensures Tok(s, i, c) == Some(j + 1)
  {
    SpanIs(s, i, j, Space);
  }

  /** `\s*(k+)` at `i` captures `[a, e)` when spaces run up to `a` and the class-`k` run from `a` stops at `e`. */
  lemma GroupAt(s: string, i: nat, a: nat, e: nat, k: CharClass)
    requires i <= a < e <= |s| && k != Space && !IsSpace(s[a])
    requires forall m | i <= m < a :: IsSpace(s[m])
    requires forall m | a <= m < e :: InClass(k, s[m])
    requires e == |s| || !InClass(k, s[e])
    ensures Group(s, i, k) == Some((a, e))
  {
    SpanIs(s, i, a, Space);
    SpanIs(s, a, e, k);
  }

  /** Six hexadecimal digits after `#`, with any surrounding white space, are what `Hex6` captures. */
  lemma Hex6Accepts(w1: string, x: string, y: string, z: string, w2: string)
    requires AllIn(Space, w1) && AllIn(Space, w2)
    requires HexPair(x) && HexPair(y) && HexPair(z)
    ensures Hex6(w1 + "#" + x + y + z + w2) == Some((x, y, z))
  {
    var s := w1 + "#" + x + y + z + w2;
    var i := |w1|;
    assert s[..i] == w1 && s[i] == '#';
    assert s[i + 1..i + 3] == x && s[i + 3..i + 5] == y && s[i + 5..i + 7] == z && s[i + 7..] == w2;
    TokAt(s, 0, i, '#');
    assert forall m | i + 1 <= m < i + 3 :: s[m] == x[m - i - 1];
    assert forall m | i + 3 <= m < i + 5 :: s[m] == y[m - i - 3];
    assert forall m | i + 5 <= m < i + 7 :: s[m] == z[m - i - 5];
    assert forall m | i + 7 <= m < |s| :: s[m] == w2[m - i - 7];
    SpanIs(s, i + 7, |s|, Space);
  }

  /** Three hexadecimal digits after `#`, with any surrounding white space, are what `Hex3` captures. */
  lemma Hex3Accepts(w1: string, x: string, y: string, z: string, w2: string)
    requires AllIn(Space, w1) && AllIn(Space, w2)
    requires HexSingle(x) && HexSingle(y) && HexSingle(z)
    ensures Hex3(w1 + "#" + x + y + z + w2) == Some((x, y, z))
  {
    var s := w1 + "#" + x + y + z + w2;
    var i := |w1|;
    assert s[..i] == w1 && s[i] == '#';
    assert s[i + 1..i + 2] == x && s[i + 2..i + 3] == y && s[i + 3..i + 4] == z && s[i + 4..] == w2;
    TokAt(s, 0, i, '#');
    assert s[i + 1] == x[0] && s[i + 2] == y[0] && s[i + 3] == z[0];
    assert forall m | i + 4 <= m < |s| :: s[m] == w2[m - i - 4];
    SpanIs(s, i + 4, |s|, Space);
  }

  /** After spaces from `j` to `i`, the digit run `x` at `i` and the separator after it are what one field of `Rgb` reads. */
  lemma DigitsField(s: string, j: nat, i: nat, x: string, sep: char)
    requires j <= i && i + |x| < |s| && Digits(x) && s[i..i + |x|] == x
    requires forall m | j <= m < i :: IsSpace(s[m])
    requires s[i + |x|] == sep && (sep == ',' || sep == ')')
    ensures Group(s, j, Digit) == Some((i, i + |x|))
    ensures Tok(s, i + |x|, sep) == Some(i + |x| + 1)
  {
    assert forall m | i <= m < i + |x| :: s[m] == x[m - i];
    GroupAt(s, j, i, i + |x|, Digit);
    TokAt(s, i + |x|, i + |x|, sep);
  }

  /** The `rgb(` head of an `Rgb` text. */
  lemma RgbHead(s: string)
    requires |s| > 4 && s[0] == 'r' && s[1] == 'g' && s[2] == 'b' && s[3] == '('
    ensures WordAt(s, 0, "rgb") == Some(3) && Tok(s, 3, '(') == Some(4)
  {
    SpanIs(s, 0, 0, Space);
    TokAt(s, 3, 3, '(');
  }

  /** What `Rgb` returns once each of its steps is known. */
  lemma RgbSteps(s: string, p0: nat, p1: nat, g1: (nat, nat), p2: nat, g2: (nat, nat), p3: nat, g3: (nat, nat), p4: nat)
    requires WordAt(s, 0, "rgb") == Some(p0) && p0 <= |s| && Tok(s, p0, '(') == Some(p1)
    requires Group(s, p1, Digit) == Some(g1) && Tok(s, g1.1, ',') == Some(p2)
    requires Group(s, p2, Digit) == Some(g2) && Tok(s, g2.1, ',') == Some(p3)
    requires Group(s, p3, Digit) == Some(g3) && Tok(s, g3.1, ')') == Some(p4)
    requires End(s, p4)
    ensures Rgb(s) == Some((s[g1.0..g1.1], s[g2.0..g2.1], s[g3.0..g3.1]))
  {
  }

  /** `Rgb` accepts a text laid out character by character as `rgb(x, y, z)`. */
  lemma RgbAcceptsLayout(s: string, x: string, y: string, z: string)
    requires Digits(x) && Digits(y) && Digits(z)
    requires var e1 := 4 + |x|; var e2 := e1 + 2 + |y|; var e3 := e2 + 2 + |z|;
      |s| == e3 + 1 && s[0] == 'r' && s[1] == 'g' && s[2] == 'b' && s[3] == '('
      && s[4..e1] == x && s[e1] == ',' && s[e1 + 1] == ' '
      && s[e1 + 2..e2] == y && s[e2] == ',' && s[e2 + 1] == ' '
      && s[e2 + 2..e3] == z && s[e3] == ')'
    ensures Rgb(s) == Some((x, y, z))
  {
    var e1 := 4 + |x|;
    var e2 := e1 + 2 + |y|;
    var e3 := e2 + 2 + |z|;
    RgbHead(s);
    DigitsField(s, 4, 4, x, ',');
    DigitsField(s, e1 + 1, e1 + 2, y, ',');
    DigitsField(s, e2 + 1, e2 + 2, z, ')');
    SpanIs(s, e3 + 1, |s|, Space);
    RgbSteps(s, 3, 4, (4, e1), e1 + 1, (e1 + 2, e2), e2 + 1, (e2 + 2, e3), e3 + 1);
  }

  /** `rgb(x, y, z)` with decimal digit runs, as `toString("rgb")` writes it, is what `Rgb` captures. */
  lemma RgbAccepts(x: string, y: string, z: string)
    requires Digits(x) && Digits(y) && Digits(z)
    ensures Rgb("rgb(" + x + ", " + y + ", " + z + ")") == Some((x, y, z))
  {
    var s := "rgb(" + x + ", " + y + ", " + z + ")";
    var e1 := 4 + |x|;
    var e2 := e1 + 2 + |y|;
    var e3 := e2 + 2 + |z|;
    assert s[4..e1] == x && s[e1] == ',' && s[e1 + 1] == ' ';
    assert s[e1 + 2..e2] == y && s[e2] == ',' && s[e2 + 1] == ' ';
    assert s[e2 + 2..e3] == z && s[e3] == ')';
    RgbAcceptsLayout(s, x, y, z);
  }

  /** What `Rgba` returns once each of its steps is known. */
  lemma RgbaSteps(s: string, p0: nat, p1: nat, g1: (nat, nat), p2: nat, g2: (nat, nat), p3: nat, g3: (nat, nat),
                  p4: nat, g4: (nat, nat), p5: nat)
    requires WordAt(s, 0, "rgba") == Some(p0) && p0 <= |s| && Tok(s, p0, '(') == Some(p1)
    requires Group(s, p1, Digit) == Some(g1) && Tok(s, g1.1, ',') == Some(p2)
    requires Group(s, p2, Digit) == Some(g2) && Tok(s, g2.1, ',') == Some(p3)
    requires Group(s, p3, Digit) == Some(g3) && Tok(s, g3.1, ',') == Some(p4)
    requires Group(s, p4, DigitOrDot) == Some(g4) && Tok(s, g4.1, ')') == Some(p5)
    requires End(s, p5)
    ensures Rgba(s) == Some((s[g1.0..g1.1], s[g2.0..g2.1], s[g3.0..g3.1], s[g4.0..g4.1]))
  {
  }
}

/**
 * Properties of the colour model: construction, the `#` and `rgb` round trips through
 * `toString` and `parse`, the 3-digit hex form, the alpha override, `transparent`,
 * unrecognised input, the named-colour lookups, the `toString` selectors, `equals`,
 * `from` and `bestAlpha`.
 */
module ColorProperties {
  import opened Common
  import opened Text
  import opened Patterns
  import opened NamedColors
  import opened Colors

  // ---------------------------------------------------------------------------
  // Construction

  /** `new Color()` is opaque black. */
  lemma ConstructDefaults()
    ensures Construct(None, None, None, None) == Ok(ColorState(0, 0, 0, 1.0, None))
  {
  }

  /** Integer channels and an alpha in range are stored exactly. */
  lemma ConstructExact(r: int, g: int, b: int, a: real)
    requires 0 <= r <= 255 && 0 <= g <= 255 && 0 <= b <= 255 && 0.0 <= a <= 1.0
    ensures Construct(Some(Finite(r as real)), Some(Finite(g as real)), Some(Finite(b as real)), Some(Finite(a)))
            == Ok(ColorState(r, g, b, a, None))
  {
  }

  /** `fromRatios` of integer arguments stores the integer quotients by 256. */
  lemma FromRatiosQuotients(r: nat, g: nat, b: nat)
    requires r < 65536 && g < 65536 && b < 65536
    ensures FromRatios(Finite(r as real), Finite(g as real), Finite(b as real), None)
            == Ok(ColorState(r / 256, g / 256, b / 256, 1.0, None))
  {
    var res := FromRatios(Finite(r as real), Finite(g as real), Finite(b as real), None);
    FloorOfQuotient(r);
    FloorOfQuotient(g);
    FloorOfQuotient(b);
    FloorUnique(res.value.r, r / 256, r as real / 256.0);
    FloorUnique(res.value.g, g / 256, g as real / 256.0);
    FloorUnique(res.value.b, b / 256, b as real / 256.0);
  }

  /** `Math.floor` has one answer. */
  lemma FloorUnique(m: int, n: int, x: real)
    requires IsFloor(m, x) && IsFloor(n, x)
    ensures m == n
  {
  }

  lemma FloorOfQuotient(n: nat)
    ensures IsFloor(n / 256, n as real / 256.0)
  {
    var q := n / 256;
    assert q * 256 <= n < q * 256 + 256;
    assert (q * 256) as real == q as real * 256.0;
  }

  // ---------------------------------------------------------------------------
  // The `#` selector and 6-digit hex parsing

  /** `toString("#")` is `#` followed by six lower-case hexadecimal digits. */
  lemma HexFormat(t: Table, c: ColorState, alphaText: real -> string)
    requires Wf(c)
    ensures ToString(t, c, Some("#"), alphaText) == Ok(Formatted(HexString(c)))
    ensures |HexString(c)| == 7 && HexString(c)[0] == '#'
    ensures forall i | 1 <= i < 7 :: IsLowerHexDigit(HexString(c)[i])
  {
    FixedSelector("#");
  }

  /** The number a two-digit hex text written by `to2PlaceHex` stands for. */
  lemma HexPairOf(n: nat)
    requires n < 256
    ensures HexPair(To2PlaceHex(n)) && HexNumber(To2PlaceHex(n)) == Finite(n as real)
  {
    var x := To2PlaceHex(n);
    assert x == [x[0], x[1]];
  }

  /** `parse` of the `#` text, with any white space around it, recovers the channels with alpha 1 and no name. */
  lemma HexRoundTrip(t: Table, c: ColorState, w1: string, w2: string)
    requires Wf(c) && AllIn(Space, w1) && AllIn(Space, w2)
    ensures ParseResult(t, w1 + HexString(c) + w2, None) == Ok(ColorState(c.r, c.g, c.b, 1.0, None))
  {
    var x, y, z := To2PlaceHex(c.r), To2PlaceHex(c.g), To2PlaceHex(c.b);
    assert w1 + HexString(c) + w2 == w1 + "#" + x + y + z + w2;
    HexPairOf(c.r);
    HexPairOf(c.g);
    HexPairOf(c.b);
    Hex6Accepts(w1, x, y, z, w2);
  }

  // ---------------------------------------------------------------------------
  // The `rgb` selector and `rgb(...)` parsing

  /** `toString("rgb")` writes `rgb(r, g, b)`. */
  lemma RgbFormat(t: Table, c: ColorState, alphaText: real -> string)
    requires Wf(c)
    ensures ToString(t, c, Some("rgb"), alphaText) == Ok(Formatted(RgbString(c)))
  {
    FixedSelector("rgb");
  }

  /** `parse` reads the `rgb` text back with alpha 1 and no name. */
  lemma RgbRoundTrip(t: Table, c: ColorState)
    requires Wf(c)
    ensures ParseResult(t, RgbString(c), None) == Ok(ColorState(c.r, c.g, c.b, 1.0, None))
  {
    var s := RgbString(c);
    var x, y, z := DecimalText(c.r), DecimalText(c.g), DecimalText(c.b);
    assert s[0] == 'r';
    SpanIs(s, 0, 0, Space);
    RgbAccepts(x, y, z);
    ParseCallRgb(t, s, None);
  }

  // ---------------------------------------------------------------------------
  // 3-digit hex

  /** A doubled hex digit `dd` is worth 17 times the digit. */
  lemma DoubledDigit(d: char)
    requires IsHexDigit(d)
    ensures AllIn(HexDigit, [d] + [d]) && HexNumber([d] + [d]) == Finite((17 * DigitValue(d)) as real)
  {
    assert [d] + [d] == [d, d];
    ParseTwoDigits([d, d]);
  }

  /** `#xyz` gives each channel as 17 times its digit. */
  lemma Hex3Value(t: Table, d1: char, d2: char, d3: char)
    requires IsHexDigit(d1) && IsHexDigit(d2) && IsHexDigit(d3)
    ensures ParseResult(t, ['#', d1, d2, d3], None)
            == Ok(ColorState(17 * DigitValue(d1), 17 * DigitValue(d2), 17 * DigitValue(d3), 1.0, None))
  {
    Hex3Call(t, d1, d2, d3);
    DoubledDigit(d1);
    DoubledDigit(d2);
    DoubledDigit(d3);
  }

  /** `#xyz` reaches the 3-digit branch of `parse` with the digits captured one by one. */
  lemma Hex3Call(t: Table, d1: char, d2: char, d3: char)
    requires IsHexDigit(d1) && IsHexDigit(d2) && IsHexDigit(d3)
    ensures AllIn(HexDigit, [d1] + [d1]) && AllIn(HexDigit, [d2] + [d2]) && AllIn(HexDigit, [d3] + [d3])
    ensures ParseCall(t, ['#', d1, d2, d3], None)
            == Ok(NewColor(HexNumber([d1] + [d1]), HexNumber([d2] + [d2]), HexNumber([d3] + [d3]), None, None))
  {
    var s3 := ['#', d1, d2, d3];
    assert s3 == "" + "#" + [d1] + [d2] + [d3] + "";
    assert '(' !in s3;
    Hex3Accepts("", [d1], [d2], [d3], "");
    ParseCallHex3(t, s3, None);
  }

  /** `#xxyyzz` gives each channel as 17 times its digit. */
  lemma Hex6DoubledValue(t: Table, d1: char, d2: char, d3: char)
    requires IsHexDigit(d1) && IsHexDigit(d2) && IsHexDigit(d3)
    ensures ParseResult(t, ['#', d1, d1, d2, d2, d3, d3], None)
            == Ok(ColorState(17 * DigitValue(d1), 17 * DigitValue(d2), 17 * DigitValue(d3), 1.0, None))
  {
    var s6 := ['#', d1, d1, d2, d2, d3, d3];
    assert s6 == "" + "#" + ([d1] + [d1]) + ([d2] + [d2]) + ([d3] + [d3]) + "";
    DoubledDigit(d1);
    DoubledDigit(d2);
    DoubledDigit(d3);
    Hex6Accepts("", [d1] + [d1], [d2] + [d2], [d3] + [d3], "");
  }

  /** `#xyz` and `#xxyyzz` are the same colour. */
  lemma Hex3Channels(t: Table, d1: char, d2: char, d3: char)
    requires IsHexDigit(d1) && IsHexDigit(d2) && IsHexDigit(d3)
    ensures ParseResult(t, ['#', d1, d2, d3], None) == ParseResult(t, ['#', d1, d1, d2, d2, d3, d3], None)
  {
    Hex3Value(t, d1, d2, d3);
    Hex6DoubledValue(t, d1, d2, d3);
  }

  // ---------------------------------------------------------------------------
  // Alpha override, `transparent`, unrecognised input

  /** Up to the constructor call, an alpha argument changes only the alpha passed on. */
  lemma ParseCallAlpha(t: Table, c: string, x: Number)
    ensures ParseCall(t, c, Some(x)).Ok? == ParseCall(t, c, None).Ok?
    ensures ParseCall(t, c, None).Ok? ==> ParseCall(t, c, Some(x)) == Ok(ParseCall(t, c, None).value.(a := Some(x)))
    ensures ParseCall(t, c, None).Err? ==> ParseCall(t, c, Some(x)) == ParseCall(t, c, None)
  {
    if Hex6(c).Some? {
      ParseCallHex6(t, c, Some(x));
      ParseCallHex6(t, c, None);
    } else if Rgb(c).Some? {
      ParseCallRgb(t, c, Some(x));
      ParseCallRgb(t, c, None);
    } else if Rgba(c).Some? {
      ParseCallRgba(t, c, Some(x));
      ParseCallRgba(t, c, None);
    } else if Hex3(c).Some? {
      ParseCallHex3After(t, c, Some(x));
      ParseCallHex3After(t, c, None);
    } else if Hsl(c).Some? {
      ParseCallHsl(t, c, Some(x));
      ParseCallHsl(t, c, None);
    } else if Hsla(c).Some? {
      ParseCallHsla(t, c, Some(x));
      ParseCallHsla(t, c, None);
    } else if Lower(c) == "transparent" {
      ParseCallTransparent(t, c, Some(x));
      ParseCallTransparent(t, c, None);
    } else {
      ParseCallName(t, c, Some(x));
      ParseCallName(t, c, None);
    }
  }

  /** A numeric alpha argument replaces whatever alpha the text gives, and nothing else. */
  lemma ParseAlphaOverride(t: Table, c: string, x: Number)
    requires InUnitRange(x)
    ensures ParseResult(t, c, None).Ok? ==> ParseResult(t, c, Some(x)) == Ok(ParseResult(t, c, None).value.(a := x.v))
    ensures ParseResult(t, c, Some(x)).Ok? ==> ParseResult(t, c, Some(x)).value.a == x.v
  {
    ParseCallAlpha(t, c, x);
  }

  /** A text without `#` or `(` has none of the recognised shapes. */
  lemma NoShapeWithout(c: string)
    requires '#' !in c && '(' !in c
    ensures NoShape(c)
  {
  }

  /** `transparent`, in any case, is (0, 0, 0, 0) unless an alpha argument is given. */
  lemma ParseTransparent(t: Table, c: string, a: Option<Number>)
    requires Lower(c) == "transparent"
    requires a.Some? ==> InUnitRange(a.value)
    ensures ParseResult(t, c, a) == Ok(ColorState(0, 0, 0, a.GetOr(Finite(0.0)).v, None))
  {
    TransparentNoShape(c);
    ParseCallTransparent(t, c, a);
    BuildWhole(0, 0, 0, Some(a.GetOr(Finite(0.0))), None);
  }

  /** Any text that lower-cases to `transparent` has neither `#` nor `(`, so no recogniser accepts it. */
  lemma TransparentNoShape(c: string)
    requires Lower(c) == "transparent"
    ensures NoShape(c)
  {
    assert '#' !in "transparent" && '(' !in "transparent";
    LowerMisses(c, '#');
    LowerMisses(c, '(');
    NoShapeWithout(c);
  }

  /** `parse` throws "Unrecognized color format" exactly when no recogniser, `transparent` or table name applies. */
  lemma ParseUnrecognized(t: Table, c: string, a: Option<Number>)
    ensures ParseResult(t, c, a) == Err(Unrecognized(c)) <==>
      NoShape(c) && Lower(c) != "transparent" && forall j | 0 <= j < |t| :: Lower(t[j].name) != Lower(c)
  {
    if !NoShape(c) {
      ShapedRecognized(t, c, a);
    } else if Lower(c) == "transparent" {
      TransparentRecognized(t, c, a);
    } else {
      NameLookupUnrecognized(t, c, a);
    }
  }

  lemma ShapedRecognized(t: Table, c: string, a: Option<Number>)
    requires !NoShape(c)
    ensures ParseResult(t, c, a) != Err(Unrecognized(c))
  {
    ParseCallShapedError(t, c, a);
  }

  lemma TransparentRecognized(t: Table, c: string, a: Option<Number>)
    requires NoShape(c) && Lower(c) == "transparent"
    ensures ParseResult(t, c, a) != Err(Unrecognized(c))
  {
    ParseCallTransparent(t, c, a);
  }

  /** Past the recognisers and `transparent`, only a failed table lookup throws "Unrecognized color format". */
  lemma NameLookupUnrecognized(t: Table, c: string, a: Option<Number>)
    requires NoShape(c) && Lower(c) != "transparent"
    ensures ParseResult(t, c, a) == Err(Unrecognized(c)) <==> IndexOfName(t, c).None?
  {
    ParseCallName(t, c, a);
  }

  // ---------------------------------------------------------------------------
  // Table names

  /** A name made of lower-case ASCII letters, as the names of the CSS colour table are. */
  predicate PlainName(n: string) {
    |n| > 0 && forall k | 0 <= k < |n| :: 'a' <= n[k] <= 'z'
  }

  /** Every name of the table is plain. */
  predicate PlainTable(t: Table) {
    forall j | 0 <= j < |t| :: PlainName(t[j].name)
  }

  lemma PlainLower(n: string)
    requires PlainName(n)
    ensures Lower(n) == n && '#' !in n && '(' !in n && ' ' !in n
  {
    LowerOfFixed(n);
  }

  /** In a table of plain names, a name's lower-cased lookup finds its own entry. */
  lemma IndexOfOwnName(t: Table, i: nat)
    requires i < |t| && PlainTable(t)
    ensures IndexOfName(t, t[i].name) == Some(i)
  {
    PlainLower(t[i].name);
    var k := IndexOfName(t, t[i].name);
    assert k.Some?;
    PlainLower(t[k.value].name);
  }

  /**
   * `parse` of a text that the lower-cased lookup finds at entry `i` gives that entry's
   * channels and caches the entry's own spelling of the name, whatever the spelling of the
   * query; `toName` then returns that name, even when an earlier entry has the same channels.
   */
  lemma ParseTableName(t: Table, c: string, i: nat, a: Option<Number>)
    requires NoShape(c) && Lower(c) != "transparent" && IndexOfName(t, c) == Some(i)
    requires t[i].name != ""
    requires a.Some? ==> InUnitRange(a.value)
    ensures ParseResult(t, c, a) == Ok(ColorState(t[i].r, t[i].g, t[i].b, a.GetOr(Finite(1.0)).v, Some(t[i].name)))
    ensures NameOf(t, ParseResult(t, c, a).value) == Some(t[i].name)
  {
    ParseCallName(t, c, a);
    BuildWhole(t[i].r, t[i].g, t[i].b, a, Some(t[i].name));
    KeyIndexOf(t, i);
  }

  /** In particular, with plain names, `parse` of an entry's own name gives that entry. */
  lemma ParseOwnName(t: Table, i: nat, a: Option<Number>)
    requires i < |t| && PlainTable(t) && t[i].name != "transparent"
    requires a.Some? ==> InUnitRange(a.value)
    ensures ParseResult(t, t[i].name, a)
            == Ok(ColorState(t[i].r, t[i].g, t[i].b, a.GetOr(Finite(1.0)).v, Some(t[i].name)))
    ensures NameOf(t, ParseResult(t, t[i].name, a).value) == Some(t[i].name)
  {
    var n := t[i].name;
    PlainLower(n);
    NoShapeWithout(n);
    IndexOfOwnName(t, i);
    ParseTableName(t, n, i, a);
  }

  lemma LowerFirstSpace(c: string)
    requires |c| > 0 && c[0] == ' '
    ensures |Lower(c)| > 0 && Lower(c)[0] == ' '
  {
    assert Lower(c) == LowerChar(' ') + Lower(c[1..]);
  }

  lemma LowerLastSpace(c: string)
    requires |c| > 0 && c[|c| - 1] == ' '
    ensures |Lower(c)| > 0 && Lower(c)[|Lower(c)| - 1] == ' '
  {
    assert c == c[..|c| - 1] + [' '];
    LowerAppend(c[..|c| - 1], [' ']);
    assert Lower([' ']) == LowerChar(' ') + Lower([]);
  }

  /** A text that starts or ends with a space has no lower-cased table name when the table's names are plain. */
  lemma NoSpacedName(t: Table, c: string)
    requires PlainTable(t) && |c| > 0 && (c[0] == ' ' || c[|c| - 1] == ' ')
    ensures forall j | 0 <= j < |t| :: Lower(t[j].name) != Lower(c)
  {
    if c[0] == ' ' {
      LowerFirstSpace(c);
    } else {
      LowerLastSpace(c);
    }
    forall j | 0 <= j < |t|
      ensures Lower(t[j].name) != Lower(c)
    {
      PlainLower(t[j].name);
    }
  }

  /** A text without `#` or `(` that starts or ends with a space is unrecognised when the table's names are plain. */
  lemma SpacedUnrecognized(t: Table, c: string, a: Option<Number>)
    requires PlainTable(t) && |c| > 0 && (c[0] == ' ' || c[|c| - 1] == ' ')
    requires '#' !in c && '(' !in c
    ensures ParseResult(t, c, a) == Err(Unrecognized(c))
  {
    NoShapeWithout(c);
    NoSpacedName(t, c);
    if c[0] == ' ' {
      LowerFirstSpace(c);
      assert Lower(c)[0] != "transparent"[0];
    } else {
      LowerLastSpace(c);
      assert "transparent"[|"transparent"| - 1] == 't';
    }
    ParseUnrecognized(t, c, a);
  }

  /** Table names are not trimmed: a plain name with a space before or after it is unrecognised. */
  lemma SpacedNameUnrecognized(t: Table, i: nat, a: Option<Number>)
    requires i < |t| && PlainTable(t)
    ensures ParseResult(t, " " + t[i].name, a) == Err(Unrecognized(" " + t[i].name))
    ensures ParseResult(t, t[i].name + " ", a) == Err(Unrecognized(t[i].name + " "))
  {
    var n := t[i].name;
    PlainLower(n);
    SpacedUnrecognized(t, " " + n, a);
    SpacedUnrecognized(t, n + " ", a);
  }

  /** `transparent` is not trimmed either. */
  lemma SpacedTransparentUnrecognized(t: Table, a: Option<Number>)
    requires PlainTable(t)
    ensures ParseResult(t, " transparent", a) == Err(Unrecognized(" transparent"))
  {
    SpacedUnrecognized(t, " transparent", a);
  }

  // ---------------------------------------------------------------------------
  // `toName`

  /** Without a usable cached name, `toName` is the first entry, in table order, with the colour's channels. */
  lemma NameOfFirstMatch(t: Table, c: ColorState, i: nat)
    requires !HintHolds(t, c) && i < |t|
    requires t[i].r == c.r && t[i].g == c.g && t[i].b == c.b
    requires forall j | 0 <= j < i :: !(t[j].r == c.r && t[j].g == c.g && t[j].b == c.b)
    ensures NameOf(t, c) == Some(t[i].name)
  {
    var k := FirstWithChannels(t, c.r, c.g, c.b, 0);
    assert k == Some(i);
  }

  /** `toName` finds nothing exactly when there is no usable cached name and no entry has the colour's channels. */
  lemma NameOfNone(t: Table, c: ColorState)
    ensures NameOf(t, c).None? <==>
      !HintHolds(t, c) && forall j | 0 <= j < |t| :: !(t[j].r == c.r && t[j].g == c.g && t[j].b == c.b)
  {
  }

  /** `toName` does not look at alpha. */
  lemma NameOfIgnoresAlpha(t: Table, c: ColorState, x: real)
    ensures NameOf(t, c.(a := x)) == NameOf(t, c)
  {
  }

  // ---------------------------------------------------------------------------
  // `matchesName`

  /**
   * `matchesName` ignores case; for `transparent` it is `a == 0` whatever the channels;
   * for a name not in the table it is false; otherwise it compares r, g and b of the
   * first entry with that lower-cased name, and not alpha.
   */
  lemma MatchesNameSpec(t: Table, c: ColorState, n: string)
    ensures MatchesName(t, c, Lower(n)) == MatchesName(t, c, n)
    ensures Lower(n) == "transparent" ==> (MatchesName(t, c, n) <==> c.a == 0.0)
    ensures Lower(n) != "transparent" && (forall j | 0 <= j < |t| :: Lower(t[j].name) != Lower(n))
            ==> !MatchesName(t, c, n)
    ensures Lower(n) != "transparent" ==> forall x: real :: MatchesName(t, c.(a := x), n) == MatchesName(t, c, n)
  {
    LowerIdempotent(n);
  }

  lemma MatchesNameChannels(t: Table, c: ColorState, n: string, i: nat)
    requires Lower(n) != "transparent" && i < |t| && Lower(t[i].name) == Lower(n)
    requires forall j | 0 <= j < i :: Lower(t[j].name) != Lower(n)
    ensures MatchesName(t, c, n) <==> c.r == t[i].r && c.g == t[i].g && c.b == t[i].b
  {
    LowerIdempotent(n);
    var k := IndexOfName(t, Lower(n));
    assert k == Some(i);
  }

  // ---------------------------------------------------------------------------
  // `toString` selectors

  /** A selector that lower-casing leaves alone is used as it is. */
  lemma FixedSelector(f: string)
    requires f != "" && LowerFixed(f)
    ensures Selector(Some(f)) == f
  {
    LowerOfFixed(f);
  }

  /** No selector, or an empty one, means `rgba`. */
  lemma ToStringDefault(t: Table, c: ColorState, alphaText: real -> string)
    requires Wf(c)
    ensures ToString(t, c, None, alphaText) == ToString(t, c, Some(""), alphaText)
    ensures ToString(t, c, None, alphaText) == ToString(t, c, Some("rgba"), alphaText)
    ensures ToString(t, c, None, alphaText) == Ok(Formatted("rgba(" + DecimalText(c.r) + ", " + DecimalText(c.g)
                                                   + ", " + DecimalText(c.b) + ", " + alphaText(c.a) + ")"))
  {
    FixedSelector("rgba");
    assert "rgba"[..4] != "name" by { assert "rgba"[0] != "name"[0]; }
  }

  /** Selectors are compared lower-cased. */
  lemma ToStringIgnoresCase(t: Table, c: ColorState, f: string, alphaText: real -> string)
    requires Wf(c) && f != ""
    ensures ToString(t, c, Some(f), alphaText) == ToString(t, c, Some(Lower(f)), alphaText)
  {
    LowerIdempotent(f);
    assert Lower(f) == LowerChar(f[0]) + Lower(f[1..]);
  }

  /** A selector starting with `name` gives the colour's name when it has a non-empty one. */
  lemma ToStringName(t: Table, c: ColorState, f: string, alphaText: real -> string)
    requires Wf(c) && StartsWith(Lower(f), "name")
    requires NameOf(t, c).Some? && NameOf(t, c).value != ""
    ensures ToString(t, c, Some(f), alphaText) == Ok(Formatted(NameOf(t, c).value))
  {
  }

  /** Exactly `name` on a colour without a name throws "color is not a named color". */
  lemma ToStringNameUnnamed(t: Table, c: ColorState, alphaText: real -> string)
    requires Wf(c) && NameOf(t, c).None?
    ensures ToString(t, c, Some("name"), alphaText) == Err(NotNamed)
  {
    FixedSelector("name");
    assert "name"[..4] == "name";
  }

  /** `name?` falls back to `rgb` on a colour without a name. */
  lemma ToStringNameRgbFallback(t: Table, c: ColorState, alphaText: real -> string)
    requires Wf(c) && NameOf(t, c).None?
    ensures ToString(t, c, Some("name?"), alphaText) == Ok(Formatted(RgbString(c)))
  {
    FixedSelector("name?");
    assert "name?"[..4] == "name" && "name?"[5..] == "";
  }

  /** `name?#` falls back to `#` on a colour without a name. */
  lemma ToStringNameHexFallback(t: Table, c: ColorState, alphaText: real -> string)
    requires Wf(c) && NameOf(t, c).None?
    ensures ToString(t, c, Some("name?#"), alphaText) == Ok(Formatted(HexString(c)))
  {
    FixedSelector("name?#");
    assert "name?#"[..4] == "name" && "name?#"[5..] == "#";
  }

  /** Any other selector goes to the HSL formatter, with alpha for `hsla` only. */
  lemma ToStringOther(t: Table, c: ColorState, f: string, alphaText: real -> string)
    requires Wf(c) && f != ""
    requires !StartsWith(Lower(f), "name") && Lower(f) != "rgba" && Lower(f) != "rgb" && Lower(f) != "#"
    ensures ToString(t, c, Some(f), alphaText) == Ok(ViaHsl(Lower(f) == "hsla"))
  {
  }

  // ---------------------------------------------------------------------------
  // `equals`, `from`, `fromRgb`, `fromHsl`

  /** As written, `equals` without `ignoreAlpha` compares alpha only; with it, equal channels or equal alpha suffice. */
  lemma EqualsAsWritten(t: Table, c: ColorState, o: ColorState)
    ensures Equals(t, c, Existing(o), false) == Ok(c.a == o.a)
    ensures Equals(t, c, Existing(o), true) == Ok((c.r == o.r && c.g == o.g && c.b == o.b) || c.a == o.a)
  {
  }

  /** `from` of an existing colour is a copy without the cached name, its alpha replaced by a numeric argument. */
  lemma FromExistingCopies(t: Table, c: ColorState, a: Option<Number>)
    requires Wf(c)
    ensures a.None? ==> From(t, Existing(c), a) == Ok(c.(name := None))
    ensures a.Some? && InUnitRange(a.value) ==> From(t, Existing(c), a) == Ok(c.(name := None, a := a.value.v))
    ensures a.Some? && !InUnitRange(a.value) ==> From(t, Existing(c), a) == Err(OutOfRange(A, a.value))
  {
  }

  /** `fromRgb`: a numeric alpha argument wins over the value's own alpha, which wins over 1. */
  lemma FromRgbAlpha(rgb: RgbInput, a: Option<Number>)
    ensures FromRgb(rgb, a).Ok? ==>
      FromRgb(rgb, a).value.a == (if a.Some? then a.value else rgb.a.GetOr(Finite(1.0))).v
    ensures FromRgb(rgb, a).Ok? <==>
      (ChannelInRange(rgb.r) && ChannelInRange(rgb.g) && ChannelInRange(rgb.b)
       && InUnitRange(if a.Some? then a.value else rgb.a.GetOr(Finite(1.0))))
  {
  }

  /**
   * `fromHsl` checks h, s and l in that order, each against [0, 1], then the constructor
   * checks the channels and alpha. NaN passes the HSL checks: a NaN s or l gives NaN
   * channels, which the r setter refuses; a NaN hue gives a gray. With s = 0 every channel
   * is `Math.round(l * 255)`.
   */
  lemma FromHslSpec(hsl: HslInput, a: Option<Number>)
    ensures var alpha := if a.Some? then a else hsl.a;
      FromHsl(hsl, a).Ok? <==> !OutsideUnit(hsl.h) && InUnitRange(hsl.s) && InUnitRange(hsl.l)
                               && (alpha.Some? ==> InUnitRange(alpha.value))
    ensures OutsideUnit(hsl.h) ==> FromHsl(hsl, a) == Err(OutOfRange(H, hsl.h))
    ensures !OutsideUnit(hsl.h) && OutsideUnit(hsl.s) ==> FromHsl(hsl, a) == Err(OutOfRange(S, hsl.s))
    ensures !OutsideUnit(hsl.h) && !OutsideUnit(hsl.s) && OutsideUnit(hsl.l) ==>
      FromHsl(hsl, a) == Err(OutOfRange(L, hsl.l))
    ensures !OutsideUnit(hsl.h) && !OutsideUnit(hsl.s) && !OutsideUnit(hsl.l) && (hsl.s.NaN? || hsl.l.NaN?) ==>
      FromHsl(hsl, a) == Err(OutOfRange(R, NaN))
    ensures FromHsl(hsl, a).Ok? ==> Wf(FromHsl(hsl, a).value) && FromHsl(hsl, a).value.name.None?
    ensures FromHsl(hsl, a).Ok? && hsl.s == Finite(0.0) ==>
      var c := FromHsl(hsl, a).value;
      c.r == c.g == c.b == Round(hsl.l.v * 255.0)
    ensures FromHsl(hsl, a).Ok? && hsl.h.NaN? ==>
      var c := FromHsl(hsl, a).value;
      c.r == c.g == c.b
  {
  }

  /** `hsl(.,0%,50%)` reaches `fromHsl(NaN, 0, 0.5)`, which gives the gray (128, 128, 128). */
  lemma HslNaNHueGray()
    ensures FromHsl(HslInput(NaN, Finite(0.0), Finite(0.5), None), None) == Ok(ColorState(128, 128, 128, 1.0, None))
  {
  }

  /** `hsl(.,100%,50%)` reaches `fromHsl(NaN, 1, 0.5)`: q = 1, p = 0, and every channel is p, so black. */
  lemma HslNaNHueSaturated()
    ensures FromHsl(HslInput(NaN, Finite(1.0), Finite(0.5), None), None) == Ok(ColorState(0, 0, 0, 1.0, None))
  {
  }

  // ---------------------------------------------------------------------------
  // `bestAlpha`

  lemma {:induction false} SumConstant(xs: seq<real>, x: real)
    requires forall i | 0 <= i < |xs| :: xs[i] == x
    ensures Sum(xs) == |xs| as real * x
  {
    if xs != [] {
      SumConstant(xs[1..], x);
    }
  }

  /** The ratio of a channel on the line from `bg` by fraction `x` is `x`. */
  lemma RatioOnLine(bg: int, ov: int, ap: int, x: real)
    requires bg != ov && (ap - bg) as real == x * (ov - bg) as real
    ensures Ratio(bg, ov, ap) == x
  {
  }

  /** Channels that blend background into overlay by the same fraction `x` give `bestAlpha` `x`. */
  lemma BestAlphaRecovers(bg: ColorState, ov: ColorState, ap: ColorState, x: real)
    requires (ap.r - bg.r) as real == x * (ov.r - bg.r) as real
    requires (ap.g - bg.g) as real == x * (ov.g - bg.g) as real
    requires (ap.b - bg.b) as real == x * (ov.b - bg.b) as real
    requires bg.r != ov.r || bg.g != ov.g || bg.b != ov.b
    ensures BestAlphaOf(bg, ov, ap) == x
  {
    var xs := BlendRatios(bg, ov, ap);
    if bg.r != ov.r { RatioOnLine(bg.r, ov.r, ap.r, x); }
    if bg.g != ov.g { RatioOnLine(bg.g, ov.g, ap.g, x); }
    if bg.b != ov.b { RatioOnLine(bg.b, ov.b, ap.b, x); }
    assert forall i | 0 <= i < |xs| :: xs[i] == x;
    SumConstant(xs, x);
  }

  /** Background and overlay that agree on every channel give 1. */
  lemma BestAlphaAllAgree(bg: ColorState, ov: ColorState, ap: ColorState)
    requires bg.r == ov.r && bg.g == ov.g && bg.b == ov.b
    ensures BestAlphaOf(bg, ov, ap) == 1.0
  {
  }

  /** An apparent colour equal to the overlay gives 1. */
  lemma BestAlphaOfOverlay(bg: ColorState, ov: ColorState)
    ensures BestAlphaOf(bg, ov, ov) == 1.0
  {
    if bg.r != ov.r || bg.g != ov.g || bg.b != ov.b {
      BestAlphaRecovers(bg, ov, ov, 1.0);
    }
  }

  /** An apparent colour equal to the background, with some channel differing, gives 0. */
  lemma BestAlphaOfBackground(bg: ColorState, ov: ColorState)
    requires bg.r != ov.r || bg.g != ov.g || bg.b != ov.b
    ensures BestAlphaOf(bg, ov, bg) == 0.0
  {
    BestAlphaRecovers(bg, ov, bg, 0.0);
  }
}

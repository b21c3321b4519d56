/**
 * Two places where the library's code does not do what it evidently means to, each
 * written as the code has it and set against the corrected definition the rest of the
 * model uses.
 */
module AsWritten {
  import opened Common
  import opened Text
  import opened Patterns
  import opened NamedColors
  import opened Colors

  // ---------------------------------------------------------------------------
  // NaN passes the setters' range guards

  /** `x < 0`, `x >= 256` and the like on a JavaScript number: every comparison with NaN is false. */
  predicate Below(x: Number, bound: real) { x.Finite? && x.v < bound }
  predicate AtLeast(x: Number, bound: real) { x.Finite? && x.v >= bound }
  predicate Above(x: Number, bound: real) { x.Finite? && x.v > bound }

  /** `Math.floor` on a JavaScript number. */
  function FloorNumber(x: Number): Number {
    match x
    case Finite(v) => Finite(v.Floor as real)
    case NaN => NaN
  }

  /** The r/g/b setter as written: throws when `x < 0 || x >= 256`, else stores `Math.floor(x)`. */
  function ChannelSetterAsWritten(f: Field, x: Number): (res: Result<Number, ColorError>)
    ensures res.Err? <==> x.Finite? && (x.v < 0.0 || x.v >= 256.0)
    ensures res.Ok? ==> res.value.NaN? == x.NaN?
  {
    if Below(x, 0.0) || AtLeast(x, 256.0) then Err(OutOfRange(f, x)) else Ok(FloorNumber(x))
  }

  /** The alpha setter as written: throws when `x < 0 || x > 1`, else stores `x`. */
  function AlphaSetterAsWritten(x: Number): (res: Result<Number, ColorError>)
    ensures res.Err? <==> x.Finite? && (x.v < 0.0 || x.v > 1.0)
    ensures res.Ok? ==> res.value == x
  {
    if Below(x, 0.0) || Above(x, 1.0) then Err(OutOfRange(A, x)) else Ok(x)
  }

  /** As written, both setters store NaN: the stored value is then outside every range the setters promise. */
  lemma SettersAsWrittenStoreNaN(f: Field)
    ensures ChannelSetterAsWritten(f, NaN) == Ok(NaN) && !ChannelInRange(ChannelSetterAsWritten(f, NaN).value)
    ensures AlphaSetterAsWritten(NaN) == Ok(NaN) && !InUnitRange(AlphaSetterAsWritten(NaN).value)
  {
  }

  /** On every number other than NaN, the corrected setters agree with the ones as written. */
  lemma SettersAgreeOnNumbers(f: Field, x: Number)
    requires x.Finite?
    ensures ChannelSetterAsWritten(f, x).Ok? <==> CheckChannel(f, x).Ok?
    ensures CheckChannel(f, x).Ok? ==> ChannelSetterAsWritten(f, x) == Ok(Finite(CheckChannel(f, x).value as real))
    ensures AlphaSetterAsWritten(x).Ok? <==> CheckAlpha(x).Ok?
    ensures CheckAlpha(x).Ok? ==> AlphaSetterAsWritten(x) == Ok(Finite(CheckAlpha(x).value))
  {
  }

  /** The corrected setters refuse NaN, so every stored channel and alpha stays in range. */
  lemma CorrectedSettersRefuseNaN(f: Field)
    ensures CheckChannel(f, NaN) == Err(OutOfRange(f, NaN))
    ensures CheckAlpha(NaN) == Err(OutOfRange(A, NaN))
  {
  }

  /** The text that shows the gap: an `rgba` form whose alpha text is a lone dot. */
  const DotAlpha: string := "rgba(0,0,0,.)"

  lemma DotAlphaHead()
    ensures WordAt(DotAlpha, 0, "rgba") == Some(4) && Tok(DotAlpha, 4, '(') == Some(5)
  {
    RgbaHead(DotAlpha);
  }

  /** The `rgba(` head of a text. */
  lemma RgbaHead(s: string)
    requires |s| > 5 && s[0] == 'r' && s[1] == 'g' && s[2] == 'b' && s[3] == 'a' && s[4] == '('
    ensures WordAt(s, 0, "rgba") == Some(4) && Tok(s, 4, '(') == Some(5)
  {
    SpanIs(s, 0, 0, Space);
    TokAt(s, 4, 4, '(');
  }

  lemma DotAlphaFields()
    ensures Group(DotAlpha, 5, Digit) == Some((5, 6)) && Tok(DotAlpha, 6, ',') == Some(7)
    ensures Group(DotAlpha, 7, Digit) == Some((7, 8)) && Tok(DotAlpha, 8, ',') == Some(9)
    ensures Group(DotAlpha, 9, Digit) == Some((9, 10)) && Tok(DotAlpha, 10, ',') == Some(11)
    ensures Group(DotAlpha, 11, DigitOrDot) == Some((11, 12)) && Tok(DotAlpha, 12, ')') == Some(13)
    ensures End(DotAlpha, 13)
  {
    DotAlphaRedGreen();
    DotAlphaBlueAlpha();
  }

  lemma DotAlphaRedGreen()
    ensures Group(DotAlpha, 5, Digit) == Some((5, 6)) && Tok(DotAlpha, 6, ',') == Some(7)
    ensures Group(DotAlpha, 7, Digit) == Some((7, 8)) && Tok(DotAlpha, 8, ',') == Some(9)
  {
    GroupAt(DotAlpha, 5, 5, 6, Digit);
    TokAt(DotAlpha, 6, 6, ',');
    GroupAt(DotAlpha, 7, 7, 8, Digit);
    TokAt(DotAlpha, 8, 8, ',');
  }

  lemma DotAlphaBlueAlpha()
    ensures Group(DotAlpha, 9, Digit) == Some((9, 10)) && Tok(DotAlpha, 10, ',') == Some(11)
    ensures Group(DotAlpha, 11, DigitOrDot) == Some((11, 12)) && Tok(DotAlpha, 12, ')') == Some(13)
  {
    GroupAt(DotAlpha, 9, 9, 10, Digit);
    TokAt(DotAlpha, 10, 10, ',');
    GroupAt(DotAlpha, 11, 11, 12, DigitOrDot);
    TokAt(DotAlpha, 12, 12, ')');
  }

  lemma DotAlphaSteps()
    ensures Rgba(DotAlpha) == Some((DotAlpha[5..6], DotAlpha[7..8], DotAlpha[9..10], DotAlpha[11..12]))
  {
    DotAlphaHead();
    DotAlphaFields();
    RgbaSteps(DotAlpha, 4, 5, (5, 6), 7, (7, 8), 9, (9, 10), 11, (11, 12), 13);
  }

  lemma DotIsNaN()
    ensures ParseFloat(".") == NaN
  {
  }

  /** The `rgba` pattern accepts a lone `.` as the alpha text, and `parseFloat(".")` is NaN. */
  lemma DotAlphaText()
    ensures Rgba(DotAlpha) == Some(("0", "0", "0", "."))
    ensures ParseFloat(".") == NaN
  {
    DotAlphaSteps();
    DotIsNaN();
    DotAlphaSlices();
  }

  lemma DotAlphaSlices()
    ensures DotAlpha[5..6] == "0" && DotAlpha[7..8] == "0" && DotAlpha[9..10] == "0" && DotAlpha[11..12] == "."
  {
    assert DotAlpha[5] == '0' && DotAlpha[7] == '0' && DotAlpha[9] == '0' && DotAlpha[11] == '.';
  }

  /** Neither earlier pattern accepts it: it has no `#`, and `rgb` must be followed by `(`. */
  lemma DotAlphaEarlierPatterns()
    ensures Hex6(DotAlpha).None? && Rgb(DotAlpha).None?
  {
    NotHex6(DotAlpha);
    NotRgb(DotAlpha);
  }

  /** A text starting with a letter has no 6-digit hex form. */
  lemma NotHex6(s: string)
    requires |s| > 0 && s[0] == 'r'
    ensures Hex6(s).None?
  {
    SpanIs(s, 0, 0, Space);
  }

  /** A text starting with `rgba` is not of the `rgb(...)` form. */
  lemma NotRgb(s: string)
    requires |s| > 4 && s[0] == 'r' && s[1] == 'g' && s[2] == 'b' && s[3] == 'a'
    ensures Rgb(s).None?
  {
    SpanIs(s, 0, 0, Space);
    SpanIs(s, 3, 3, Space);
    assert WordAt(s, 0, "rgb") == Some(3);
    assert Tok(s, 3, '(').None?;
  }

  /** So `parse("rgba(0,0,0,.)")` reaches the alpha setter with NaN, which the corrected model refuses. */
  lemma DotAlphaRefused(t: Table)
    ensures ParseResult(t, DotAlpha, None) == Err(OutOfRange(A, NaN))
  {
    DotAlphaText();
    DotAlphaEarlierPatterns();
    ParseCallRgba(t, DotAlpha, None);
    ZeroText();
  }

  lemma ZeroText()
    ensures DecNumber("0") == Finite(0.0)
  {
    assert "0"[..0] == [];
  }

  // ---------------------------------------------------------------------------
  // `equals`: `&&` binds tighter than `?:`

  /** Black and white, both opaque, are equal as written and not equal as intended. */
  lemma EqualsPrecedenceWitness(t: Table)
    ensures var black, white := ColorState(0, 0, 0, 1.0, None), ColorState(255, 255, 255, 1.0, None);
      Equals(t, black, Existing(white), false) == Ok(true)
      && EqualsIntended(t, black, Existing(white), false) == Ok(false)
  {
  }

  /** Corrected, `equals` is an equivalence: reflexive, symmetric, and with `ignoreAlpha` blind to alpha alone. */
  lemma EqualsIntendedProperties(t: Table, c: ColorState, o: ColorState, ignoreAlpha: bool)
    ensures EqualsIntended(t, c, Existing(c), ignoreAlpha) == Ok(true)
    ensures EqualsIntended(t, c, Existing(o), ignoreAlpha) == EqualsIntended(t, o, Existing(c), ignoreAlpha)
    ensures EqualsIntended(t, c, Existing(o), true) == Ok(c.r == o.r && c.g == o.g && c.b == o.b)
    ensures EqualsIntended(t, c, Existing(o), false).value ==> EqualsIntended(t, c, Existing(o), true).value
  {
  }

  /** Where channels are equal, or `ignoreAlpha` is false and channels differ only when alpha does, the two agree. */
  lemma EqualsAgreeWhenChannelsEqual(t: Table, c: ColorState, o: ColorState, ignoreAlpha: bool)
    requires c.r == o.r && c.g == o.g && c.b == o.b
    ensures Equals(t, c, Existing(o), ignoreAlpha) == EqualsIntended(t, c, Existing(o), ignoreAlpha)
  {
  }
}

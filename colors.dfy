/**
 * The `Color` value type of the colour library, as values: the state a `Color` holds,
 * what its constructor, setters and static factories produce, the recogniser chain of
 * `parse`, the named-colour lookups, `toString`, `equals` and `bestAlpha`.
 * The mutable class itself is in module `ColorClass`.
 */
module Colors {
  import opened Common
  import opened Text
  import opened Patterns
  import opened NamedColors

  /** The field an error names: a channel, alpha, or one of the HSL inputs. */
  datatype Field = R | G | B | A | H | S | L

  /** What the library throws. */
  datatype ColorError =
    | OutOfRange(field: Field, value: Number)  // "<field> value out of [...] range: <value>"
    | Unrecognized(input: string)              // "Unrecognized color format <input>"
    | NotNamed                                 // "color is not a named color"

  /** The state of one `Color`: `_r`, `_g`, `_b`, `_a` and the cached name `_n`. */
  datatype ColorState = ColorState(r: int, g: int, b: int, a: real, name: Option<string>)

  /** The invariant every `Color` keeps: integer channels in [0, 255] and alpha in [0, 1]. */
  predicate Wf(c: ColorState) {
    0 <= c.r <= 255 && 0 <= c.g <= 255 && 0 <= c.b <= 255 && 0.0 <= c.a <= 1.0
  }

  /** `n` is `Math.floor(x)`. */
  predicate IsFloor(n: int, x: real) {
    n as real <= x < n as real + 1.0
  }

  /** What the r, g and b setters accept. NaN is refused (see the findings about the source's guard). */
  predicate ChannelInRange(x: Number) {
    x.Finite? && 0.0 <= x.v < 256.0
  }

  /** What the alpha setter accepts. NaN is refused (see the findings about the source's guard). */
  predicate InUnitRange(x: Number) {
    x.Finite? && 0.0 <= x.v <= 1.0
  }

  /** The r, g and b setters: a value outside [0, 256) throws; an accepted value is stored floored. */
  function CheckChannel(f: Field, x: Number): (res: Result<int, ColorError>)
    ensures res.Ok? <==> ChannelInRange(x)
    ensures res.Ok? ==> 0 <= res.value <= 255 && IsFloor(res.value, x.v)
    ensures res.Err? ==> res.error == OutOfRange(f, x)
  {
    if ChannelInRange(x) then Ok(x.v.Floor) else Err(OutOfRange(f, x))
  }

  /** The alpha setter: a value outside [0, 1] throws; an accepted value is stored as it is. */
  function CheckAlpha(x: Number): (res: Result<real, ColorError>)
    ensures res.Ok? <==> InUnitRange(x)
    ensures res.Ok? ==> res.value == x.v && 0.0 <= res.value <= 1.0
    ensures res.Err? ==> res.error == OutOfRange(A, x)
  {
    if InUnitRange(x) then Ok(x.v) else Err(OutOfRange(A, x))
  }

  /**
   * `new Color(r?, g?, b?, a?)`: a missing channel is 0 and a missing alpha 1; the setters
   * run in the order r, g, b, a and the first one that refuses its value throws.
   */
  function Construct(r: Option<Number>, g: Option<Number>, b: Option<Number>, a: Option<Number>): (res: Result<ColorState, ColorError>)
    ensures var rr, gg, bb, aa := r.GetOr(Finite(0.0)), g.GetOr(Finite(0.0)), b.GetOr(Finite(0.0)), a.GetOr(Finite(1.0));
      && (res.Ok? <==> ChannelInRange(rr) && ChannelInRange(gg) && ChannelInRange(bb) && InUnitRange(aa))
      && (res.Ok? ==> Wf(res.value) && res.value.name.None? && res.value.a == aa.v
                      && IsFloor(res.value.r, rr.v) && IsFloor(res.value.g, gg.v) && IsFloor(res.value.b, bb.v))
      && (!ChannelInRange(rr) ==> res == Err(OutOfRange(R, rr)))
      && (ChannelInRange(rr) && !ChannelInRange(gg) ==> res == Err(OutOfRange(G, gg)))
      && (ChannelInRange(rr) && ChannelInRange(gg) && !ChannelInRange(bb) ==> res == Err(OutOfRange(B, bb)))
      && (ChannelInRange(rr) && ChannelInRange(gg) && ChannelInRange(bb) && !InUnitRange(aa) ==> res == Err(OutOfRange(A, aa)))
    ensures res.Err? ==> res.error.OutOfRange?
  {
    var rr :- CheckChannel(R, r.GetOr(Finite(0.0)));
    var gg :- CheckChannel(G, g.GetOr(Finite(0.0)));
    var bb :- CheckChannel(B, b.GetOr(Finite(0.0)));
    var aa :- CheckAlpha(a.GetOr(Finite(1.0)));
    Ok(ColorState(rr, gg, bb, aa, None))
  }

  /** The arguments of one `new Color(r, g, b, a)` call, and the name the caller caches on the result. */
  datatype NewColor = NewColor(r: Number, g: Number, b: Number, a: Option<Number>, hint: Option<string>)

  /** Run the constructor on `n` and attach its name hint. */
  function Build(n: NewColor): (res: Result<ColorState, ColorError>)
    ensures res.Ok? <==> ChannelInRange(n.r) && ChannelInRange(n.g) && ChannelInRange(n.b)
                         && (n.a.Some? ==> InUnitRange(n.a.value))
    ensures res.Ok? ==> Wf(res.value) && res.value.name == n.hint
    ensures res.Ok? ==> res.value.a == n.a.GetOr(Finite(1.0)).v
    ensures res.Err? ==> Construct(Some(n.r), Some(n.g), Some(n.b), n.a) == Err(res.error)
    ensures res.Err? ==> res.error.OutOfRange?
  {
    var c :- Construct(Some(n.r), Some(n.g), Some(n.b), n.a);
    Ok(c.(name := n.hint))
  }

  /** A constructor call with integer channels in range and a valid alpha stores exactly those values. */
  lemma BuildWhole(r: int, g: int, b: int, a: Option<Number>, hint: Option<string>)
    requires 0 <= r <= 255 && 0 <= g <= 255 && 0 <= b <= 255 && (a.Some? ==> InUnitRange(a.value))
    ensures Build(NewColor(Finite(r as real), Finite(g as real), Finite(b as real), a, hint))
            == Ok(ColorState(r, g, b, a.GetOr(Finite(1.0)).v, hint))
  {
  }

  /** A structured `{ r, g, b, a? }` value (`IRgb`, `IRgba`). */
  datatype RgbInput = RgbInput(r: Number, g: Number, b: Number, a: Option<Number>)

  /** A structured `{ h, s, l, a? }` value (`IHsl`, `IHsla`), each of h, s, l meant to lie in [0, 1]. */
  datatype HslInput = HslInput(h: Number, s: Number, l: Number, a: Option<Number>)

  /** `AnyColor`: what `from`, `equals` and `bestAlpha` accept. */
  datatype AnyColor =
    | Str(text: string)
    | Existing(color: ColorState)
    | RgbValue(rgb: RgbInput)
    | HslValue(hsl: HslInput)

  /**
   * `fromRgb(rgb, a)`: a numeric `a` replaces `rgb.a`. The positional overload
   * `fromRgb(r, g, b, a)` is `FromRgb(RgbInput(r, g, b, a), None)`.
   */
  function FromRgb(rgb: RgbInput, a: Option<Number>): Result<ColorState, ColorError> {
    Construct(Some(rgb.r), Some(rgb.g), Some(rgb.b), if a.Some? then a else rgb.a)
  }

  /** `fromRatios(r, g, b, a)`: each channel is divided by 256 before the setter floors it. */
  function FromRatios(r: Number, g: Number, b: Number, a: Option<Number>): (res: Result<ColorState, ColorError>)
    ensures res.Ok? <==> r.Finite? && 0.0 <= r.v < 65536.0 && g.Finite? && 0.0 <= g.v < 65536.0
                         && b.Finite? && 0.0 <= b.v < 65536.0 && (a.Some? ==> InUnitRange(a.value))
    ensures res.Ok? ==> IsFloor(res.value.r, r.v / 256.0) && IsFloor(res.value.g, g.v / 256.0)
                        && IsFloor(res.value.b, b.v / 256.0)
    ensures res.Ok? ==> Wf(res.value) && res.value.name.None? && res.value.a == a.GetOr(Finite(1.0)).v
  {
    Construct(Some(Div(r, 256.0)), Some(Div(g, 256.0)), Some(Div(b, 256.0)), a)
  }

  /** `Math.round`: the nearest integer, halves rounded up. */
  function Round(x: real): (n: int)
    ensures n as real - 0.5 <= x < n as real + 0.5
  {
    (x + 0.5).Floor
  }

  /** The two wrap-around steps of `hueToRgb`: below 0 add 1, then above 1 subtract 1. */
  function WrapHue(t: real): real {
    var t1 := if t < 0.0 then t + 1.0 else t;
    if t1 > 1.0 then t1 - 1.0 else t1
  }

  /** The four-piece curve `hueToRgb` follows once `t` is wrapped. */
  function HueCurve(p: real, q: real, t: real): real {
    if t < 1.0 / 6.0 then p + (q - p) * 6.0 * t
    else if t < 1.0 / 2.0 then q
    else if t < 2.0 / 3.0 then p + (q - p) * (2.0 / 3.0 - t) * 6.0
    else p
  }

  /**
   * `hueToRgb(p, q, t)`, over exact reals. A NaN `t` fails every comparison, so it
   * falls through to the last `return p`.
   */
  function HueToRgb(p: real, q: real, t: Number): real {
    match t
    case NaN => p
    case Finite(v) => HueCurve(p, q, WrapHue(v))
  }

  lemma ProductBounds(x: real, w: real)
    requires 0.0 <= x && 0.0 <= w <= 1.0
    ensures 0.0 <= x * w <= x
  {
  }

  /** A rising blend `p + (q - p) * w`, `p <= q`, lies between `p` and `q`. */
  lemma BlendRising(p: real, q: real, w: real)
    requires 0.0 <= p <= q <= 1.0 && 0.0 <= w <= 1.0
    ensures 0.0 <= p + (q - p) * w <= 1.0
  {
    ProductBounds(q - p, w);
  }

  /** A falling blend is the rising blend from the other end. */
  lemma BlendFlip(p: real, q: real, w: real)
    ensures p + (q - p) * w == q + (p - q) * (1.0 - w)
  {
  }

  /** A blend `p + (q - p) * w` with `w` in [0, 1] stays in [0, 1] when `p` and `q` do. */
  lemma BlendInUnit(p: real, q: real, w: real)
    requires 0.0 <= p <= 1.0 && 0.0 <= q <= 1.0 && 0.0 <= w <= 1.0
    ensures 0.0 <= p + (q - p) * w <= 1.0
  {
    if p <= q {
      BlendRising(p, q, w);
    } else {
      BlendRising(q, p, 1.0 - w);
      BlendFlip(p, q, w);
    }
  }

  lemma Associate(d: real, x: real, y: real)
    ensures d * x * y == d * (x * y)
  {
  }

  lemma ScaledBlendInUnit(p: real, q: real, x: real, y: real)
    requires 0.0 <= p <= 1.0 && 0.0 <= q <= 1.0 && 0.0 <= x * y <= 1.0
    ensures 0.0 <= p + (q - p) * x * y <= 1.0
  {
    BlendInUnit(p, q, x * y);
    Associate(q - p, x, y);
  }

  /** On [0, 1] the curve of `hueToRgb` stays in [0, 1]. */
  lemma HueCurveInUnit(p: real, q: real, t: real)
    requires 0.0 <= p <= 1.0 && 0.0 <= q <= 1.0 && 0.0 <= t <= 1.0
    ensures 0.0 <= HueCurve(p, q, t) <= 1.0
  {
    if t < 1.0 / 6.0 {
      assert 0.0 <= 6.0 * t <= 1.0;
      ScaledBlendInUnit(p, q, 6.0, t);
    } else if 1.0 / 2.0 <= t < 2.0 / 3.0 {
      assert 0.0 <= (2.0 / 3.0 - t) * 6.0 <= 1.0;
      ScaledBlendInUnit(p, q, 2.0 / 3.0 - t, 6.0);
    }
  }

  lemma HueToRgbInUnit(p: real, q: real, t: Number)
    requires 0.0 <= p <= 1.0 && 0.0 <= q <= 1.0 && (t.Finite? ==> -1.0 <= t.v <= 2.0)
    ensures 0.0 <= HueToRgb(p, q, t) <= 1.0
  {
    if t.Finite? {
      HueCurveInUnit(p, q, WrapHue(t.v));
    }
  }

  /** With `q = l + x` and `0 <= x <= l < 1/2`, both `q` and `2l - q` lie in [0, 1]. */
  lemma LowMixLinear(l: real, x: real)
    requires 0.0 <= l < 0.5 && 0.0 <= x <= l
    ensures 0.0 <= l + x <= 1.0 && 0.0 <= 2.0 * l - (l + x) <= 1.0
  {
  }

  lemma LowMixExpand(l: real, s: real)
    ensures l * (1.0 + s) == l + l * s
  {
  }

  /** `q` and `p` of `fromHsl` for a lightness below one half. */
  lemma LowMix(l: real, s: real)
    requires 0.0 <= s <= 1.0 && 0.0 <= l < 0.5
    ensures 0.0 <= l * (1.0 + s) <= 1.0 && 0.0 <= 2.0 * l - l * (1.0 + s) <= 1.0
  {
    var x := l * s;
    ProductBounds(l, s);
    assert 0.0 <= x <= l;
    LowMixLinear(l, x);
    LowMixExpand(l, s);
  }

  lemma HighMixFlip(l: real, s: real)
    ensures l + s - l * s == 1.0 - (1.0 - l) * (1.0 - s)
  {
  }

  /** With `q = 1 - x` and `0 <= x <= 1 - l`, `l >= 1/2`, both `q` and `2l - q` lie in [0, 1]. */
  lemma HighMixLinear(l: real, x: real)
    requires 0.5 <= l <= 1.0 && 0.0 <= x <= 1.0 - l
    ensures 0.0 <= 1.0 - x <= 1.0 && 0.0 <= 2.0 * l - (1.0 - x) <= 1.0
  {
  }

  lemma HighMixFlipped(l: real, s: real)
    requires 0.0 <= s <= 1.0 && 0.5 <= l <= 1.0
    ensures var q := 1.0 - (1.0 - l) * (1.0 - s);
      0.0 <= q <= 1.0 && 0.0 <= 2.0 * l - q <= 1.0
  {
    var x := (1.0 - l) * (1.0 - s);
    ProductBounds(1.0 - l, 1.0 - s);
    assert 0.0 <= x <= 1.0 - l;
    HighMixLinear(l, x);
  }

  /** `q` and `p` of `fromHsl` for a lightness of one half or more. */
  lemma HighMix(l: real, s: real)
    requires 0.0 <= s <= 1.0 && 0.5 <= l <= 1.0
    ensures 0.0 <= l + s - l * s <= 1.0 && 0.0 <= 2.0 * l - (l + s - l * s) <= 1.0
  {
    HighMixFlipped(l, s);
    HighMixFlip(l, s);
  }

  /** The `q` and `p` of `fromHsl` lie in [0, 1]. */
  lemma MixInUnit(l: real, s: real)
    requires 0.0 <= s <= 1.0 && 0.0 <= l <= 1.0
    ensures var q := if l < 0.5 then l * (1.0 + s) else l + s - l * s;
      0.0 <= q <= 1.0 && 0.0 <= 2.0 * l - q <= 1.0
  {
    if l < 0.5 {
      LowMix(l, s);
    } else {
      HighMix(l, s);
    }
  }

  /** `Math.round(x * 255)` of a value in [0, 1] is a valid channel. */
  lemma ScaledInRange(x: real)
    requires 0.0 <= x <= 1.0
    ensures 0 <= Round(x * 255.0) <= 255
  {
  }

  /**
   * The channels `fromHsl` computes once its range checks have passed, for finite s and l.
   * The hue may be NaN: the range check lets it through and `hueToRgb` then returns `p`
   * for all three channels.
   */
  function HslToChannels(h: Number, s: real, l: real): (c: (int, int, int))
    requires (h.Finite? ==> 0.0 <= h.v <= 1.0) && 0.0 <= s <= 1.0 && 0.0 <= l <= 1.0
    ensures 0 <= c.0 <= 255 && 0 <= c.1 <= 255 && 0 <= c.2 <= 255
    ensures s == 0.0 ==> c.0 == c.1 == c.2 == Round(l * 255.0)
    ensures h.NaN? ==> c.0 == c.1 == c.2
  {
    if s == 0.0 then
      ScaledInRange(l);
      var v := Round(l * 255.0);
      (v, v, v)
    else
      var q := if l < 0.5 then l * (1.0 + s) else l + s - l * s;
      var p := 2.0 * l - q;
      MixInUnit(l, s);
      HueToRgbInUnit(p, q, Add(h, 1.0 / 3.0));
      HueToRgbInUnit(p, q, h);
      HueToRgbInUnit(p, q, Add(h, -1.0 / 3.0));
      ScaledInRange(HueToRgb(p, q, Add(h, 1.0 / 3.0)));
      ScaledInRange(HueToRgb(p, q, h));
      ScaledInRange(HueToRgb(p, q, Add(h, -1.0 / 3.0)));
      (Round(HueToRgb(p, q, Add(h, 1.0 / 3.0)) * 255.0), Round(HueToRgb(p, q, h) * 255.0),
       Round(HueToRgb(p, q, Add(h, -1.0 / 3.0)) * 255.0))
  }

  /** The range check of `fromHsl` on one of h, s, l, as written: below 0 or above 1. NaN passes it. */
  predicate OutsideUnit(x: Number) {
    x.Finite? && (x.v < 0.0 || x.v > 1.0)
  }

  /**
   * `fromHsl(hsl, a)` up to its constructor call: a numeric `a` replaces `hsl.a`; h, s and l
   * are checked in that order. The positional overload `fromHsl(h, s, l, a)` is
   * `FromHslCall(HslInput(h, s, l, a), None)`. A NaN s or l passes its check and makes every
   * channel NaN (`l * (1 + s)`, `l + s - l * s` and `r = g = b = l` all carry it).
   */
  function FromHslCall(hsl: HslInput, a: Option<Number>): (res: Result<NewColor, ColorError>)
    ensures res.Err? <==> OutsideUnit(hsl.h) || OutsideUnit(hsl.s) || OutsideUnit(hsl.l)
    ensures res.Err? ==> res.error.OutOfRange?
    ensures res.Ok? ==> res.value.a == (if a.Some? then a else hsl.a) && res.value.hint.None?
    ensures res.Ok? ==> (res.value.r.NaN? <==> hsl.s.NaN? || hsl.l.NaN?)
    ensures res.Ok? && hsl.s.Finite? && hsl.l.Finite? ==>
      ChannelInRange(res.value.r) && ChannelInRange(res.value.g) && ChannelInRange(res.value.b)
    ensures res.Ok? && hsl.h.NaN? ==> res.value.r == res.value.g == res.value.b
  {
    var alpha := if a.Some? then a else hsl.a;
    if OutsideUnit(hsl.h) then Err(OutOfRange(H, hsl.h))
    else if OutsideUnit(hsl.s) then Err(OutOfRange(S, hsl.s))
    else if OutsideUnit(hsl.l) then Err(OutOfRange(L, hsl.l))
    else if hsl.s.NaN? || hsl.l.NaN? then Ok(NewColor(NaN, NaN, NaN, alpha, None))
    else
      var c := HslToChannels(hsl.h, hsl.s.v, hsl.l.v);
      Ok(NewColor(Finite(c.0 as real), Finite(c.1 as real), Finite(c.2 as real), alpha, None))
  }

  function FromHsl(hsl: HslInput, a: Option<Number>): Result<ColorState, ColorError> {
    var n :- FromHslCall(hsl, a);
    Build(n)
  }

  /** `parseInt(x, 16)` as a number. */
  function HexNumber(x: string): Number
    requires AllIn(HexDigit, x)
  {
    Finite(ParseDigits(x, 16) as real)
  }

  /** `parseInt(x, 10)` as a number. */
  function DecNumber(x: string): Number
    requires AllIn(Digit, x)
  {
    Finite(ParseDigits(x, 10) as real)
  }

  /**
   * The recogniser chain of `parse(c, a)`, up to its constructor call: 6-digit hex, `rgb`,
   * `rgba`, 3-digit hex, `hsl`, `hsla`, `transparent` (not trimmed), then a table name (not
   * trimmed). A numeric `a` wins over the alpha written in `rgba`/`hsla` and over the 0 of
   * `transparent`.
   */
  function ParseCall(t: Table, c: string, a: Option<Number>): Result<NewColor, ColorError> {
    match Hex6(c)
    case Some((x, y, z)) => Ok(NewColor(HexNumber(x), HexNumber(y), HexNumber(z), a, None))
    case None =>
    match Rgb(c)
    case Some((x, y, z)) => Ok(NewColor(DecNumber(x), DecNumber(y), DecNumber(z), a, None))
    case None =>
    match Rgba(c)
    case Some((x, y, z, w)) =>
      Ok(NewColor(DecNumber(x), DecNumber(y), DecNumber(z), Some(a.GetOr(ParseFloat(w))), None))
    case None =>
    match Hex3(c)
    case Some((x, y, z)) => Ok(NewColor(HexNumber(x + x), HexNumber(y + y), HexNumber(z + z), a, None))
    case None =>
    match Hsl(c)
    case Some((h, s, l)) =>
      FromHslCall(HslInput(Div(ParseFloat(h), 360.0), Div(ParseFloat(s), 100.0), Div(ParseFloat(l), 100.0), a), None)
    case None =>
    match Hsla(c)
    case Some((h, s, l, w)) =>
      FromHslCall(HslInput(Div(ParseFloat(h), 360.0), Div(ParseFloat(s), 100.0), Div(ParseFloat(l), 100.0),
                           Some(a.GetOr(ParseFloat(w)))), None)
    case None =>
    if Lower(c) == "transparent" then
      Ok(NewColor(Finite(0.0), Finite(0.0), Finite(0.0), Some(a.GetOr(Finite(0.0))), None))
    else
      match IndexOfName(t, c)
      case None => Err(Unrecognized(c))
      case Some(i) =>
        Ok(NewColor(Finite(t[i].r as real), Finite(t[i].g as real), Finite(t[i].b as real), a, Some(t[i].name)))
  }

  // ---------------------------------------------------------------------------
  // Which branch of `parse` applies

  /** No recogniser of `parse` accepts `c`. */
  predicate NoShape(c: string) {
    Hex6(c).None? && Rgb(c).None? && Rgba(c).None? && Hex3(c).None? && Hsl(c).None? && Hsla(c).None?
  }

  /** A 6-digit hex text is the first branch. */
  lemma ParseCallHex6(t: Table, c: string, a: Option<Number>)
    requires Hex6(c).Some?
    ensures var v := Hex6(c).value;
      ParseCall(t, c, a) == Ok(NewColor(HexNumber(v.0), HexNumber(v.1), HexNumber(v.2), a, None))
  {
  }

  /** With no 6-digit hex form, `rgb(...)` is the branch taken. */
  lemma ParseCallRgb(t: Table, c: string, a: Option<Number>)
    requires Hex6(c).None? && Rgb(c).Some?
    ensures var v := Rgb(c).value;
      ParseCall(t, c, a) == Ok(NewColor(DecNumber(v.0), DecNumber(v.1), DecNumber(v.2), a, None))
  {
  }

  /** With neither 6-digit hex nor `rgb(...)`, `rgba(...)` is the branch taken. */
  lemma ParseCallRgba(t: Table, c: string, a: Option<Number>)
    requires Hex6(c).None? && Rgb(c).None? && Rgba(c).Some?
    ensures var v := Rgba(c).value;
      ParseCall(t, c, a) == Ok(NewColor(DecNumber(v.0), DecNumber(v.1), DecNumber(v.2), Some(a.GetOr(ParseFloat(v.3))), None))
  {
  }

  /** With none of the three earlier forms, `#xyz` is the branch taken. */
  lemma ParseCallHex3After(t: Table, c: string, a: Option<Number>)
    requires Hex6(c).None? && Rgb(c).None? && Rgba(c).None? && Hex3(c).Some?
    ensures var v := Hex3(c).value;
      ParseCall(t, c, a) == Ok(NewColor(HexNumber(v.0 + v.0), HexNumber(v.1 + v.1), HexNumber(v.2 + v.2), a, None))
  {
  }

  /** With none of the four earlier forms, `hsl(...)` goes to `fromHsl` with the alpha argument. */
  lemma ParseCallHsl(t: Table, c: string, a: Option<Number>)
    requires Hex6(c).None? && Rgb(c).None? && Rgba(c).None? && Hex3(c).None? && Hsl(c).Some?
    ensures var v := Hsl(c).value;
      ParseCall(t, c, a) == FromHslCall(HslInput(Div(ParseFloat(v.0), 360.0), Div(ParseFloat(v.1), 100.0), Div(ParseFloat(v.2), 100.0), a), None)
  {
  }

  /** With none of the five earlier forms, `hsla(...)` goes to `fromHsl` with the alpha argument, else the written alpha. */
  lemma ParseCallHsla(t: Table, c: string, a: Option<Number>)
    requires Hex6(c).None? && Rgb(c).None? && Rgba(c).None? && Hex3(c).None? && Hsl(c).None? && Hsla(c).Some?
    ensures var v := Hsla(c).value;
      ParseCall(t, c, a) == FromHslCall(HslInput(Div(ParseFloat(v.0), 360.0), Div(ParseFloat(v.1), 100.0), Div(ParseFloat(v.2), 100.0),
                                                 Some(a.GetOr(ParseFloat(v.3)))), None)
  {
  }

  /** Without any recognised shape, `transparent` in any case is black with the alpha argument, else 0. */
  lemma ParseCallTransparent(t: Table, c: string, a: Option<Number>)
    requires NoShape(c) && Lower(c) == "transparent"
    ensures ParseCall(t, c, a) == Ok(NewColor(Finite(0.0), Finite(0.0), Finite(0.0), Some(a.GetOr(Finite(0.0))), None))
  {
  }

  /** Otherwise the table is searched by lower-cased name; the entry found is built and its name cached. */
  lemma ParseCallName(t: Table, c: string, a: Option<Number>)
    requires NoShape(c) && Lower(c) != "transparent"
    ensures IndexOfName(t, c).None? ==> ParseCall(t, c, a) == Err(Unrecognized(c))
    ensures IndexOfName(t, c).Some? ==> var e := t[IndexOfName(t, c).value];
      ParseCall(t, c, a) == Ok(NewColor(Finite(e.r as real), Finite(e.g as real), Finite(e.b as real), a, Some(e.name)))
  {
  }

  /** When some recogniser accepts the text, `parse` can only throw an out-of-range error. */
  lemma ParseCallShapedError(t: Table, c: string, a: Option<Number>)
    requires !NoShape(c)
    ensures ParseCall(t, c, a).Err? ==> ParseCall(t, c, a).error.OutOfRange?
  {
    if Hex6(c).Some? {
      ParseCallHex6(t, c, a);
    } else if Rgb(c).Some? {
      ParseCallRgb(t, c, a);
    } else if Rgba(c).Some? {
      ParseCallRgba(t, c, a);
    } else if Hex3(c).Some? {
      ParseCallHex3After(t, c, a);
    } else if Hsl(c).Some? {
      ParseCallHsl(t, c, a);
    } else {
      ParseCallHsla(t, c, a);
    }
  }

  /** A 3-digit hex text has no bracket, so none of the bracketed forms comes first. */
  lemma ParseCallHex3(t: Table, c: string, a: Option<Number>)
    requires Hex6(c).None? && '(' !in c && Hex3(c).Some?
    ensures var v := Hex3(c).value;
      ParseCall(t, c, a) == Ok(NewColor(HexNumber(v.0 + v.0), HexNumber(v.1 + v.1), HexNumber(v.2 + v.2), a, None))
  {
  }

  /** `parse(c, a)`: the colour it returns, or what it throws. */
  function ParseResult(t: Table, c: string, a: Option<Number>): Result<ColorState, ColorError> {
    var n :- ParseCall(t, c, a);
    Build(n)
  }

  /**
   * `from(c, a)`: a string is parsed; an existing colour is treated as an `{ r, g, b, a }`
   * value, so the result is a copy without the cached name; an RGB-like value goes to
   * `fromRgb` and an HSL-like one to `fromHsl`.
   */
  function From(t: Table, c: AnyColor, a: Option<Number>): Result<ColorState, ColorError> {
    match c
    case Str(s) => ParseResult(t, s, a)
    case Existing(e) =>
      FromRgb(RgbInput(Finite(e.r as real), Finite(e.g as real), Finite(e.b as real), Some(Finite(e.a))), a)
    case RgbValue(rgb) => FromRgb(rgb, a)
    case HslValue(hsl) => FromHsl(hsl, a)
  }

  /** The fast path of `toName`: the cached name is set, non-empty, a key of the table, and its entry has the colour's channels. */
  predicate HintHolds(t: Table, c: ColorState) {
    c.name.Some? && c.name.value != "" &&
    var k := KeyIndex(t, c.name.value);
    k.Some? && t[k.value].r == c.r && t[k.value].g == c.g && t[k.value].b == c.b
  }

  /** `toName()`: the cached name when the fast path applies, else the name of the first entry with the colour's channels. */
  function NameOf(t: Table, c: ColorState): Option<string> {
    if HintHolds(t, c) then c.name
    else
      match FirstWithChannels(t, c.r, c.g, c.b, 0)
      case Some(i) => Some(t[i].name)
      case None => None
  }

  /** `matchesName(name)`. */
  function MatchesName(t: Table, c: ColorState, name: string): bool {
    var n := Lower(name);
    if n == "transparent" then c.a == 0.0
    else
      match IndexOfName(t, n)
      case None => false
      case Some(i) => c.r == t[i].r && c.g == t[i].g && c.b == t[i].b
  }

  /** What `toString` returns: a text or, for `hsl`, `hsla` and unknown selectors, the output of the HSL formatter, which is not modelled. */
  datatype Rendered = Formatted(text: string) | ViaHsl(withAlpha: bool)

  predicate StartsWith(s: string, p: string) {
    |p| <= |s| && s[..|p|] == p
  }

  /** `"#"` followed by two lower-case hex digits per channel. */
  function HexString(c: ColorState): string
    requires Wf(c)
  {
    "#" + To2PlaceHex(c.r) + To2PlaceHex(c.g) + To2PlaceHex(c.b)
  }

  /** `"rgb(r, g, b)"`. */
  function RgbString(c: ColorState): string
    requires Wf(c)
  {
    "rgb(" + DecimalText(c.r) + ", " + DecimalText(c.g) + ", " + DecimalText(c.b) + ")"
  }

  /** The selector dispatch of `toString` after the name step; `alphaText` is JavaScript's number-to-string. */
  function Render(c: ColorState, f: string, alphaText: real -> string): Rendered
    requires Wf(c)
  {
    if f == "rgba" then
      Formatted("rgba(" + DecimalText(c.r) + ", " + DecimalText(c.g) + ", " + DecimalText(c.b) + ", " + alphaText(c.a) + ")")
    else if f == "rgb" then Formatted(RgbString(c))
    else if f == "#" then Formatted(HexString(c))
    else ViaHsl(f == "hsla")
  }

  /**
   * `toString(format)`: no (or an empty) selector means `rgba`; the selector is lower-cased;
   * one starting with `name` returns the colour's name when it has a non-empty one, throws
   * when it is exactly `name`, and otherwise falls back to what follows its fifth
   * character (`rgb` when nothing does).
   */
  function ToString(t: Table, c: ColorState, format: Option<string>, alphaText: real -> string): Result<Rendered, ColorError>
    requires Wf(c)
  {
    Dispatch(t, c, Selector(format), alphaText)
  }

  /** The selector `toString` goes on with: `rgba` when none (or an empty one) is given, else the lower-cased one. */
  function Selector(format: Option<string>): string {
    if format.None? || format.value == "" then "rgba" else Lower(format.value)
  }

  /** `toString` once its selector `f` is lower-cased. */
  function Dispatch(t: Table, c: ColorState, f: string, alphaText: real -> string): Result<Rendered, ColorError>
    requires Wf(c)
  {
    if StartsWith(f, "name") then
      var n := NameOf(t, c);
      if n.Some? && n.value != "" then Ok(Formatted(n.value))
      else if |f| < 5 then Err(NotNamed)
      else Ok(Render(c, if f[5..] == "" then "rgb" else f[5..], alphaText))
    else Ok(Render(c, f, alphaText))
  }

  /**
   * `equals(other, ignoreAlpha)` as written: `&&` binds tighter than `?:`, so the result is
   * `(same r, g, b && ignoreAlpha) || same alpha`. A non-`Color` argument is coerced first.
   */
  function Equals(t: Table, c: ColorState, other: AnyColor, ignoreAlpha: bool): (res: Result<bool, ColorError>)
    ensures res.Ok? <==> (other.Existing? || From(t, other, None).Ok?)
    ensures res.Ok? ==>
      var o := if other.Existing? then other.color else From(t, other, None).value;
      && (!ignoreAlpha ==> (res.value <==> c.a == o.a))
      && (ignoreAlpha ==> (res.value <==> (c.r == o.r && c.g == o.g && c.b == o.b) || c.a == o.a))
  {
    var o :- if other.Existing? then Ok(other.color) else From(t, other, None);
    Ok((c.r == o.r && c.g == o.g && c.b == o.b && ignoreAlpha) || c.a == o.a)
  }

  /** `equals` as its parameter name intends: same channels, and same alpha unless `ignoreAlpha`. */
  function EqualsIntended(t: Table, c: ColorState, other: AnyColor, ignoreAlpha: bool): (res: Result<bool, ColorError>)
    ensures res.Ok? <==> (other.Existing? || From(t, other, None).Ok?)
    ensures res.Ok? ==>
      var o := if other.Existing? then other.color else From(t, other, None).value;
      (res.value <==> c.r == o.r && c.g == o.g && c.b == o.b && (ignoreAlpha || c.a == o.a))
  {
    var o :- if other.Existing? then Ok(other.color) else From(t, other, None);
    Ok(c.r == o.r && c.g == o.g && c.b == o.b && (ignoreAlpha || c.a == o.a))
  }

  /** The ratio that puts `ap` on the line from `bg` to `ov`. */
  function Ratio(bg: int, ov: int, ap: int): real
    requires bg != ov
  {
    (ap - bg) as real / (ov - bg) as real
  }

  /** The ratios of the channels on which background and overlay differ, in the order r, g, b. */
  function BlendRatios(bg: ColorState, ov: ColorState, ap: ColorState): (xs: seq<real>)
    ensures |xs| == (if bg.r != ov.r then 1 else 0) + (if bg.g != ov.g then 1 else 0) + (if bg.b != ov.b then 1 else 0)
  {
    (if bg.r != ov.r then [Ratio(bg.r, ov.r, ap.r)] else [])
    + (if bg.g != ov.g then [Ratio(bg.g, ov.g, ap.g)] else [])
    + (if bg.b != ov.b then [Ratio(bg.b, ov.b, ap.b)] else [])
  }

  function Sum(xs: seq<real>): real {
    if xs == [] then 0.0 else xs[0] + Sum(xs[1..])
  }

  /** The mean of the ratios; 1 when there are none. */
  function MeanOr1(xs: seq<real>): real {
    if |xs| == 0 then 1.0 else Sum(xs) / |xs| as real
  }

  /** `bestAlpha` on three coerced colours. */
  function BestAlphaOf(bg: ColorState, ov: ColorState, ap: ColorState): real {
    MeanOr1(BlendRatios(bg, ov, ap))
  }

  /** `bestAlpha(background, overlay, apparent)`: each argument is coerced with `from`, in that order. */
  function BestAlphaResult(t: Table, background: AnyColor, overlay: AnyColor, apparent: AnyColor): Result<real, ColorError> {
    var bg :- From(t, background, None);
    var ov :- From(t, overlay, None);
    var ap :- From(t, apparent, None);
    Ok(BestAlphaOf(bg, ov, ap))
  }

  lemma {:induction false} SumAppend(xs: seq<real>, ys: seq<real>)
    ensures Sum(xs + ys) == Sum(xs) + Sum(ys)
  {
    if xs == [] {
      assert xs + ys == ys;
    } else {
      assert (xs + ys)[1..] == xs[1..] + ys;
      SumAppend(xs[1..], ys);
    }
  }
}

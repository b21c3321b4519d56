/**
 * The `Color` class itself: an object with the four channel fields and the cached name,
 * whose setters check and store, whose constructor runs those setters in order, and whose
 * `clone`, `parse`, `toName` and `bestAlpha` are written as the source writes them. Each
 * method is tied to the value-level definition of the same operation in module `Colors`.
 */
module ColorClass {
  import opened Common
  import opened Text
  import opened NamedColors
  import opened Colors

  class Color {
    var r: int
    var g: int
    var b: int
    var a: real
    /** `_n`: the table name the colour was parsed from, if any. */
    var name: Option<string>

    function State(): ColorState
      reads this
    {
      ColorState(r, g, b, a, name)
    }

    predicate Valid()
      reads this
    {
      Wf(State())
    }

    /** The fields before any argument is applied: the values the constructor falls back to. */
    constructor ()
      ensures State() == ColorState(0, 0, 0, 1.0, None)
      ensures Valid()
    {
      r, g, b, a, name := 0, 0, 0, 1.0, None;
    }

    /** `set r`: refuses a value outside [0, 256) and leaves the colour as it was; otherwise stores it floored. */
    method SetR(x: Number) returns (err: Option<ColorError>)
      modifies this
      ensures err.Some? <==> !ChannelInRange(x)
      ensures err.Some? ==> err.value == OutOfRange(R, x) && State() == old(State())
      ensures err.None? ==> State() == old(State()).(r := r) && IsFloor(r, x.v)
      ensures old(Valid()) ==> Valid()
    {
      if !ChannelInRange(x) {
        return Some(OutOfRange(R, x));
      }
      r := x.v.Floor;
      return None;
    }

    /** `set g`. */
    method SetG(x: Number) returns (err: Option<ColorError>)
      modifies this
      ensures err.Some? <==> !ChannelInRange(x)
      ensures err.Some? ==> err.value == OutOfRange(G, x) && State() == old(State())
      ensures err.None? ==> State() == old(State()).(g := g) && IsFloor(g, x.v)
      ensures old(Valid()) ==> Valid()
    {
      if !ChannelInRange(x) {
        return Some(OutOfRange(G, x));
      }
      g := x.v.Floor;
      return None;
    }

    /** `set b`. */
    method SetB(x: Number) returns (err: Option<ColorError>)
      modifies this
      ensures err.Some? <==> !ChannelInRange(x)
      ensures err.Some? ==> err.value == OutOfRange(B, x) && State() == old(State())
      ensures err.None? ==> State() == old(State()).(b := b) && IsFloor(b, x.v)
      ensures old(Valid()) ==> Valid()
    {
      if !ChannelInRange(x) {
        return Some(OutOfRange(B, x));
      }
      b := x.v.Floor;
      return None;
    }

    /** `set a`: refuses a value outside [0, 1]; otherwise stores it unchanged. */
    method SetA(x: Number) returns (err: Option<ColorError>)
      modifies this
      ensures err.Some? <==> !InUnitRange(x)
      ensures err.Some? ==> err.value == OutOfRange(A, x) && State() == old(State())
      ensures err.None? ==> State() == old(State()).(a := x.v)
      ensures old(Valid()) ==> Valid()
    {
      if !InUnitRange(x) {
        return Some(OutOfRange(A, x));
      }
      a := x.v;
      return None;
    }

    /**
     * `new Color(r, g, b, a)`: a fresh object on which the setters run in the order r, g, b,
     * a, with 0, 0, 0 and 1 for the arguments left out; the first refusal is what is thrown.
     */
    static method Create(r0: Option<Number>, g0: Option<Number>, b0: Option<Number>, a0: Option<Number>)
      returns (res: Result<Color, ColorError>)
      ensures res.Ok? <==> Construct(r0, g0, b0, a0).Ok?
      ensures res.Ok? ==> fresh(res.value) && res.value.State() == Construct(r0, g0, b0, a0).value
      ensures res.Err? ==> Construct(r0, g0, b0, a0) == Err(res.error)
    {
      var c := new Color();
      var e := c.SetR(r0.GetOr(Finite(0.0)));
      if e.Some? { return Err(e.value); }
      e := c.SetG(g0.GetOr(Finite(0.0)));
      if e.Some? { return Err(e.value); }
      e := c.SetB(b0.GetOr(Finite(0.0)));
      if e.Some? { return Err(e.value); }
      e := c.SetA(a0.GetOr(Finite(1.0)));
      if e.Some? { return Err(e.value); }
      return Ok(c);
    }

    /**
     * `clone(a)` as written: the copy has this colour's channels, alpha and cached name, and
     * a numeric `a` goes to THIS colour's alpha setter, not the copy's; when the setter
     * refuses it, the copy is lost and this colour is unchanged.
     */
    method Clone(alpha: Option<Number>) returns (res: Result<Color, ColorError>)
      requires Valid()
      modifies this
      ensures alpha.None? ==> res.Ok? && State() == old(State())
      ensures alpha.Some? && InUnitRange(alpha.value) ==> res.Ok? && State() == old(State()).(a := alpha.value.v)
      ensures alpha.Some? && !InUnitRange(alpha.value) ==> res == Err(OutOfRange(A, alpha.value)) && State() == old(State())
      ensures res.Ok? ==> fresh(res.value) && res.value.State() == old(State())
      ensures Valid()
    {
      var made := Create(Some(Finite(r as real)), Some(Finite(g as real)), Some(Finite(b as real)), Some(Finite(a)));
      assert made.Ok?;
      var copy := made.value;
      copy.name := name;
      if alpha.Some? {
        var e := SetA(alpha.value);
        if e.Some? { return Err(e.value); }
      }
      return Ok(copy);
    }

    /** `toName()`: the fast path on the cached name, then a scan of the table in order. */
    method ToName(t: Table) returns (n: Option<string>)
      ensures n == NameOf(t, State())
    {
      if name.Some? && name.value != "" {
        var k := KeyIndex(t, name.value);
        if k.Some? && t[k.value].r == r && t[k.value].g == g && t[k.value].b == b {
          return name;
        }
      }
      var i := 0;
      while i < |t|
        invariant 0 <= i <= |t|
        invariant FirstWithChannels(t, r, g, b, i) == FirstWithChannels(t, r, g, b, 0)
      {
        if t[i].r == r && t[i].g == g && t[i].b == b {
          return Some(t[i].name);
        }
        i := i + 1;
      }
      return None;
    }

    /** `parse(c, a)`: the constructor call the recognisers choose, and the table name cached on the result. */
    static method Parse(t: Table, c: string, alpha: Option<Number>) returns (res: Result<Color, ColorError>)
      ensures res.Ok? <==> ParseResult(t, c, alpha).Ok?
      ensures res.Ok? ==> fresh(res.value) && res.value.State() == ParseResult(t, c, alpha).value
      ensures res.Err? ==> ParseResult(t, c, alpha) == Err(res.error)
    {
      var call := ParseCall(t, c, alpha);
      if call.Err? {
        return Err(call.error);
      }
      var n := call.value;
      res := Create(Some(n.r), Some(n.g), Some(n.b), n.a);
      if res.Ok? {
        res.value.name := n.hint;
      }
    }

    /**
     * `bestAlpha(background, overlay, apparent)`: the three arguments are coerced with
     * `from` in that order, then blended.
     */
    static method BestAlpha(t: Table, background: AnyColor, overlay: AnyColor, apparent: AnyColor)
      returns (res: Result<real, ColorError>)
      ensures res == BestAlphaResult(t, background, overlay, apparent)
    {
      var bg := From(t, background, None);
      if bg.Err? { return Err(bg.error); }
      var ov := From(t, overlay, None);
      if ov.Err? { return Err(ov.error); }
      var ap := From(t, apparent, None);
      if ap.Err? { return Err(ap.error); }
      var x := Blend(bg.value, ov.value, ap.value);
      return Ok(x);
    }

    /**
     * The arithmetic of `bestAlpha`: sums the ratios of the channels on which background
     * and overlay differ and divides by their number, or gives 1 when there is none.
     */
    static method Blend(bg: ColorState, ov: ColorState, ap: ColorState) returns (x: real)
      ensures x == BestAlphaOf(bg, ov, ap)
    {
      var ratio, count := 0.0, 0;
      ghost var seen: seq<real> := [];
      if bg.r != ov.r {
        count := count + 1;
        SumAppend(seen, [Ratio(bg.r, ov.r, ap.r)]);
        seen := seen + [Ratio(bg.r, ov.r, ap.r)];
        ratio := ratio + Ratio(bg.r, ov.r, ap.r);
      }
      if bg.g != ov.g {
        count := count + 1;
        SumAppend(seen, [Ratio(bg.g, ov.g, ap.g)]);
        seen := seen + [Ratio(bg.g, ov.g, ap.g)];
        ratio := ratio + Ratio(bg.g, ov.g, ap.g);
      }
      if bg.b != ov.b {
        count := count + 1;
        SumAppend(seen, [Ratio(bg.b, ov.b, ap.b)]);
        seen := seen + [Ratio(bg.b, ov.b, ap.b)];
        ratio := ratio + Ratio(bg.b, ov.b, ap.b);
      }
      assert seen == BlendRatios(bg, ov, ap);
      return if count == 0 then 1.0 else ratio / count as real;
    }
  }
}

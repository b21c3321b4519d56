# Color: a verified model of the `Color` class

This project is a Dafny model of the `Color` class of the PackageForge colour library
(`projects/color/src/lib/color.ts`). A `Color` holds three integer channels `r`, `g`,
`b` in [0, 255], an alpha `a` in [0, 1] and, when it was parsed from a colour name, that
name (`_n`). The class offers:

- range-checking setters and a constructor that runs them in order;
- `clone`;
- the static factories `fromRgb`, `fromHsl`, `fromRatios`, `parse` and `from`;
- the named-colour searches `toName` and `matchesName`;
- `toString` with its format selectors;
- `equals`;
- `bestAlpha`, which recovers the opacity of an overlay from an apparent colour.

How the model is laid out:

| module | file | contents |
|---|---|---|
| `Common` | `common.dfy` | `Option` and `Result` |
| `Text` | `text.dfy` | JavaScript numbers as they reach the core (`Finite(v)` or `NaN`), `parseInt`, `parseFloat`, `String(n)`, `toString(16)`, `to2PlaceHex` and `toLowerCase` |
| `Patterns` | `patterns.dfy` | the six regular expressions of `parse`, as deterministic recognisers returning their capture groups |
| `NamedColors` | `named.dfy` | the named-colour table and its three searches: by lower-cased name, by exact key and by channels |
| `Colors` | `colors.dfy` | what each operation computes, as values: `ColorState`, the setter checks, the constructor, the factories, `parse`, `from`, `toName`, `matchesName`, `toString`, `equals`, `bestAlpha` |
| `ColorClass` | `color_class.dfy` | the mutable `Color` class: its fields, setters, constructor, `clone`, `toName` (the scan loop), `parse` and `bestAlpha`, each method proved against the matching function of `Colors` |
| `ColorProperties` | `color_props.dfy` | what the library promises, as lemmas: defaults, round trips through `toString` and `parse`, 3-digit versus 6-digit hex, alpha overrides, error cases, name lookups, `toString` selectors, coercion, `bestAlpha` |
| `AsWritten` | `as_written.dfy` | two places where the code as written differs from what it evidently intends |

The named-colour table (`./named-colors`) is not part of this model. It is a parameter
`t: Table`: a sequence of `(name, r, g, b)` entries in the order that
`Object.getOwnPropertyNames` lists them. The channels are in [0, 255] and the names are
distinct. Some lemmas also assume that every name is lower-case ASCII letters
(`PlainTable`), as CSS colour names are.

An error the library throws becomes an `Err` value:

- `OutOfRange(field, value)` for the messages "… value out of [...] range";
- `Unrecognized(input)` for "Unrecognized color format";
- `NotNamed` for "color is not a named color".

Optional arguments are `Option` values. A JavaScript number is `Finite(v)` over exact
reals, or `NaN`.

The model differs from the code in two places, both listed under "## Findings":

- The setters refuse NaN. As written, NaN slips past their guards.
- `Colors.Equals` is the code as written. `Colors.EqualsIntended` is the comparison the
  parameter name `ignoreAlpha` promises.

The range checks of `fromHsl` are modelled as written, so NaN passes them. A NaN hue
makes `hueToRgb` return `p` for every channel, so the result is a gray. `hsl(.,0%,50%)`
reaches `fromHsl(NaN, 0, 0.5)`, which gives (128, 128, 128), and `hsl(.,100%,50%)` reaches
`fromHsl(NaN, 1, 0.5)`, which gives black. A NaN saturation or lightness
makes every channel NaN. As written, the setters would then store NaN; the corrected r
setter of the model refuses it with an out-of-range error for `r`.

## Model

| member | source | states |
|---|---|---|
| Colors.CheckChannel | projects/color/src/lib/color.ts:72-96 | a channel setter accepts exactly the numbers in [0, 256), stores the floor (an integer in 0..255), and otherwise throws an out-of-range error naming the channel and the value |
| Colors.CheckAlpha | projects/color/src/lib/color.ts:102-106 | the alpha setter accepts exactly the numbers in [0, 1], stores them unchanged, and otherwise throws an out-of-range error for `a` |
| Colors.Construct | projects/color/src/lib/color.ts:61-66 | the constructor succeeds exactly when every argument (0, 0, 0, 1 when left out) is in range; the result keeps the invariant, has no cached name, stores alpha exactly and floors the channels; the error reported is that of the first of r, g, b, a that is out of range |
| Colors.Build | projects/color/src/lib/color.ts:61-66 | a constructor call followed by caching a name succeeds under the same conditions, yields a well-formed colour carrying that name, and fails with the constructor's error |
| Colors.FromRatios | projects/color/src/lib/color.ts:244-246 | `fromRatios` succeeds exactly for finite channel arguments in [0, 65536) and an alpha in range, and each stored channel is the floor of its argument divided by 256 |
| Colors.Round | projects/color/src/lib/color.ts:239 | `Math.round` returns the integer nearest its argument, with halves rounded up |
| Colors.HueToRgbInUnit | projects/color/src/lib/color.ts:302-309 | for p and q in [0, 1], `hueToRgb` stays in [0, 1] for every t in [-1, 2] and for NaN |
| Colors.HslToChannels | projects/color/src/lib/color.ts:229-239 | for finite s, l in [0, 1] and a hue in [0, 1] or NaN, the channels `fromHsl` computes lie in 0..255; a zero saturation gives three equal channels, `round(l * 255)`; a NaN hue gives three equal channels |
| Colors.FromHslCall | projects/color/src/lib/color.ts:213-239 | `fromHsl` throws exactly when h, s or l is a number below 0 or above 1 (NaN passes the checks), always with an out-of-range error; otherwise the alpha passed on is the argument, else the value's own; the channels are NaN exactly when s or l is NaN, and are valid channels otherwise; a NaN hue gives three equal channels |
| Colors.BuildWhole | projects/color/src/lib/color.ts:61-66 | a constructor call with integer channels in 0..255 and a valid alpha stores exactly those values, alpha 1 when none is given |
| Colors.ParseCallHex6 | projects/color/src/lib/color.ts:248-249 | a text matching the 6-digit hex pattern is read as three hex channels, keeping the alpha argument |
| Colors.ParseCallRgb | projects/color/src/lib/color.ts:248-251 | when the text is no 6-digit hex but matches `rgb(...)`, `parse` takes the three decimal groups as channels and keeps the alpha argument |
| Colors.ParseCallRgba | projects/color/src/lib/color.ts:248-253 | when neither earlier pattern matches but `rgba(...)` does, `parse` takes the decimal groups as channels and alpha from the argument, else from `parseFloat` of the fourth group |
| Colors.ParseCallHex3 | projects/color/src/lib/color.ts:248-255 | a 3-digit hex text reaches the `#xyz` branch, and each digit doubled is read as a channel |
| Colors.ParseCallHex3After | projects/color/src/lib/color.ts:248-255 | when none of the three earlier patterns matches, a 3-digit hex text is read with each digit doubled |
| Colors.ParseCallHsl | projects/color/src/lib/color.ts:256-257 | when no earlier pattern matches, `hsl(h, s%, l%)` goes to `fromHsl` with h/360, s/100, l/100 and the alpha argument |
| Colors.ParseCallHsla | projects/color/src/lib/color.ts:258-259 | when no earlier pattern matches, `hsla(...)` goes to `fromHsl` with alpha from the argument, else from `parseFloat` of the fourth group |
| Colors.ParseCallTransparent | projects/color/src/lib/color.ts:260-261 | a text that no pattern matches and that lower-cases to `transparent` is black with the alpha argument, else 0 |
| Colors.ParseCallName | projects/color/src/lib/color.ts:262-268 | otherwise a failed table lookup throws "Unrecognized color format", and a found entry is built from its channels with its name cached |
| Colors.ParseCallShapedError | projects/color/src/lib/color.ts:248-259 | when one of the six patterns matches, `parse` can only throw an out-of-range error |
| Colors.Equals | projects/color/src/lib/color.ts:187-194 | as written, `equals` fails only when coercing the argument fails; without `ignoreAlpha` it compares alpha alone, and with it, equal channels or equal alpha suffice |
| Colors.EqualsIntended | projects/color/src/lib/color.ts:187-194 | corrected `equals`: true exactly when the channels agree and, unless `ignoreAlpha`, the alphas agree too |
| Colors.BlendRatios | projects/color/src/lib/color.ts:281-293 | `bestAlpha` collects one ratio for each channel on which background and overlay differ |
| Text.Div | projects/color/src/lib/color.ts:245 | dividing by a positive constant keeps NaN as NaN and otherwise gives the exact quotient |
| Text.Add | projects/color/src/lib/color.ts:235-237 | adding a constant to a hue keeps NaN as NaN and otherwise shifts it by exactly that constant |
| Text.To2PlaceHex | projects/color/src/lib/color.ts:313-316 | a channel below 256 is written as exactly two lower-case hex digits that read back as the channel |
| Text.DecimalText | projects/color/src/lib/color.ts:177-179 | `String(n)` of a channel is a non-empty run of decimal digits, without a leading zero, that reads back as `n` |
| Text.ParseFloat | projects/color/src/lib/color.ts:253 | `parseFloat` of a digits-and-dots group is NaN exactly when the text starts neither with a digit nor with a dot followed by a digit; otherwise it is a non-negative number |
| Text.DigitValue | projects/color/src/lib/color.ts:249 | each hex digit has a value below 16, and a value below 10 exactly for the decimal digits |
| Text.HexChar | projects/color/src/lib/color.ts:314 | `toString(16)` writes each digit value below 16 as a lower-case hex digit that reads back as that value |
| Text.LowerIdempotent | projects/color/src/lib/color.ts:143 | lower-casing a lower-cased text changes nothing |
| Text.LowerAppend | projects/color/src/lib/color.ts:143 | lower-casing works character by character, so it distributes over concatenation |
| Patterns.Hex6 | projects/color/src/lib/color.ts:248 | the `#rrggbb` pattern captures three two-digit hex groups laid out after a `#` |
| Patterns.Rgb | projects/color/src/lib/color.ts:250 | the `rgb(...)` pattern captures three non-empty runs of decimal digits, and only from a text containing `(` |
| Patterns.Rgba | projects/color/src/lib/color.ts:252 | the `rgba(...)` pattern captures three decimal runs and one digits-and-dots run, and only from a text containing `(` |
| Patterns.Hex3 | projects/color/src/lib/color.ts:254 | the `#rgb` pattern captures three single hex digits laid out after a `#` |
| Patterns.Hsl | projects/color/src/lib/color.ts:256 | the `hsl(...)` pattern captures three digits-and-dots runs, and only from a text containing `(` |
| Patterns.Hsla | projects/color/src/lib/color.ts:258 | the `hsla(...)` pattern captures four digits-and-dots runs, and only from a text containing `(` |
| Patterns.Hex6Accepts | projects/color/src/lib/color.ts:248 | `#` followed by three hex pairs, with any white space before or after, is accepted by the 6-digit pattern with exactly those pairs captured |
| Patterns.Hex3Accepts | projects/color/src/lib/color.ts:254 | `#` followed by three hex digits, with any white space around, is accepted by the 3-digit pattern with those digits captured |
| Patterns.RgbAccepts | projects/color/src/lib/color.ts:250 | the text `rgb(x, y, z)` with decimal runs x, y, z is accepted with exactly x, y, z captured |
| NamedColors.FirstIndexSpec | projects/color/src/lib/color.ts:156-160 | a scan of the table returns a matching entry with no match before it, and returns nothing only when no entry matches |
| NamedColors.IndexOfName | projects/color/src/lib/color.ts:262 | `namedColorListI.indexOf` finds the first entry whose lower-cased name equals the lower-cased query, or reports that none does |
| NamedColors.KeyIndex | projects/color/src/lib/color.ts:154 | `namedColors[n]` finds the entry named exactly `n`, or reports that none is |
| NamedColors.KeyIndexOf | projects/color/src/lib/color.ts:154 | because names are distinct, looking an entry up by its own name finds that entry |
| NamedColors.FirstWithChannels | projects/color/src/lib/color.ts:156-160 | the channel scan finds the first entry with the given channels, or reports that none has them |
| ColorClass.Color.constructor | projects/color/src/lib/color.ts:59-66 | a new object starts as opaque black without a name, and keeps the invariant |
| ColorClass.Color.SetR | projects/color/src/lib/color.ts:72-76 | `set r` refuses exactly the values outside [0, 256) and leaves the object unchanged when it does; otherwise it changes `r` alone, to the floor of the value, keeping the invariant |
| ColorClass.Color.SetG | projects/color/src/lib/color.ts:82-86 | `set g`, as for `r` |
| ColorClass.Color.SetB | projects/color/src/lib/color.ts:92-96 | `set b`, as for `r` |
| ColorClass.Color.SetA | projects/color/src/lib/color.ts:102-106 | `set a` refuses exactly the values outside [0, 1] and leaves the object unchanged when it does; otherwise it changes `a` alone, to the value itself |
| ColorClass.Color.Create | projects/color/src/lib/color.ts:59-66 | `new Color(r, g, b, a)` running the four setters in order on a fresh object gives exactly what `Construct` specifies: the same state, or the same first error |
| ColorClass.Color.Clone | projects/color/src/lib/color.ts:107-113 | `clone(a)` returns a fresh copy holding the old channels, alpha and cached name, while the alpha argument goes to the original object's setter; a refused alpha throws and leaves the original unchanged |
| ColorClass.Color.ToName | projects/color/src/lib/color.ts:152-162 | the fast path followed by the scan loop returns `NameOf` of the object's state |
| ColorClass.Color.Parse | projects/color/src/lib/color.ts:247-269 | `parse(c, a)` builds a fresh object whose state, including the cached table name, is `ParseResult`, or throws the error `ParseResult` names |
| ColorClass.Color.BestAlpha | projects/color/src/lib/color.ts:277-295 | `bestAlpha` coerces its three arguments in order, stops at the first error, and otherwise returns `BestAlphaOf` of the coerced colours |
| ColorClass.Color.Blend | projects/color/src/lib/color.ts:281-294 | the accumulating branches compute the mean of the ratios of the differing channels, or 1 when no channel differs |
| ColorProperties.ConstructDefaults | projects/color/src/lib/color.ts:59-66 | `new Color()` is opaque black without a name |
| ColorProperties.ConstructExact | projects/color/src/lib/color.ts:61-106 | integer channels in 0..255 and an alpha in [0, 1] are stored exactly as given |
| ColorProperties.FromRatiosQuotients | projects/color/src/lib/color.ts:244-246 | `fromRatios` of integers below 65536 stores their integer quotients by 256, with alpha 1 |
| ColorProperties.HexFormat | projects/color/src/lib/color.ts:180-181 | `toString("#")` is `#` followed by exactly six lower-case hex digits |
| ColorProperties.HexRoundTrip | projects/color/src/lib/color.ts:248-249 | parsing the `#` text of a colour, with any white space around it, gives back its channels, with alpha 1 and no name |
| ColorProperties.RgbFormat | projects/color/src/lib/color.ts:178-179 | `toString("rgb")` writes `rgb(r, g, b)` with the channels in decimal |
| ColorProperties.RgbRoundTrip | projects/color/src/lib/color.ts:250-251 | parsing the `rgb` text of a colour gives back its channels, with alpha 1 and no name |
| ColorProperties.DoubledDigit | projects/color/src/lib/color.ts:255 | a hex digit written twice reads as 17 times the digit's value |
| ColorProperties.Hex3Value | projects/color/src/lib/color.ts:254-255 | `#xyz` parses to channels 17·x, 17·y, 17·z with alpha 1 |
| ColorProperties.Hex6DoubledValue | projects/color/src/lib/color.ts:248-249 | `#xxyyzz` parses to the same channels 17·x, 17·y, 17·z |
| ColorProperties.Hex3Channels | projects/color/src/lib/color.ts:248-255 | the 3-digit form `#xyz` and the 6-digit form `#xxyyzz` parse to the same colour |
| ColorProperties.ParseCallAlpha | projects/color/src/lib/color.ts:247-267 | up to the constructor call, a numeric alpha argument changes nothing in `parse` but the alpha passed on, and never which texts are accepted |
| ColorProperties.ParseAlphaOverride | projects/color/src/lib/color.ts:249-267 | a valid alpha argument replaces whatever alpha the text gives, whether none, the `rgba`/`hsla` alpha or the 0 of `transparent`, and changes nothing else |
| ColorProperties.NoShapeWithout | projects/color/src/lib/color.ts:248-259 | a text with neither `#` nor `(` matches none of the six patterns |
| ColorProperties.ParseTransparent | projects/color/src/lib/color.ts:260-261 | `transparent`, in any case, parses to (0, 0, 0) with alpha 0, or with the alpha argument when one is given |
| ColorProperties.ParseUnrecognized | projects/color/src/lib/color.ts:247-265 | `parse` throws "Unrecognized color format" exactly when no pattern matches, the text is not `transparent` and no table name equals it ignoring case |
| ColorProperties.TransparentNoShape | projects/color/src/lib/color.ts:248-260 | a text that lower-cases to `transparent` matches none of the six patterns |
| ColorProperties.ShapedRecognized | projects/color/src/lib/color.ts:248-264 | a text that one of the patterns matches never gets "Unrecognized color format" |
| ColorProperties.TransparentRecognized | projects/color/src/lib/color.ts:260-264 | `transparent` never gets "Unrecognized color format" |
| ColorProperties.NameLookupUnrecognized | projects/color/src/lib/color.ts:262-264 | past the patterns and `transparent`, "Unrecognized color format" is thrown exactly when the lower-cased table lookup fails |
| ColorProperties.Hex3Call | projects/color/src/lib/color.ts:254-255 | `#xyz` reaches the 3-digit branch, which reads each digit doubled, keeping the alpha argument |
| ColorProperties.IndexOfOwnName | projects/color/src/lib/color.ts:262 | in a table of lower-case names, the lower-cased lookup of an entry's name finds that entry |
| ColorProperties.ParseTableName | projects/color/src/lib/color.ts:262-268 | a text that the lower-cased lookup finds at an entry parses to that entry's channels with the entry's own spelling of the name cached, whatever the query's case, and `toName` of the result returns that name |
| ColorProperties.ParseOwnName | projects/color/src/lib/color.ts:262-268 | with lower-case names, parsing an entry's own name gives that entry, and `toName` of the result returns it |
| ColorProperties.SpacedUnrecognized | projects/color/src/lib/color.ts:260-265 | a text without `#` or `(` that starts or ends with a space is unrecognised, since neither `transparent` nor the table lookup trims |
| ColorProperties.SpacedNameUnrecognized | projects/color/src/lib/color.ts:262-264 | a table name with a space before or after it is unrecognised |
| ColorProperties.SpacedTransparentUnrecognized | projects/color/src/lib/color.ts:260-264 | ` transparent` with a leading space is unrecognised |
| ColorProperties.NameOfFirstMatch | projects/color/src/lib/color.ts:156-160 | without a usable cached name, `toName` returns the name of the first entry, in table order, that has the colour's channels |
| ColorProperties.NameOfNone | projects/color/src/lib/color.ts:152-161 | `toName` returns nothing exactly when the fast path does not apply and no entry has the colour's channels |
| ColorProperties.NameOfIgnoresAlpha | projects/color/src/lib/color.ts:152-161 | `toName` does not depend on alpha |
| ColorProperties.MatchesNameSpec | projects/color/src/lib/color.ts:142-151 | `matchesName` ignores the case of its argument; `transparent` matches exactly the colours with alpha 0; a name missing from the table never matches; for any other name the answer does not depend on alpha |
| ColorProperties.MatchesNameChannels | projects/color/src/lib/color.ts:146-150 | for a name in the table, `matchesName` holds exactly when the colour's channels equal those of the first entry with that name |
| ColorProperties.ToStringDefault | projects/color/src/lib/color.ts:164-177 | no selector, the empty selector and `rgba` all give `rgba(r, g, b, a)` |
| ColorProperties.ToStringIgnoresCase | projects/color/src/lib/color.ts:166-167 | a non-empty selector gives the same result as its lower-cased form |
| ColorProperties.ToStringName | projects/color/src/lib/color.ts:168-171 | a selector starting with `name` gives the colour's name whenever it has a non-empty one |
| ColorProperties.ToStringNameUnnamed | projects/color/src/lib/color.ts:172-173 | the selector `name` on a colour without a name throws "color is not a named color" |
| ColorProperties.ToStringNameRgbFallback | projects/color/src/lib/color.ts:174-179 | the selector `name?` on a colour without a name falls back to `rgb(r, g, b)` |
| ColorProperties.ToStringNameHexFallback | projects/color/src/lib/color.ts:174-181 | the selector `name?#` on a colour without a name falls back to the `#` text |
| ColorProperties.ToStringOther | projects/color/src/lib/color.ts:182-185 | every other selector goes to the HSL formatter, with alpha for `hsla` only |
| ColorProperties.EqualsAsWritten | projects/color/src/lib/color.ts:190-193 | as written, `equals(c, false)` compares alpha only, and `equals(c, true)` holds when either the channels or the alphas agree |
| ColorProperties.FromExistingCopies | projects/color/src/lib/color.ts:270-274 | `from` of an existing colour is a copy without its cached name, with alpha replaced by a valid argument; an invalid argument throws |
| ColorProperties.FromRgbAlpha | projects/color/src/lib/color.ts:198-208 | `fromRgb` takes alpha from the argument, else from the value, else 1, and succeeds exactly when the channels and that alpha are in range |
| ColorProperties.FromHslSpec | projects/color/src/lib/color.ts:213-239 | `fromHsl` checks h, s and l in that order and throws for the first number below 0 or above 1; NaN passes those checks, and a NaN s or l then fails at the r setter with NaN; it succeeds exactly when h is NaN or in [0, 1], s and l are in [0, 1] and alpha is valid, with a well-formed colour without a name; zero saturation gives a gray at `round(l * 255)`, and so does a NaN hue give a gray |
| ColorProperties.HslNaNHueGray | projects/color/src/lib/color.ts:223-231 | `fromHsl(NaN, 0, 0.5)` passes the checks and gives (128, 128, 128) with alpha 1 |
| ColorProperties.HslNaNHueSaturated | projects/color/src/lib/color.ts:233-239 | `fromHsl(NaN, 1, 0.5)` passes the checks and gives opaque black, since `hueToRgb` returns p = 0 for a NaN hue |
| ColorProperties.BestAlphaRecovers | projects/color/src/lib/color.ts:281-294 | when the apparent colour lies on the line from background to overlay at fraction x on every channel, and some channel differs, `bestAlpha` returns x |
| ColorProperties.BestAlphaAllAgree | projects/color/src/lib/color.ts:294 | a background and an overlay that agree on every channel give 1 |
| ColorProperties.BestAlphaOfOverlay | projects/color/src/lib/color.ts:281-294 | an apparent colour equal to the overlay gives 1 |
| ColorProperties.BestAlphaOfBackground | projects/color/src/lib/color.ts:281-294 | an apparent colour equal to the background gives 0 when some channel differs |
| AsWritten.ChannelSetterAsWritten | projects/color/src/lib/color.ts:73-75 | the channel guard as written throws only for finite values outside [0, 256), so NaN passes and is stored as NaN |
| AsWritten.AlphaSetterAsWritten | projects/color/src/lib/color.ts:103-105 | the alpha guard as written throws only for finite values outside [0, 1], and stores whatever else it gets |
| AsWritten.SettersAsWrittenStoreNaN | projects/color/src/lib/color.ts:72-106 | as written, every setter stores NaN, a value outside every range the setters promise |
| AsWritten.SettersAgreeOnNumbers | projects/color/src/lib/color.ts:72-106 | on every value other than NaN, the corrected setters accept and store exactly what the setters as written do |
| AsWritten.CorrectedSettersRefuseNaN | projects/color/src/lib/color.ts:72-106 | the corrected setters refuse NaN with an out-of-range error |
| AsWritten.DotAlphaText | projects/color/src/lib/color.ts:252-253 | the `rgba` pattern accepts `rgba(0,0,0,.)` with `.` as its alpha group, and `parseFloat(".")` is NaN |
| AsWritten.DotAlphaRefused | projects/color/src/lib/color.ts:252-253 | with the corrected setter, `parse("rgba(0,0,0,.)")` throws an out-of-range error for alpha NaN |
| AsWritten.EqualsPrecedenceWitness | projects/color/src/lib/color.ts:190-193 | opaque black and opaque white are equal as written and unequal as intended |
| AsWritten.EqualsIntendedProperties | projects/color/src/lib/color.ts:187-194 | corrected `equals` is reflexive and symmetric, compares channels only under `ignoreAlpha`, and equality with alpha implies equality without it |
| AsWritten.EqualsAgreeWhenChannelsEqual | projects/color/src/lib/color.ts:190-193 | the two versions of `equals` agree whenever the channels are equal |

## Left out

- `toHsl` (color.ts:114-133) is floating-point maths and is not modelled. So the `hsl`/`hsla` output of `toString` and `to1PlaceDecimal` is not modelled either: `toString` returns the marker `ViaHsl(withAlpha)` for those selectors and for any unknown one.
- `bestBWContrast` is not modelled: it uses `Math.pow` with exponent 2.2 in floating point.
- `random` and `randomChannel` are not modelled: they depend on `Math.random`.
- `namedColorList()` is not modelled as a member: it returns the table's names, here `t[i].name` in table order.
- The named-colour table `./named-colors` is not part of this model. It is the parameter `t`.
- JavaScript's number-to-string of alpha in `toString("rgba")` is the function parameter `alphaText`. The channels are integers, and their text is modelled (`Text.DecimalText`).
- Colours are computed over exact reals, not IEEE doubles, and infinities are not represented. This affects `fromHsl`, `hueToRgb`, `Math.round`, the divisions of `fromRatios` and the `hsl`/`hsla` branches of `parse`. For example, `1 / 3` is exact here, and a channel from `fromHsl` may differ by one from the double result near a rounding boundary.
- `toLowerCase` is modelled for ASCII, the Kelvin sign (U+212A) and U+0130. These are the only code points whose lower-case forms contain ASCII letters, which is all that comparing against ASCII names and selectors needs. Strings are sequences of characters, not UTF-16 code units.
- Arguments of the wrong JavaScript type are not modelled. This covers objects that have neither numeric `r`, `g`, `b` nor numeric `h`, `s`, `l`, and non-numeric optional arguments, which `typeof` checks treat as absent.
- The global `RegExp.$n` state is not modelled: each recogniser returns its capture groups.
- The demo component `src/app/app.component.ts` is not modelled.
- The table's own-property lookup `namedColors[this._n]` in the `toName` fast path is an exact key search. Inherited properties of JavaScript objects are not modelled.
- ColorProperties.ParseOwnName: assumes the table's names are lower-case ASCII letters (`PlainTable`), as the CSS names are, because the table's contents are not part of this model. `ColorProperties.ParseTableName` states the general case.
- ColorProperties.IndexOfOwnName: assumes the table's names are lower-case ASCII letters (`PlainTable`), as the CSS names are, because the table's contents are not part of this model.
- ColorProperties.SpacedUnrecognized: assumes the table's names are lower-case ASCII letters (`PlainTable`), as the CSS names are, because the table's contents are not part of this model.
- ColorProperties.SpacedNameUnrecognized: assumes the table's names are lower-case ASCII letters (`PlainTable`), as the CSS names are, because the table's contents are not part of this model.
- ColorProperties.SpacedTransparentUnrecognized: assumes the table's names are lower-case ASCII letters (`PlainTable`), as the CSS names are, because the table's contents are not part of this model.
- Colors.HslToChannels: it states the channel bounds and the two gray cases, not the exact channels of a saturated colour with a finite hue.
- Text.ParseFloat: it states when the result is NaN and that it is non-negative, not the exact value of a fractional text.

## Findings

| source | as written | input that shows it | evidently intended | confidence | as-written member | corrected member |
|---|---|---|---|---|---|---|
| projects/color/src/lib/color.ts:72-106 | the setter guards `x < 0 \|\| x >= 256` and `a < 0 \|\| a > 1` are false for NaN, so NaN is stored; `parse` reaches the alpha setter with `parseFloat(".")` | `Color.parse("rgba(0,0,0,.)")` gives a colour whose alpha is NaN | every stored channel and alpha lies in its range, as the error messages promise | not executed | AsWritten.AlphaSetterAsWritten | Colors.CheckAlpha |
| projects/color/src/lib/color.ts:190-193 | `&&` binds tighter than `?:`, so the result is `(same r, g, b && ignoreAlpha) ? true : same a` | opaque black `equals` opaque white gives true | same channels, and same alpha unless `ignoreAlpha` | not executed | Colors.Equals | Colors.EqualsIntended |

The NaN finding is shown by `AsWritten.SettersAsWrittenStoreNaN` and `AsWritten.DotAlphaText`.
The corrected setters are proved by `AsWritten.CorrectedSettersRefuseNaN` and `AsWritten.DotAlphaRefused`, and `Colors.CheckChannel` is the corrected channel setter.
The `equals` finding is shown by `AsWritten.EqualsPrecedenceWitness`.
The corrected `equals` is proved by `AsWritten.EqualsIntendedProperties`.

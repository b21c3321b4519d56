/**
 * The named-colour table (`./named-colors`, whose contents are not part of this model) and
 * the three searches the colour core makes in it: by lower-cased name (`indexOf` in the
 * lower-cased name list), by exact name (property access `namedColors[n]`) and by
 * channels (the `toName` scan).
 */
module NamedColors {
  import opened Common
  import opened Text

  /** One entry of the table: its name as declared and its channels. */
  datatype NamedColor = NamedColor(name: string, r: int, g: int, b: int)

  /** Channels are integers in [0, 255]; names are distinct, being property names of one object. */
  predicate TableOk(t: seq<NamedColor>) {
    (forall i | 0 <= i < |t| :: 0 <= t[i].r <= 255 && 0 <= t[i].g <= 255 && 0 <= t[i].b <= 255)
    && (forall i, j | 0 <= i < j < |t| :: t[i].name != t[j].name)
  }

  /** The table, in the order `Object.getOwnPropertyNames` lists its names. */
  type Table = t: seq<NamedColor> | TableOk(t) witness []

  /** What a search looks for. */
  datatype Query =
    | LowerName(q: string)         // lower-cased name equals `Lower(q)`
    | ExactName(n: string)         // name equals `n`
    | Channels(r: int, g: int, b: int)

  predicate Matches(e: NamedColor, q: Query) {
    match q
    case LowerName(s) => Lower(e.name) == Lower(s)
    case ExactName(n) => e.name == n
    case Channels(r, g, b) => e.r == r && e.g == g && e.b == b
  }

  /** The first index at or after `from` whose entry matches `q`. */
  function FirstIndex(t: Table, q: Query, from: nat): Option<nat>
    decreases |t| - from
  {
    if from >= |t| then None
    else if Matches(t[from], q) then Some(from)
    else FirstIndex(t, q, from + 1)
  }

  /** `FirstIndex` finds a matching entry with none before it, and finds nothing only when nothing matches. */
  lemma {:induction false} FirstIndexSpec(t: Table, q: Query, from: nat)
    ensures FirstIndex(t, q, from).Some? ==>
      var i := FirstIndex(t, q, from).value;
      from <= i < |t| && Matches(t[i], q) && forall j | from <= j < i :: !Matches(t[j], q)
    ensures FirstIndex(t, q, from).None? ==> forall j | from <= j < |t| :: !Matches(t[j], q)
    decreases |t| - from
  {
    if from < |t| && !Matches(t[from], q) {
      FirstIndexSpec(t, q, from + 1);
    }
  }

  /** Any index carrying the query is at or after the one `FirstIndex` returns. */
  lemma FirstIndexIsFirst(t: Table, q: Query, i: nat)
    requires i < |t| && Matches(t[i], q)
    ensures FirstIndex(t, q, 0).Some? && FirstIndex(t, q, 0).value <= i
  {
    FirstIndexSpec(t, q, 0);
  }

  /** `namedColorListI.indexOf(q.toLowerCase())`. */
  function IndexOfName(t: Table, q: string): (r: Option<nat>)
    ensures r.Some? ==> r.value < |t| && Lower(t[r.value].name) == Lower(q)
    ensures r.Some? ==> forall j | 0 <= j < r.value :: Lower(t[j].name) != Lower(q)
    ensures r.None? ==> forall j | 0 <= j < |t| :: Lower(t[j].name) != Lower(q)
  {
    FirstIndexSpec(t, LowerName(q), 0);
    FirstIndex(t, LowerName(q), 0)
  }

  /** `namedColors[n]`: the entry whose name is exactly `n`, if there is one. */
  function KeyIndex(t: Table, n: string): (r: Option<nat>)
    ensures r.Some? ==> r.value < |t| && t[r.value].name == n
    ensures r.None? ==> forall j | 0 <= j < |t| :: t[j].name != n
  {
    FirstIndexSpec(t, ExactName(n), 0);
    FirstIndex(t, ExactName(n), 0)
  }

  /** Since names are distinct, the entry found by key is the only one with that name. */
  lemma KeyIndexOf(t: Table, i: nat)
    requires i < |t|
    ensures KeyIndex(t, t[i].name) == Some(i)
  {
    FirstIndexIsFirst(t, ExactName(t[i].name), i);
  }

  /** The first entry with the given channels, scanning from index `from`. */
  function FirstWithChannels(t: Table, r: int, g: int, b: int, from: nat): (k: Option<nat>)
    ensures k.Some? ==> from <= k.value < |t| && t[k.value].r == r && t[k.value].g == g && t[k.value].b == b
    ensures k.Some? ==> forall j | from <= j < k.value :: !(t[j].r == r && t[j].g == g && t[j].b == b)
    ensures k.None? ==> forall j | from <= j < |t| :: !(t[j].r == r && t[j].g == g && t[j].b == b)
  {
    FirstIndexSpec(t, Channels(r, g, b), from);
    FirstIndex(t, Channels(r, g, b), from)
  }
}

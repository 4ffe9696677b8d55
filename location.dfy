/**
 * The location string stored for a new restaurant: street, city and state
 * joined by ", ", and the split that reads the three parts back.
 */
module Location {
  import opened Optional

  const Separator: string := ", "

  /** The template `${streetAddress}, ${city}, ${state}`. */
  function Compose(street: string, city: string, state: string): (loc: string)
    ensures |loc| == |street| + |city| + |state| + 2 * |Separator|
    ensures loc[..|street|] == street && loc[|loc| - |state|..] == state
  {
    street + Separator + city + Separator + state
  }

  /** The index of the first comma in `s`, if any. */
  function FirstComma(s: string): (r: Option<nat>)
    ensures r.Some? ==> r.value < |s| && s[r.value] == ',' && ',' !in s[..r.value]
    ensures r.None? <==> ',' !in s
  {
    if s == [] then None
    else if s[0] == ',' then Some(0)
    else match FirstComma(s[1..])
      case None => None
      case Some(i) => assert s[..i + 1] == [s[0]] + s[1..][..i]; Some(i + 1)
  }

  /** Cuts `s` at its first ", ": the part before and the part after. */
  function SplitOnce(s: string): Option<(string, string)> {
    match FirstComma(s)
    case None => None
    case Some(i) =>
      if i + 1 < |s| && s[i + 1] == ' ' then Some((s[..i], s[i + 2..])) else None
  }

  /** Reads street, city and state back from a composed location. */
  function Decompose(loc: string): Option<(string, string, string)> {
    match SplitOnce(loc)
    case None => None
    case Some((street, rest)) =>
      match SplitOnce(rest)
      case None => None
      case Some((city, state)) => Some((street, city, state))
  }

  lemma SplitOnceAt(a: string, b: string)
    requires ',' !in a
    ensures SplitOnce(a + Separator + b) == Some((a, b))
  {
    var s := a + Separator + b;
    assert s[..|a|] == a;
    assert ',' !in s[..|a|];
    assert s[|a|] == ',';
    assert FirstComma(s) == Some(|a|);
    assert s[|a| + 2..] == b;
  }

  /** Composing and reading back gives the three parts, provided street and
      city contain no comma (the state may contain anything). */
  lemma DecomposeCompose(street: string, city: string, state: string)
    requires ',' !in street && ',' !in city
    ensures Decompose(Compose(street, city, state)) == Some((street, city, state))
  {
    assert Compose(street, city, state) == street + Separator + (city + Separator + state);
    SplitOnceAt(street, city + Separator + state);
    SplitOnceAt(city, state);
  }

  /** With a comma in the street the parts cannot be told apart: two
      different addresses give the same location string. */
  lemma ComposeAmbiguous()
    ensures Compose("1 Main St, Apt 2", "Denver", "CO") == Compose("1 Main St", "Apt 2, Denver", "CO")
  {
  }
}

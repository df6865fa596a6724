/** The three fullness levels a category can be reported at. Every page compares
    a cell's value against the strings "light", "medium" and "heavy" with `===`;
    anything else (the empty selection, null, undefined, a timestamp) is no level. */
module Levels {
  import opened Json

  datatype Level = Light | Medium | Heavy

  function Name(l: Level): string {
    match l
    case Light => "light"
    case Medium => "medium"
    case Heavy => "heavy"
  }

  /** The level a value stands for, if it is exactly one of the three level strings. */
  function ParseLevel(v: Value): (r: Option<Level>)
    ensures forall l :: v == Str(Name(l)) ==> r == Some(l)
    ensures r.Some? ==> v == Str(Name(r.value))
  {
    if v == Str("light") then Some(Light)
    else if v == Str("medium") then Some(Medium)
    else if v == Str("heavy") then Some(Heavy)
    else None
  }

  /** A submission timestamp is never mistaken for a level. */
  lemma TimestampIsNoLevel(t: string)
    requires IsIsoTimestamp(t)
    ensures ParseLevel(Str(t)) == None
  {
  }
}

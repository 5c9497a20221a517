/** `detect_nuts_type`: the geographic level a file holds, read off its name. */
module Classifier {
  import opened Text

  datatype NutsType = Nuts3 | Nuts2 | Nuts1 | Nuts0 | Country | Unknown

  /** The value written in the `nuts_type` column. */
  function TagName(t: NutsType): string
  {
    match t
    case Nuts3 => "nuts3"
    case Nuts2 => "nuts2"
    case Nuts1 => "nuts1"
    case Nuts0 => "nuts0"
    case Country => "country"
    case Unknown => "unknown"
  }

  /** The written values tell the levels apart, and each NUTS level is
      written as the keyword that selects it. */
  lemma TagNameDistinct(t: NutsType, u: NutsType)
    ensures TagName(t) == TagName(u) <==> t == u
    ensures t != Country && t != Unknown ==> TagName(t) == Keyword(t)
  {
  }

  /** The order in which the name tests are tried. */
  const Precedence: seq<NutsType> := [Nuts3, Nuts2, Nuts1, Nuts0, Country]

  /** The lower-case substring that selects each tag. */
  function Keyword(t: NutsType): string
    requires t != Unknown
  {
    match t
    case Nuts3 => "nuts3"
    case Nuts2 => "nuts2"
    case Nuts1 => "nuts1"
    case Nuts0 => "nuts0"
    case Country => "countries"
  }

  /** Position of a tag in `Precedence`; `Unknown` comes after all of them. */
  function Rank(t: NutsType): nat
  {
    match t
    case Nuts3 => 0
    case Nuts2 => 1
    case Nuts1 => 2
    case Nuts0 => 3
    case Country => 4
    case Unknown => 5
  }

  /** A tag other than `Unknown` is only given when its keyword occurs. */
  function DetectNutsType(filename: string): (t: NutsType)
    ensures t != Unknown ==> Contains(Lower(filename), Keyword(t))
  {
    var name := Lower(filename);
    if Contains(name, "nuts3") then Nuts3
    else if Contains(name, "nuts2") then Nuts2
    else if Contains(name, "nuts1") then Nuts1
    else if Contains(name, "nuts0") then Nuts0
    else if Contains(name, "countries") then Country
    else Unknown
  }

  /** The tag is the first one in precedence order whose keyword occurs in the
      lower-cased name, and `Unknown` exactly when none occurs. */
  lemma DetectIsFirstKeyword(filename: string)
    ensures var t := DetectNutsType(filename);
      && Rank(t) <= |Precedence|
      && (t != Unknown ==> Precedence[Rank(t)] == t && Contains(Lower(filename), Keyword(t)))
      && (forall i :: 0 <= i < Rank(t) ==> !Contains(Lower(filename), Keyword(Precedence[i])))
  {
  }

  /** Classifying the lower-cased name gives the same tag: the test ignores case. */
  lemma DetectIgnoresCase(filename: string)
    ensures DetectNutsType(Lower(filename)) == DetectNutsType(filename)
  {
    LowerIdempotent(filename);
  }

  /** A keyword spelled in any case pins the tag to that keyword's level or a
      higher one; in particular any name holding "NUTS3" is tagged nuts3,
      whatever else it holds. */
  lemma KeywordBoundsTag(filename: string, word: string, i: nat)
    requires i < |Precedence| && Contains(filename, word) && Lower(word) == Keyword(Precedence[i])
    ensures Rank(DetectNutsType(filename)) <= i
  {
    LowerKeepsContains(filename, word);
  }

  /** The example of a name carrying two levels: the finer one wins. */
  lemma Nuts3BeatsNuts1(filename: string)
    requires Contains(filename, "NUTS3") && Contains(filename, "nuts1")
    ensures DetectNutsType(filename) == Nuts3
  {
    assert Lower("NUTS3") == "nuts3";
    KeywordBoundsTag(filename, "NUTS3", 0);
  }
}

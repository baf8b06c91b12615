/** The beer entity, its enumerated style and the text tests the service
    applies to nullable strings. */
module Beers {
  import opened Wrappers

  /** A beer's identity (a UUID assigned when the beer is first saved). */
  type Uuid = nat

  /** Creation and modification instants, as opaque clock readings. */
  type Timestamp = int

  /** The enumerated beer style. `StyleName` gives each constant's declared
      Java name, which is what `BeerStyle.valueOf` matches against. */
  datatype BeerStyle = Lager | Pilsner | Stout | Gose | Porter | Ale | Wheat | Ipa | PaleAle | Saison

  const AllStyles: seq<BeerStyle> :=
    [Lager, Pilsner, Stout, Gose, Porter, Ale, Wheat, Ipa, PaleAle, Saison]

  function StyleName(style: BeerStyle): string {
    match style
    case Lager => "LAGER"
    case Pilsner => "PILSNER"
    case Stout => "STOUT"
    case Gose => "GOSE"
    case Porter => "PORTER"
    case Ale => "ALE"
    case Wheat => "WHEAT"
    case Ipa => "IPA"
    case PaleAle => "PALE_ALE"
    case Saison => "SAISON"
  }

  /** The first style in `styles` whose declared name is exactly `s`. */
  function FindStyle(s: string, styles: seq<BeerStyle>): (r: Option<BeerStyle>)
    ensures r.Some? ==> r.value in styles && StyleName(r.value) == s
    ensures r.None? ==> forall style :: style in styles ==> StyleName(style) != s
  {
    if styles == [] then None
    else if StyleName(styles[0]) == s then Some(styles[0])
    else FindStyle(s, styles[1..])
  }

  /** `BeerStyle.valueOf(s)`: the constant named exactly `s` (case and
      surrounding blanks included); `None` where Java throws
      `IllegalArgumentException`. */
  function ParseStyle(s: string): (r: Option<BeerStyle>)
    ensures r.Some? ==> StyleName(r.value) == s
    ensures r.None? ==> forall style :: StyleName(style) != s
  {
    FindStyle(s, AllStyles)
  }

  /** A persisted beer, or the transfer object of the same shape. Every
      nullable Java field is an `Option`. */
  datatype Beer = Beer(
    id: Option<Uuid>,
    version: Option<int>,
    beerName: Option<string>,
    beerStyle: Option<BeerStyle>,
    upc: Option<string>,
    price: Option<real>,
    quantityOnHand: Option<int>,
    createdDate: Option<Timestamp>,
    updateDate: Option<Timestamp>)

  /** `Character.isWhitespace`: the space, line and paragraph separators
      except the non-breaking ones (U+00A0, U+2007, U+202F), plus the
      controls U+0009..U+000D and U+001C..U+001F. */
  predicate IsWhitespace(c: char) {
    var n := c as int;
    || 9 <= n <= 13
    || 28 <= n <= 32
    || n == 0x1680
    || 0x2000 <= n <= 0x2006
    || 0x2008 <= n <= 0x200A
    || n == 0x2028 || n == 0x2029
    || n == 0x205F
    || n == 0x3000
  }

  /** Whether `s` is not blank, scanning it from the front. */
  function HasNonWhitespace(s: string): (r: bool)
    ensures r <==> exists i :: 0 <= i < |s| && !IsWhitespace(s[i])
  {
    if s == [] then false
    else !IsWhitespace(s[0]) || HasNonWhitespace(s[1..])
  }

  /** `StringUtils.hasText`: the string is not null and holds at least one
      non-whitespace character. */
  function HasText(s: Option<string>): (r: bool)
    ensures r <==> s.Some? && exists i :: 0 <= i < |s.value| && !IsWhitespace(s.value[i])
    ensures r ==> s.Some? && s.value != []
  {
    s.Some? && HasNonWhitespace(s.value)
  }
}

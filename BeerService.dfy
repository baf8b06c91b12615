/** The JPA beer service: listing with optional name and style filters,
    paging and inventory redaction; lookup; creation; full and partial
    update; deletion. The entity-to-transfer-object mapper is the identity,
    since a beer and its transfer object carry the same fields. */
module BeerService {
  import opened Wrappers
  import opened Beers
  import opened SqlLike
  import opened Paging
  import opened Repository

  /** Why a listing request throws `IllegalArgumentException`. */
  datatype ListError =
    | PageSizeBelowOne(pageSize: int)
    | UnknownStyle(styleName: string)

  /** The LIKE pattern the name variants pass: the name surrounded by `%`. */
  function NamePattern(beerName: string): (p: string)
    ensures |p| == |beerName| + 2 && p[0] == '%' && p[|p| - 1] == '%'
    ensures p[1..|p| - 1] == beerName
  {
    "%" + beerName + "%"
  }

  /** The precedence chain of `listBeers`: by name when the name has text
      and the style is null; else by style when the style has text and the
      name is null; else by both when both have text; else everything. The
      style variants fail on a style string that names no `BeerStyle`. */
  function SelectQuery(beerName: Option<string>, beerStyle: Option<string>): (r: Result<Query, ListError>)
    ensures r.Success? && r.value.ByName? <==> HasText(beerName) && beerStyle.None?
    ensures r.Success? && r.value.ByStyle? <==>
              HasText(beerStyle) && beerName.None? && ParseStyle(beerStyle.value).Some?
    ensures r.Success? && r.value.ByNameAndStyle? <==>
              HasText(beerStyle) && HasText(beerName) && ParseStyle(beerStyle.value).Some?
    ensures r.Failure? <==>
              HasText(beerStyle) && (beerName.None? || HasText(beerName)) && ParseStyle(beerStyle.value).None?
    ensures r.Failure? ==> r.error == UnknownStyle(beerStyle.value)
    ensures r.Success? && r.value.All? <==>
              !(HasText(beerName) && beerStyle.None?) && !(HasText(beerStyle) && (beerName.None? || HasText(beerName)))
    ensures r.Success? && (r.value.ByName? || r.value.ByNameAndStyle?) ==>
              r.value.namePattern == NamePattern(beerName.value)
    ensures r.Success? && (r.value.ByStyle? || r.value.ByNameAndStyle?) ==>
              StyleName(r.value.style) == beerStyle.value
  {
    if HasText(beerName) && beerStyle.None? then
      Success(ByName(NamePattern(beerName.value)))
    else if HasText(beerStyle) && beerName.None? then
      match ParseStyle(beerStyle.value)
      case Some(style) => Success(ByStyle(style))
      case None => Failure(UnknownStyle(beerStyle.value))
    else if HasText(beerStyle) && HasText(beerName) then
      match ParseStyle(beerStyle.value)
      case Some(style) => Success(ByNameAndStyle(NamePattern(beerName.value), style))
      case None => Failure(UnknownStyle(beerStyle.value))
    else
      Success(All)
  }

  /** Every beer of the list with its quantity-on-hand nulled and nothing
      else changed. */
  function Redacted(beers: seq<Beer>): (r: seq<Beer>)
    ensures |r| == |beers|
    ensures forall i :: 0 <= i < |r| ==>
              r[i].quantityOnHand.None? && r[i].(quantityOnHand := beers[i].quantityOnHand) == beers[i]
  {
    seq(|beers|, i requires 0 <= i < |beers| => beers[i].(quantityOnHand := None))
  }

  /** The inventory visibility rule: redact only when `showInventory` is
      explicitly false. */
  function WithInventory(showInventory: Option<bool>, beers: seq<Beer>): (r: seq<Beer>)
    ensures |r| == |beers|
    ensures forall i :: 0 <= i < |r| ==>
              && r[i].(quantityOnHand := beers[i].quantityOnHand) == beers[i]
              && r[i].quantityOnHand == (if showInventory == Some(false) then None else beers[i].quantityOnHand)
  {
    if showInventory == Some(false) then Redacted(beers) else beers
  }

  /** What `listBeers` returns for the stored beers `store` (in storage
      order). */
  function ListBeersResult(store: seq<Beer>, beerName: Option<string>, beerStyle: Option<string>,
                           showInventory: Option<bool>, pageNumber: Option<int>, pageSize: Option<int>)
    : (r: Result<Page<Beer>, ListError>)
    ensures !Accepted(BuildPageRequest(pageNumber, pageSize)) ==>
              r == Failure(PageSizeBelowOne(BuildPageRequest(pageNumber, pageSize).pageSize))
    ensures Accepted(BuildPageRequest(pageNumber, pageSize)) && SelectQuery(beerName, beerStyle).Failure? ==>
              r == Failure(SelectQuery(beerName, beerStyle).error)
    ensures r.Success? ==>
              && r.value.pageNumber == BuildPageRequest(pageNumber, pageSize).pageNumber
              && r.value.pageSize == BuildPageRequest(pageNumber, pageSize).pageSize
              && |r.value.content| <= r.value.pageSize <= MaxPageSize
              && r.value.totalElements <= |store|
  {
    var req := BuildPageRequest(pageNumber, pageSize);
    if !Accepted(req) then Failure(PageSizeBelowOne(req.pageSize))
    else match SelectQuery(beerName, beerStyle)
      case Failure(e) => Failure(e)
      case Success(q) =>
        var page := PageOf(Matching(store, q), req);
        Success(page.(content := WithInventory(showInventory, page.content)))
  }

  /** The five fields a caller owns. */
  function Owned(b: Beer): (Option<string>, Option<BeerStyle>, Option<string>, Option<real>, Option<int>) {
    (b.beerName, b.beerStyle, b.upc, b.price, b.quantityOnHand)
  }

  /** The fields the store manages: identity, version and timestamps. */
  function Managed(b: Beer): (Option<Uuid>, Option<int>, Option<Timestamp>, Option<Timestamp>) {
    (b.id, b.version, b.createdDate, b.updateDate)
  }

  /** The full update: name, style, UPC, price and quantity-on-hand are
      taken from `input`, null or not; everything else stays as found. */
  function Overwrite(found: Beer, input: Beer): (r: Beer)
    ensures Owned(r) == Owned(input)
    ensures Managed(r) == Managed(found)
  {
    found.(beerName := input.beerName, beerStyle := input.beerStyle, upc := input.upc,
           price := input.price, quantityOnHand := input.quantityOnHand)
  }

  /** The partial update: a string field is taken from `input` when it has
      text, any other field when it is not null; otherwise the found value
      stays. */
  function Patch(found: Beer, input: Beer): (r: Beer)
    ensures HasText(input.beerName) ==> r.beerName == input.beerName
    ensures !HasText(input.beerName) ==> r.beerName == found.beerName
    ensures input.beerStyle.Some? ==> r.beerStyle == input.beerStyle
    ensures input.beerStyle.None? ==> r.beerStyle == found.beerStyle
    ensures HasText(input.upc) ==> r.upc == input.upc
    ensures !HasText(input.upc) ==> r.upc == found.upc
    ensures input.price.Some? ==> r.price == input.price
    ensures input.price.None? ==> r.price == found.price
    ensures input.quantityOnHand.Some? ==> r.quantityOnHand == input.quantityOnHand
    ensures input.quantityOnHand.None? ==> r.quantityOnHand == found.quantityOnHand
    ensures Managed(r) == Managed(found)
  {
    found.(beerName := if HasText(input.beerName) then input.beerName else found.beerName,
           beerStyle := if input.beerStyle.Some? then input.beerStyle else found.beerStyle,
           upc := if HasText(input.upc) then input.upc else found.upc,
           price := if input.price.Some? then input.price else found.price,
           quantityOnHand := if input.quantityOnHand.Some? then input.quantityOnHand else found.quantityOnHand)
  }

  class BeerServiceJpa {
    const repository: BeerRepository

    constructor (repository: BeerRepository)
      ensures this.repository == repository
    {
      this.repository := repository;
    }

    /** `listBeers`. The fetched page's beers are redacted one by one, as the
        source does in place; the store itself is not written. */
    method ListBeers(beerName: Option<string>, beerStyle: Option<string>, showInventory: Option<bool>,
                     pageNumber: Option<int>, pageSize: Option<int>)
      returns (r: Result<Page<Beer>, ListError>)
      requires repository.Valid()
      ensures r == ListBeersResult(repository.Listing(), beerName, beerStyle, showInventory, pageNumber, pageSize)
    {
      var pageRequest := BuildPageRequest(pageNumber, pageSize);
      if !Accepted(pageRequest) {
        return Failure(PageSizeBelowOne(pageRequest.pageSize));
      }
      var selected := SelectQuery(beerName, beerStyle);
      if selected.Failure? {
        return Failure(selected.error);
      }
      var beerPage := repository.Find(selected.value, pageRequest);
      var content := beerPage.content;
      if showInventory.Some? && !showInventory.value {
        var i := 0;
        while i < |content|
          invariant 0 <= i <= |content| == |beerPage.content|
          invariant forall k :: 0 <= k < i ==> content[k] == beerPage.content[k].(quantityOnHand := None)
          invariant forall k :: i <= k < |content| ==> content[k] == beerPage.content[k]
        {
          content := content[i := content[i].(quantityOnHand := None)];
          i := i + 1;
        }
        assert content == Redacted(beerPage.content);
      }
      assert content == WithInventory(showInventory, beerPage.content);
      r := Success(beerPage.(content := content));
    }

    /** `getBeerById`: the stored beer, or empty for an unknown id. */
    method GetBeerById(id: Uuid) returns (r: Option<Beer>)
      requires repository.Valid()
      ensures r.Some? <==> id in repository.beers
      ensures r.Some? ==> r.value == repository.beers[id] && r.value.id == Some(id)
    {
      r := repository.FindById(id);
    }

    /** `saveNewBeer`. The identity the store generates is the parameter
        `newId`, which no stored beer carries. */
    method SaveNewBeer(beer: Beer, newId: Uuid) returns (saved: Beer)
      requires repository.Valid() && newId !in repository.beers
      modifies repository
      ensures repository.Valid()
      ensures saved == beer.(id := Some(newId))
      ensures repository.beers == old(repository.beers)[newId := saved]
      ensures repository.order == old(repository.order) + [newId]
    {
      saved := repository.Save(beer.(id := Some(newId)));
    }

    /** `updateBeerById`: empty and no change for an unknown id; otherwise
        the found beer with its five caller-owned fields replaced, saved. */
    method UpdateBeerById(beerId: Uuid, beer: Beer) returns (r: Option<Beer>)
      requires repository.Valid()
      modifies repository
      ensures repository.Valid()
      ensures beerId !in old(repository.beers) ==>
                r.None? && repository.beers == old(repository.beers) && repository.order == old(repository.order)
      ensures beerId in old(repository.beers) ==>
                && r == Some(Overwrite(old(repository.beers)[beerId], beer))
                && repository.beers == old(repository.beers)[beerId := r.value]
                && repository.order == old(repository.order)
    {
      var found := repository.FindById(beerId);
      if found.None? {
        return None;
      }
      var foundBeer := found.value;
      foundBeer := foundBeer.(beerName := beer.beerName);
      foundBeer := foundBeer.(beerStyle := beer.beerStyle);
      foundBeer := foundBeer.(upc := beer.upc);
      foundBeer := foundBeer.(price := beer.price);
      foundBeer := foundBeer.(quantityOnHand := beer.quantityOnHand);
      var saved := repository.Save(foundBeer);
      r := Some(saved);
    }

    /** `deleteById`: true, and the beer removed, exactly when the id is
        stored; false and no change otherwise. */
    method DeleteById(beerId: Uuid) returns (deleted: bool)
      requires repository.Valid()
      modifies repository
      ensures repository.Valid()
      ensures deleted <==> beerId in old(repository.beers)
      ensures repository.beers == old(repository.beers) - {beerId}
      ensures !deleted ==> repository.beers == old(repository.beers) && repository.order == old(repository.order)
      ensures deleted ==> repository.order == Without(old(repository.order), beerId)
    {
      deleted := repository.ExistsById(beerId);
      if deleted {
        repository.DeleteById(beerId);
      }
    }

    /** `patchBeerById`: empty and no change for an unknown id; otherwise
        the found beer with the fields `beer` supplies replaced, saved. */
    method PatchBeerById(beerId: Uuid, beer: Beer) returns (r: Option<Beer>)
      requires repository.Valid()
      modifies repository
      ensures repository.Valid()
      ensures beerId !in old(repository.beers) ==>
                r.None? && repository.beers == old(repository.beers) && repository.order == old(repository.order)
      ensures beerId in old(repository.beers) ==>
                && r == Some(Patch(old(repository.beers)[beerId], beer))
                && repository.beers == old(repository.beers)[beerId := r.value]
                && repository.order == old(repository.order)
    {
      var found := repository.FindById(beerId);
      if found.None? {
        return None;
      }
      var foundBeer := found.value;
      if HasText(beer.beerName) {
        foundBeer := foundBeer.(beerName := beer.beerName);
      }
      if beer.beerStyle.Some? {
        foundBeer := foundBeer.(beerStyle := beer.beerStyle);
      }
      if HasText(beer.upc) {
        foundBeer := foundBeer.(upc := beer.upc);
      }
      if beer.price.Some? {
        foundBeer := foundBeer.(price := beer.price);
      }
      if beer.quantityOnHand.Some? {
        foundBeer := foundBeer.(quantityOnHand := beer.quantityOnHand);
      }
      var saved := repository.Save(foundBeer);
      r := Some(saved);
    }
  }
}

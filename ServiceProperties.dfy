/** What the beer service promises, stated over the specification functions
    of the model: page arithmetic, which query a request selects and what
    that query returns, inventory redaction, and the full and partial update
    merges. */
module ServiceProperties {
  import opened Wrappers
  import opened Beers
  import opened SqlLike
  import opened Paging
  import opened Repository
  import opened BeerService

  // ---------------------------------------------------------------------
  // Styles

  /** A style's declared name parses back to that style. */
  lemma StyleNameRoundTrip(style: BeerStyle)
    ensures ParseStyle(StyleName(style)) == Some(style)
  {
  }

  /** A style's declared name has text. */
  lemma StyleNameHasText(style: BeerStyle)
    ensures HasText(Some(StyleName(style)))
  {
  }

  // ---------------------------------------------------------------------
  // Paging

  /** A valid 0-based request is reached from its 1-based page number. */
  lemma PageRequestRoundTrip(index: int, size: int)
    requires index >= 0 && 1 <= size <= MaxPageSize
    ensures BuildPageRequest(Some(index + 1), Some(size)) == PageRequest(index, size)
  {
  }

  /** Building a request from the page number and size of a built request
      changes nothing. */
  lemma BuildPageRequestStable(pageNumber: Option<int>, pageSize: Option<int>)
    ensures var r := BuildPageRequest(pageNumber, pageSize);
            BuildPageRequest(Some(r.pageNumber + 1), Some(r.pageSize)) == r
  {
  }

  /** Every element of a list sits on page `k / size`, at position
      `k % size`: paging loses nothing. */
  lemma ElementOnItsPage<T>(all: seq<T>, size: int, k: int)
    requires size >= 1 && 0 <= k < |all|
    ensures var p := PageOf(all, PageRequest(k / size, size));
            k % size < |p.content| && p.content[k % size] == all[k]
  {
  }

  // ---------------------------------------------------------------------
  // Query selection

  /** A name that is not null but blank makes the listing unfiltered,
      whatever the style, even a style that names no `BeerStyle`. */
  lemma BlankNameListsAll(beerName: Option<string>, beerStyle: Option<string>)
    requires beerName.Some? && !HasText(beerName)
    ensures SelectQuery(beerName, beerStyle) == Success(All)
  {
  }

  /** A style that is not null but blank makes the listing unfiltered,
      whatever the name. */
  lemma BlankStyleListsAll(beerName: Option<string>, beerStyle: Option<string>)
    requires beerStyle.Some? && !HasText(beerStyle)
    ensures SelectQuery(beerName, beerStyle) == Success(All)
  {
  }

  /** In particular a named query whose style is "" lists everything. */
  lemma EmptyStyleWithNameListsAll(beerName: string)
    ensures SelectQuery(Some(beerName), Some("")) == Success(All)
  {
  }

  /** A name with text and no style filters by name; for a search text
      without LIKE wildcards the filter keeps exactly the stored beers whose
      name contains it, ignoring ASCII case. */
  lemma ByNameSelectsContaining(store: seq<Beer>, beerName: string)
    requires HasText(Some(beerName)) && IsPlain(beerName)
    ensures SelectQuery(Some(beerName), None) == Success(ByName(NamePattern(beerName)))
    ensures forall b :: b in Matching(store, ByName(NamePattern(beerName))) <==>
              b in store && b.beerName.Some? && Contains(Upper(b.beerName.value), Upper(beerName))
  {
    forall b: Beer | b.beerName.Some?
      ensures NameLike(NamePattern(beerName), b) <==> Contains(Upper(b.beerName.value), Upper(beerName))
    {
      SurroundedMatchesContainingIgnoreCase(beerName, b.beerName.value);
    }
  }

  /** A style's name and no name filters by that style and keeps exactly
      the stored beers of that style. */
  lemma ByStyleSelectsThatStyle(store: seq<Beer>, style: BeerStyle)
    ensures SelectQuery(None, Some(StyleName(style))) == Success(ByStyle(style))
    ensures forall b :: b in Matching(store, ByStyle(style)) <==> b in store && b.beerStyle == Some(style)
  {
    StyleNameRoundTrip(style);
    StyleNameHasText(style);
  }

  /** Both filters with text and a known style combine: for a search text
      the pattern takes literally, a stored beer is kept exactly when its
      name contains the text, ignoring ASCII case, and its style is the
      given one. */
  lemma ByNameAndStyleSelectsBoth(store: seq<Beer>, beerName: string, style: BeerStyle)
    requires HasText(Some(beerName)) && IsPlain(beerName)
    ensures SelectQuery(Some(beerName), Some(StyleName(style))) ==
              Success(ByNameAndStyle(NamePattern(beerName), style))
    ensures forall b :: b in Matching(store, ByNameAndStyle(NamePattern(beerName), style)) <==>
              && b in store && b.beerName.Some? && Contains(Upper(b.beerName.value), Upper(beerName))
              && b.beerStyle == Some(style)
  {
    StyleNameRoundTrip(style);
    StyleNameHasText(style);
    forall b: Beer | b.beerName.Some?
      ensures NameLike(NamePattern(beerName), b) <==> Contains(Upper(b.beerName.value), Upper(beerName))
    {
      SurroundedMatchesContainingIgnoreCase(beerName, b.beerName.value);
    }
  }

  /** A style string with text that names no `BeerStyle` fails the listing
      when the name is null or has text, once the page size is accepted. */
  lemma UnknownStyleFails(store: seq<Beer>, beerName: Option<string>, beerStyle: string,
                          showInventory: Option<bool>, pageNumber: Option<int>, pageSize: Option<int>)
    requires HasText(Some(beerStyle)) && ParseStyle(beerStyle).None?
    requires beerName.None? || HasText(beerName)
    requires Accepted(BuildPageRequest(pageNumber, pageSize))
    ensures ListBeersResult(store, beerName, Some(beerStyle), showInventory, pageNumber, pageSize)
            == Failure(UnknownStyle(beerStyle))
  {
  }

  /** A page size below one (which `min` lets through) fails the listing
      before any filter is looked at. */
  lemma SmallPageSizeFails(store: seq<Beer>, beerName: Option<string>, beerStyle: Option<string>,
                           showInventory: Option<bool>, pageNumber: Option<int>, pageSize: int)
    requires pageSize < 1
    ensures ListBeersResult(store, beerName, beerStyle, showInventory, pageNumber, Some(pageSize))
            == Failure(PageSizeBelowOne(pageSize))
  {
  }

  // ---------------------------------------------------------------------
  // Listing and inventory redaction

  /** Every beer on a page of matches is a stored beer the query keeps. */
  lemma PageHoldsStoredMatches(store: seq<Beer>, q: Query, req: PageRequest)
    requires Accepted(req)
    ensures var raw := PageOf(Matching(store, q), req).content;
            forall i :: 0 <= i < |raw| ==> raw[i] in store && Matches(q, raw[i])
  {
    var matches := Matching(store, q);
    var raw := PageOf(matches, req).content;
    forall i | 0 <= i < |raw|
      ensures raw[i] in matches
    {
      assert raw[i] == matches[req.pageNumber * req.pageSize + i];
    }
  }

  /** A successful listing is the visible page of the selected query's
      matches: never more than 1000 beers, with the number of matches as
      its total. */
  lemma ListingIsVisiblePage(store: seq<Beer>, beerName: Option<string>, beerStyle: Option<string>,
                             showInventory: Option<bool>, pageNumber: Option<int>, pageSize: Option<int>)
    requires ListBeersResult(store, beerName, beerStyle, showInventory, pageNumber, pageSize).Success?
    ensures var page := ListBeersResult(store, beerName, beerStyle, showInventory, pageNumber, pageSize).value;
            var req := BuildPageRequest(pageNumber, pageSize);
            var matches := Matching(store, SelectQuery(beerName, beerStyle).value);
            && Accepted(req) && SelectQuery(beerName, beerStyle).Success?
            && page.content == WithInventory(showInventory, PageOf(matches, req).content)
            && |page.content| <= req.pageSize <= MaxPageSize
            && page.totalElements == |matches|
  {
  }

  /** Redacting twice is redacting once. */
  lemma RedactedIdempotent(beers: seq<Beer>)
    ensures Redacted(Redacted(beers)) == Redacted(beers)
  {
  }

  // ---------------------------------------------------------------------
  // Full update

  /** The full update is determined by what `Overwrite` promises: any beer
      with the input's five owned fields and the found beer's managed
      fields is the full update. */
  lemma UpdateDeterminedByFields(found: Beer, input: Beer, other: Beer)
    ensures Owned(other) == Owned(input) && Managed(other) == Managed(found) ==> other == Overwrite(found, input)
  {
  }

  /** Of two full updates the later one wins; in particular the full
      update is idempotent. */
  lemma UpdateLastWriteWins(found: Beer, first: Beer, second: Beer)
    ensures Overwrite(Overwrite(found, first), second) == Overwrite(found, second)
    ensures Overwrite(Overwrite(found, first), first) == Overwrite(found, first)
  {
  }

  // ---------------------------------------------------------------------
  // Partial update

  /** Patching twice with the same input is patching once. */
  lemma PatchIdempotent(found: Beer, input: Beer)
    ensures Patch(Patch(found, input), input) == Patch(found, input)
  {
  }

  /** A patch never nulls a field: a value present before stays present. */
  lemma PatchNeverNulls(found: Beer, input: Beer)
    ensures var r := Patch(found, input);
            && (found.beerName.Some? ==> r.beerName.Some?)
            && (found.beerStyle.Some? ==> r.beerStyle.Some?)
            && (found.upc.Some? ==> r.upc.Some?)
            && (found.price.Some? ==> r.price.Some?)
            && (found.quantityOnHand.Some? ==> r.quantityOnHand.Some?)
  {
  }

  /** A patch that supplies nothing leaves the beer as it was. */
  lemma EmptyPatchChangesNothing(found: Beer, input: Beer)
    requires !HasText(input.beerName) && input.beerStyle.None? && !HasText(input.upc)
    requires input.price.None? && input.quantityOnHand.None?
    ensures Patch(found, input) == found
  {
  }

  /** A patch that supplies every owned field is the full update. */
  lemma CompletePatchIsUpdate(found: Beer, input: Beer)
    requires HasText(input.beerName) && input.beerStyle.Some? && HasText(input.upc)
    requires input.price.Some? && input.quantityOnHand.Some?
    ensures Patch(found, input) == Overwrite(found, input)
  {
  }

  /** A patch that supplies only the price changes only the price. */
  lemma PriceOnlyPatch(found: Beer, price: real)
    ensures Patch(found, Beer(None, None, None, None, None, Some(price), None, None, None)) ==
            found.(price := Some(price))
  {
  }
}

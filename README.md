# Beer service model

A Dafny model of the JPA beer service of the Spring REST MVC sample
application (`BeerServiceJPA`). The service sits over a keyed beer store and:

- lists beers with an optional name filter, an optional style filter,
  paging and an inventory-visibility switch;
- looks up, creates, fully updates, partially updates and deletes beers by id.

The model keeps the source's shape. The pure parts are functions with lemmas:
page-request arithmetic, the choice among the four listing queries, the
update and patch merges, and redaction. The parts that change state are
methods on classes. `BeerRepository` holds the stored beers as a `map` plus
the storage order as a `seq`. `BeerServiceJpa` has one method per service
operation. `ListBeers` nulls the quantity of each fetched beer in a loop, as
the source does in place.

The listing's filters are not simply present or absent: the name and style
guards mix `hasText` with `== null`, so a blank non-null filter falls through
to the unfiltered listing (`BlankNameListsAll`, `BlankStyleListsAll`).

Modules:

- `Wrappers`: `Option` (nullable references, `Optional`) and `Result` (calls that may throw).
- `Beers`: the `Beer` record, `BeerStyle` and `BeerStyle.valueOf`, `StringUtils.hasText`.
- `SqlLike`: what `...IsLikeIgnoreCase` matches (`%`, `_`, the escape character `\`, upper-casing). It proves that `%q%` matches exactly the names containing `q` when `q` holds none of those three characters.
- `Paging`: `buildPageRequest` and the slice a paged query returns.
- `Repository`: the store and its derived queries.
- `BeerService`: query selection, redaction, the update/patch merges and the service class.
- `ServiceProperties`: lemmas relating these.

The source's `BeerMapper`, `BeerDTO` and `Beer` entity are not part of this
model. The model assumes that a beer and its transfer object carry the same
fields, and takes the mapping to be the identity.

## Model

| member | source | states |
|---|---|---|
| Beers.HasText | src/main/java/guru/springframework/spring6restmvc/services/BeerServiceJPA.java:41-47 | `hasText` holds iff the string is non-null and some character in it is not Java whitespace |
| Beers.HasNonWhitespace | src/main/java/guru/springframework/spring6restmvc/services/BeerServiceJPA.java:137 | the front-to-back scan is true iff some position holds a non-whitespace character |
| Beers.ParseStyle | src/main/java/guru/springframework/spring6restmvc/services/BeerServiceJPA.java:89-91 | `valueOf` returns a style whose declared name is exactly the string; it fails iff no style has that name |
| ServiceProperties.StyleNameRoundTrip | src/main/java/guru/springframework/spring6restmvc/services/BeerServiceJPA.java:90 | parsing a style's declared name gives that style back |
| Paging.BuildPageRequest | src/main/java/guru/springframework/spring6restmvc/services/BeerServiceJPA.java:62-79 | the index is `pageNumber - 1` for a positive page number and 0 otherwise, so it is never negative; the size is 25 when absent, otherwise `min(pageSize, 1000)`, so never above 1000; sizes up to 1000 pass through |
| ServiceProperties.PageRequestRoundTrip | src/main/java/guru/springframework/spring6restmvc/services/BeerServiceJPA.java:66-76 | a valid 0-based request (index ≥ 0, size 1..1000) is what the 1-based page number `index + 1` and that size build |
| ServiceProperties.BuildPageRequestStable | src/main/java/guru/springframework/spring6restmvc/services/BeerServiceJPA.java:66-76 | rebuilding a request from its own 1-based page number and size returns the same request |
| Paging.PageOf | src/main/java/guru/springframework/spring6restmvc/services/BeerServiceJPA.java:52 | a page holds at most `pageSize` elements, namely those at positions `pageNumber * pageSize + i`; it is full when enough elements remain, holds the remaining `min(pageSize, n - offset)` elements on the last page, and is empty past the end; its total is the list's length |
| ServiceProperties.ElementOnItsPage | src/main/java/guru/springframework/spring6restmvc/services/BeerServiceJPA.java:77 | every element at position `k` appears on page `k / size` at position `k % size`, so paging loses nothing |
| SqlLike.ContainsAt | src/main/java/guru/springframework/spring6restmvc/services/BeerServiceJPA.java:87 | the recursive substring test agrees with "`q` occurs at some position of `s`" |
| SqlLike.PercentMatchesAll | src/main/java/guru/springframework/spring6restmvc/services/BeerServiceJPA.java:87 | the pattern `%` matches every string |
| SqlLike.PrefixThenPercent | src/main/java/guru/springframework/spring6restmvc/services/BeerServiceJPA.java:87 | for plain `q` (no `%`, `_` or `\`), `q%` matches exactly the strings starting with `q` |
| SqlLike.SurroundedMatchesContaining | src/main/java/guru/springframework/spring6restmvc/services/BeerServiceJPA.java:87 | for plain `q` (no `%`, `_` or `\`), `%q%` matches exactly the strings containing `q` |
| SqlLike.UpperKeepsPlain | src/main/java/guru/springframework/spring6restmvc/services/BeerServiceJPA.java:87 | upper-casing a plain text introduces no `%`, `_` or `\` |
| SqlLike.SurroundedMatchesContainingIgnoreCase | src/main/java/guru/springframework/spring6restmvc/services/BeerServiceJPA.java:86-88 | for a plain search text (no `%`, `_` or `\`), the name query's `%name%` ignoring case matches exactly the names that contain the search text ignoring ASCII case |
| SqlLike.UnderscoreMatchesAnyNonEmpty | src/main/java/guru/springframework/spring6restmvc/services/BeerServiceJPA.java:87 | the service does not escape the search text: searching for `_` matches every non-empty name |
| SqlLike.EscapedWildcardIsLiteral | src/main/java/guru/springframework/spring6restmvc/services/BeerServiceJPA.java:87 | an escaped `%` or `_` matches only that one character |
| SqlLike.Like | src/main/java/guru/springframework/spring6restmvc/services/BeerServiceJPA.java:87 | a plain pattern (no `%`, `_` or `\`) matches exactly the string equal to it |
| BeerService.NamePattern | src/main/java/guru/springframework/spring6restmvc/services/BeerServiceJPA.java:83-87 | the pattern is the search text with one `%` before and one after |
| BeerService.SelectQuery | src/main/java/guru/springframework/spring6restmvc/services/BeerServiceJPA.java:41-53 | each of the four variants, and the unknown-style failure, is chosen iff its condition in the precedence chain holds (both directions); the name variants carry `%name%`; the style variants carry the style named by the string |
| ServiceProperties.BlankNameListsAll | src/main/java/guru/springframework/spring6restmvc/services/BeerServiceJPA.java:41-53 | a non-null blank name gives the unfiltered listing with any style, even an unknown one |
| ServiceProperties.BlankStyleListsAll | src/main/java/guru/springframework/spring6restmvc/services/BeerServiceJPA.java:41-53 | a non-null blank style gives the unfiltered listing with any name |
| ServiceProperties.EmptyStyleWithNameListsAll | src/main/java/guru/springframework/spring6restmvc/services/BeerServiceJPA.java:41-53 | a name together with style `""` gives the unfiltered listing |
| ServiceProperties.ByNameSelectsContaining | src/main/java/guru/springframework/spring6restmvc/services/BeerServiceJPA.java:41-42 | a name with text and no style selects the name query, which keeps exactly the stored beers whose name contains the text, ignoring case, when the text is plain (no `%`, `_` or `\`) |
| ServiceProperties.ByStyleSelectsThatStyle | src/main/java/guru/springframework/spring6restmvc/services/BeerServiceJPA.java:44-45 | a style's name and no name selects the style query, which keeps exactly the stored beers of that style |
| ServiceProperties.ByNameAndStyleSelectsBoth | src/main/java/guru/springframework/spring6restmvc/services/BeerServiceJPA.java:47-49 | a name with text and a style's name select the combined query with `%name%` and that style; for plain text it keeps exactly the stored beers whose name contains the text, ignoring case, and whose style is that style |
| ServiceProperties.UnknownStyleFails | src/main/java/guru/springframework/spring6restmvc/services/BeerServiceJPA.java:44-50 | a style with text that names no style fails the listing when the name is null or has text |
| ServiceProperties.SmallPageSizeFails | src/main/java/guru/springframework/spring6restmvc/services/BeerServiceJPA.java:71-77 | a page size below one passes `min` unchanged and then fails the listing before any filter is considered |
| Repository.Matching | src/main/java/guru/springframework/spring6restmvc/services/BeerServiceJPA.java:81-91 | a query keeps exactly the listed beers it matches, and never more than were listed |
| Repository.MatchingAppend | src/main/java/guru/springframework/spring6restmvc/services/BeerServiceJPA.java:81-91 | filtering keeps the listing's order: the matches of a concatenation are the concatenated matches of its parts |
| Repository.Matches | src/main/java/guru/springframework/spring6restmvc/services/BeerServiceJPA.java:81-91 | a beer is kept iff it meets every condition the query carries: the name LIKE for the name queries (a null name never matches), the style equality for the style queries |
| BeerService.Redacted | src/main/java/guru/springframework/spring6restmvc/services/BeerServiceJPA.java:54-56 | every redacted beer has no quantity-on-hand and differs from the original in nothing else |
| ServiceProperties.RedactedIdempotent | src/main/java/guru/springframework/spring6restmvc/services/BeerServiceJPA.java:55 | redacting twice is redacting once |
| ServiceProperties.PageHoldsStoredMatches | src/main/java/guru/springframework/spring6restmvc/services/BeerServiceJPA.java:52-57 | every beer on a page of a query's matches is a stored beer the query keeps |
| BeerService.WithInventory | src/main/java/guru/springframework/spring6restmvc/services/BeerServiceJPA.java:54-56 | when `showInventory` is false every beer's quantity is nulled; when it is null or true the beers are returned as fetched; no other field and no position changes |
| BeerService.ListBeersResult | src/main/java/guru/springframework/spring6restmvc/services/BeerServiceJPA.java:35-61 | a page size below one fails first; an unknown style then fails as query selection does; a success echoes the built index and size, holds at most `pageSize` (≤ 1000) beers and counts no more matches than are stored |
| ServiceProperties.ListingIsVisiblePage | src/main/java/guru/springframework/spring6restmvc/services/BeerServiceJPA.java:35-61 | a successful listing is the built page of the selected query's matches with inventory shown or hidden as asked, holds at most 1000 beers, and reports the number of matches |
| BeerService.BeerServiceJpa.ListBeers | src/main/java/guru/springframework/spring6restmvc/services/BeerServiceJPA.java:35-61 | the listing (built request, selected query, fetched page, in-place redaction) equals the specification `ListBeersResult` over the stored beers in storage order |
| BeerService.BeerServiceJpa.GetBeerById | src/main/java/guru/springframework/spring6restmvc/services/BeerServiceJPA.java:93-97 | the result is present iff the id is stored, and then it is the stored beer, carrying that id |
| BeerService.BeerServiceJpa.SaveNewBeer | src/main/java/guru/springframework/spring6restmvc/services/BeerServiceJPA.java:99-102 | the new beer is stored under the generated id, at the end of the storage order, and returned |
| BeerService.BeerServiceJpa.UpdateBeerById | src/main/java/guru/springframework/spring6restmvc/services/BeerServiceJPA.java:104-121 | for an unknown id: empty, store unchanged; for a known id: the found beer with the five fields replaced is stored under that id and returned; every other entry and the order are unchanged |
| BeerService.Overwrite | src/main/java/guru/springframework/spring6restmvc/services/BeerServiceJPA.java:109-113 | name, style, UPC, price and quantity come from the input, nulls included; id, version and timestamps stay those of the found beer |
| ServiceProperties.UpdateDeterminedByFields | src/main/java/guru/springframework/spring6restmvc/services/BeerServiceJPA.java:109-113 | no beer other than the full update takes the input's five fields and keeps the found beer's id, version and timestamps |
| ServiceProperties.UpdateLastWriteWins | src/main/java/guru/springframework/spring6restmvc/services/BeerServiceJPA.java:108-115 | of two full updates the later wins; a repeated full update changes nothing |
| BeerService.BeerServiceJpa.PatchBeerById | src/main/java/guru/springframework/spring6restmvc/services/BeerServiceJPA.java:132-159 | for an unknown id: empty, store unchanged; for a known id: the patched beer is stored under that id and returned; every other entry and the order are unchanged |
| BeerService.Patch | src/main/java/guru/springframework/spring6restmvc/services/BeerServiceJPA.java:137-151 | each field takes the input's value iff the input string has text or the input value is non-null, and otherwise keeps its prior value; id, version and timestamps stay |
| ServiceProperties.PatchIdempotent | src/main/java/guru/springframework/spring6restmvc/services/BeerServiceJPA.java:136-153 | patching twice with the same input is patching once |
| ServiceProperties.PatchNeverNulls | src/main/java/guru/springframework/spring6restmvc/services/BeerServiceJPA.java:137-151 | a field that had a value still has one after a patch |
| ServiceProperties.EmptyPatchChangesNothing | src/main/java/guru/springframework/spring6restmvc/services/BeerServiceJPA.java:137-151 | an input with blank strings and null values leaves the beer as it was |
| ServiceProperties.CompletePatchIsUpdate | src/main/java/guru/springframework/spring6restmvc/services/BeerServiceJPA.java:109-113 | an input that supplies all five fields patches exactly as the full update does |
| ServiceProperties.PriceOnlyPatch | src/main/java/guru/springframework/spring6restmvc/services/BeerServiceJPA.java:146-148 | a patch that supplies only the price changes only the price |
| BeerService.BeerServiceJpa.DeleteById | src/main/java/guru/springframework/spring6restmvc/services/BeerServiceJPA.java:123-130 | returns true iff the id was stored; afterwards the id is absent and every other entry is unchanged; on false the store is untouched |
| Repository.Without | src/main/java/guru/springframework/spring6restmvc/services/BeerServiceJPA.java:126 | removing an id from the storage order keeps exactly the other ids, keeps the order duplicate-free, and makes it one shorter when the id was there |
| Repository.WithoutAppend | src/main/java/guru/springframework/spring6restmvc/services/BeerServiceJPA.java:126 | removing an id keeps the remaining ids in their order: removing from a concatenation is removing from each part |
| Repository.BeerRepository.Listing | src/main/java/guru/springframework/spring6restmvc/services/BeerServiceJPA.java:52 | the unfiltered listing holds exactly the stored beers, each once |
| Repository.BeerRepository.FindById | src/main/java/guru/springframework/spring6restmvc/services/BeerServiceJPA.java:95 | the lookup is present iff the id is stored, with the stored beer |
| Repository.BeerRepository.ExistsById | src/main/java/guru/springframework/spring6restmvc/services/BeerServiceJPA.java:125 | true iff the id is stored |
| Repository.BeerRepository.Save | src/main/java/guru/springframework/spring6restmvc/services/BeerServiceJPA.java:115 | the beer replaces the entry under its own id, or is appended to the storage order when new; the store invariant is kept |
| Repository.BeerRepository.DeleteById | src/main/java/guru/springframework/spring6restmvc/services/BeerServiceJPA.java:126 | the entry is removed from the map and the order; the store invariant is kept |
| Repository.BeerRepository.Find | src/main/java/guru/springframework/spring6restmvc/services/BeerServiceJPA.java:81-91 | a paged query returns the requested page of the matching beers in storage order |
| Repository.DistinctCardinality | src/main/java/guru/springframework/spring6restmvc/services/BeerServiceJPA.java:52 | a duplicate-free storage order is as long as the set of stored ids |

## Left out

- `BeerStyle`'s declaration is not part of this model. The ten constants (`LAGER` … `SAISON`) are assumed. The proofs use only that their names are distinct and have text.
- `BeerMapper` is not part of this model. Entity-to-DTO and DTO-to-entity mapping is taken to be the identity.
- The derived queries use `LIKE` with `%`, `_` and the escape character `\`, the default of the derived-query layer. A pattern ending in a lone `\` matches nothing in the model, where a database reports an error. Both sides are upper-cased, but only ASCII letters are folded. A database's Unicode case mapping and collation are not modelled.
- The store's default row order is unspecified. The model lists beers in the order their ids were inserted: a replacing save keeps an id's place, and an id saved again after its deletion goes to the end.
- `PageRequest.of` is library code. The model keeps only its documented rejection of a size below one, as the `PageSizeBelowOne` failure. A negative index cannot arise. Spring's `totalPages` and its other page metadata are not modelled; a page carries its content, index, size and total count.
- `Repository.BeerRepository.Save`: does not model the ORM's version increment or its creation/update timestamps. Optimistic-locking conflicts are not modelled either, because this code never checks versions itself.
- `BeerService.BeerServiceJpa.SaveNewBeer`: the generated UUID is a parameter that must be fresh. UUID generation is random and done by the ORM. Any id in the incoming beer is ignored.
- `AtomicReference` in update and patch only captures a value inside a callback. Both are modelled as a plain early return on the not-found branch.
- The debug `System.out.println` in `listBeers` is I/O and is left out.
- The service's own `Integer` arithmetic needs no 32-bit modelling. `pageNumber - 1` runs only for a positive page number, and `min` cannot overflow.
- `Paging.PageOf`: a page offset `pageNumber * pageSize` above `Integer.MAX_VALUE` is rejected by the JPA layer; the model computes the offset unbounded and returns an empty page instead (for example page number 100000000 with size 25). That check belongs to the paging library, which is not part of this model.
- Database errors (store unavailable) propagate from the store and are not modelled. Transactions and concurrency are not modelled either: every call is sequential.
- `BeerOrder` is a persistence entity. Its only logic is `isNew`, an id null test. Like the `Customer` and `BeerOrderLine` entities, it is not part of this model.

/** The beer repository the service works over: a keyed store of beers,
    listed in the order their ids were inserted, with the derived queries the
    service calls. */
module Repository {
  import opened Wrappers
  import opened Beers
  import opened SqlLike
  import opened Paging

  /** The four listing queries: `findAll`, `findAllByBeerNameIsLikeIgnoreCase`,
      `findAllByBeerStyleEquals` and
      `findAllByBeerNameIsLikeIgnoreCaseAndBeerStyleEquals`. */
  datatype Query =
    | All
    | ByName(namePattern: string)
    | ByStyle(style: BeerStyle)
    | ByNameAndStyle(namePattern: string, style: BeerStyle)

  /** A beer with no name never matches a LIKE condition (SQL NULL). */
  predicate NameLike(pattern: string, b: Beer) {
    b.beerName.Some? && LikeIgnoreCase(pattern, b.beerName.value)
  }

  /** Whether query `q` keeps beer `b`: every condition the query carries
      holds of the beer. */
  predicate Matches(q: Query, b: Beer): (r: bool)
    ensures r <==>
              && ((q.ByName? || q.ByNameAndStyle?) ==> NameLike(q.namePattern, b))
              && ((q.ByStyle? || q.ByNameAndStyle?) ==> b.beerStyle == Some(q.style))
  {
    match q
    case All => true
    case ByName(pattern) => NameLike(pattern, b)
    case ByStyle(style) => b.beerStyle == Some(style)
    case ByNameAndStyle(pattern, style) => NameLike(pattern, b) && b.beerStyle == Some(style)
  }

  /** The beers of `beers` that `q` selects, in their original order. */
  function Matching(beers: seq<Beer>, q: Query): (r: seq<Beer>)
    ensures |r| <= |beers|
    ensures forall b :: b in r <==> b in beers && Matches(q, b)
  {
    if beers == [] then []
    else if Matches(q, beers[0]) then [beers[0]] + Matching(beers[1..], q)
    else Matching(beers[1..], q)
  }

  /** Filtering keeps the listing's order: the matches of a concatenation
      are the matches of its parts, concatenated. */
  lemma {:induction false} MatchingAppend(xs: seq<Beer>, ys: seq<Beer>, q: Query)
    ensures Matching(xs + ys, q) == Matching(xs, q) + Matching(ys, q)
  {
    if xs != [] {
      var rest := xs[1..] + ys;
      assert (xs + ys)[0] == xs[0] && (xs + ys)[1..] == rest;
      MatchingAppend(xs[1..], ys, q);
      if Matches(q, xs[0]) {
        assert Matching(xs + ys, q) == [xs[0]] + Matching(rest, q);
        assert Matching(xs, q) == [xs[0]] + Matching(xs[1..], q);
      } else {
        assert Matching(xs + ys, q) == Matching(rest, q);
        assert Matching(xs, q) == Matching(xs[1..], q);
      }
    } else {
      assert xs + ys == ys;
    }
  }

  predicate Distinct(ids: seq<Uuid>) {
    forall i, j :: 0 <= i < j < |ids| ==> ids[i] != ids[j]
  }

  /** `ids` with every occurrence of `id` taken out, the rest in order. */
  function Without(ids: seq<Uuid>, id: Uuid): (r: seq<Uuid>)
    ensures forall x :: x in r <==> x in ids && x != id
    ensures Distinct(ids) ==> Distinct(r)
    ensures Distinct(ids) && id in ids ==> |r| == |ids| - 1
    ensures id !in ids ==> r == ids
  {
    if ids == [] then []
    else if ids[0] == id then Without(ids[1..], id)
    else
      var rest := Without(ids[1..], id);
      assert Distinct(ids) ==> Distinct(ids[1..]) && ids[0] !in ids[1..];
      [ids[0]] + rest
  }

  /** Removal keeps the order of what remains: removing from a
      concatenation is removing from each part. */
  lemma {:induction false} WithoutAppend(xs: seq<Uuid>, ys: seq<Uuid>, id: Uuid)
    ensures Without(xs + ys, id) == Without(xs, id) + Without(ys, id)
  {
    if xs != [] {
      assert (xs + ys)[1..] == xs[1..] + ys;
      WithoutAppend(xs[1..], ys, id);
    } else {
      assert xs + ys == ys;
    }
  }

  class BeerRepository {
    /** The stored beers, by identity. */
    var beers: map<Uuid, Beer>
    /** The identities in the order they were inserted: the storage order
        in which listings are returned. */
    var order: seq<Uuid>

    /** Every stored beer carries its own key as identity, and `order` lists
        each key exactly once. */
    ghost predicate Valid()
      reads this
    {
      && Distinct(order)
      && (forall id :: id in order <==> id in beers)
      && (forall id :: id in beers ==> beers[id].id == Some(id))
    }

    constructor ()
      ensures Valid() && beers == map[] && order == []
    {
      beers := map[];
      order := [];
    }

    /** All stored beers in storage order. */
    function Listing(): (r: seq<Beer>)
      reads this
      requires Valid()
      ensures |r| == |beers|
      ensures forall b :: b in r <==> b in beers.Values
    {
      DistinctCardinality(order, beers.Keys);
      var ids, stored := order, beers;
      var r := seq(|ids|, i requires 0 <= i < |ids| => stored[ids[i]]);
      assert forall b :: b in beers.Values ==> b in r by {
        forall b | b in beers.Values ensures b in r {
          var id :| id in beers && beers[id] == b;
          var i :| 0 <= i < |order| && order[i] == id;
          assert r[i] == b;
        }
      }
      r
    }

    method FindById(id: Uuid) returns (r: Option<Beer>)
      ensures id in beers ==> r == Some(beers[id])
      ensures id !in beers ==> r == None
    {
      r := if id in beers then Some(beers[id]) else None;
    }

    method ExistsById(id: Uuid) returns (r: bool)
      ensures r <==> id in beers
    {
      r := id in beers;
    }

    /** Inserts a new beer at the end of the storage order, or replaces the
        stored beer with the same identity in place. */
    method Save(b: Beer) returns (saved: Beer)
      requires Valid() && b.id.Some?
      modifies this
      ensures Valid()
      ensures saved == b
      ensures beers == old(beers)[b.id.value := b]
      ensures order == if b.id.value in old(beers) then old(order) else old(order) + [b.id.value]
    {
      var id := b.id.value;
      if id !in beers {
        order := order + [id];
      }
      beers := beers[id := b];
      saved := b;
    }

    /** Removes the beer with identity `id`, if any. */
    method DeleteById(id: Uuid)
      requires Valid()
      modifies this
      ensures Valid()
      ensures beers == old(beers) - {id}
      ensures order == Without(old(order), id)
    {
      beers := beers - {id};
      order := Without(order, id);
    }

    /** The page `req` selects from the beers that `q` matches, in storage
        order. */
    method Find(q: Query, req: PageRequest) returns (page: Page<Beer>)
      requires Valid() && Accepted(req)
      ensures page == PageOf(Matching(Listing(), q), req)
    {
      page := PageOf(Matching(Listing(), q), req);
    }
  }

  /** A duplicate-free sequence has as many elements as the set of them. */
  lemma {:induction false} DistinctCardinality(ids: seq<Uuid>, keys: set<Uuid>)
    requires Distinct(ids)
    requires forall id :: id in ids <==> id in keys
    ensures |ids| == |keys|
  {
    if ids != [] {
      assert ids[0] in keys;
      var rest := keys - {ids[0]};
      forall id ensures id in ids[1..] <==> id in rest {
        if id in ids[1..] {
          var j :| 0 <= j < |ids[1..]| && ids[1..][j] == id;
          assert ids[j + 1] == id;
        }
        if id in ids && id != ids[0] {
          var j :| 0 <= j < |ids| && ids[j] == id;
          assert ids[1..][j - 1] == id;
        }
      }
      DistinctCardinality(ids[1..], rest);
    }
  }
}

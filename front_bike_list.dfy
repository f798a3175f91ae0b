/**
 * The earlier stolen-bike list of front/components/BikeList.tsx. It holds the
 * bikes in its own state (their fetch is never started) and lower-cases each
 * field but not the search, so a search with a capital letter finds nothing.
 */
module FrontBikeList {
  import opened Strings
  import BikeList

  type Bike = BikeList.Bike

  /** The filter of the source: everything for an empty search, else a lower-cased field containing the search as typed. */
  predicate KeepBike(bike: Bike, search: string)
  {
    search == "" || BikeList.SomeFieldMatches(bike, search)
  }

  /** `bikeFilter`: the loop over the keys, returning at the first match. */
  method BikeFilter(bike: Bike, search: string) returns (keep: bool)
    ensures keep <==> KeepBike(bike, search)
  {
    if search == "" {
      return true;
    }
    for k := 0 to |bike|
      invariant forall j :: 0 <= j < k ==> !BikeList.FieldMatches(bike[j].1, search)
    {
      if bike[k].1.Str? && Contains(Lower(bike[k].1.s), search) {
        return true;
      }
    }
    return false;
  }

  /** `bikes.filter(bikeFilter)`. */
  function Filter(bikes: seq<Bike>, search: string): (kept: seq<Bike>)
    ensures |kept| <= |bikes|
    ensures forall b :: b in kept ==> b in bikes && KeepBike(b, search)
    ensures forall b :: b in bikes && KeepBike(b, search) ==> b in kept
    ensures forall b :: multiset(kept)[b] == (if KeepBike(b, search) then multiset(bikes)[b] else 0)
  {
    if bikes == [] then []
    else
      assert bikes == [bikes[0]] + bikes[1..];
      if KeepBike(bikes[0], search) then [bikes[0]] + Filter(bikes[1..], search)
      else Filter(bikes[1..], search)
  }

  /** The list keeps the original order and only removes bikes. */
  lemma {:induction false} FilterIsSubsequence(bikes: seq<Bike>, search: string)
    ensures BikeList.IsSubsequence(Filter(bikes, search), bikes)
    decreases |bikes|
  {
    if bikes != [] {
      FilterIsSubsequence(bikes[1..], search);
    }
  }

  /** An empty search shows every bike. */
  lemma {:induction false} EmptySearchKeepsAll(bikes: seq<Bike>)
    ensures Filter(bikes, "") == bikes
    decreases |bikes|
  {
    if bikes != [] {
      EmptySearchKeepsAll(bikes[1..]);
    }
  }

  /** No lower-cased text contains a capital letter. */
  lemma LowerHasNoCapital(hay: string, needle: string, i: int)
    requires 0 <= i < |needle| && IsUpper(needle[i])
    ensures !Contains(Lower(hay), needle)
  {
    var low := Lower(hay);
    forall p | 0 <= p <= |low|
      ensures !(needle <= low[p..])
    {
      if p + i < |low| {
        assert low[p..][i] == ToLowerChar(hay[p + i]);
      }
    }
  }

  /** A search with a capital letter in it keeps no bike at all. */
  lemma CapitalSearchKeepsNothing(bike: Bike, search: string, i: int)
    requires 0 <= i < |search| && IsUpper(search[i])
    ensures !KeepBike(bike, search)
  {
    forall k | 0 <= k < |bike| && bike[k].1.Str?
      ensures !BikeList.FieldMatches(bike[k].1, search)
    {
      LowerHasNoCapital(bike[k].1.s, search, i);
    }
  }

  /** Without capitals in the search, the earlier filter and the later one agree. */
  lemma AgreesOnLowerCaseSearch(bike: Bike, search: string)
    requires forall i :: 0 <= i < |search| ==> !IsUpper(search[i])
    ensures KeepBike(bike, search) <==> BikeList.KeepBike(bike, search)
  {
    assert Lower(search) == search;
  }

  class FrontBikeList {
    var bikes: seq<Bike>
    var search: string

    constructor()
      ensures bikes == [] && search == ""
    {
      bikes := [];
      search := "";
    }

    /** `updateSearch`: only the search changes. */
    method UpdateSearch(value: string)
      modifies this
      ensures search == value && bikes == old(bikes)
    {
      search := value;
    }

    /** The bikes `render` lists. */
    function Shown(): (shown: seq<Bike>)
      reads this
      ensures shown == Filter(bikes, search)
      ensures BikeList.IsSubsequence(shown, bikes)
      ensures forall b :: b in shown <==> b in bikes && KeepBike(b, search)
    {
      FilterIsSubsequence(bikes, search);
      Filter(bikes, search)
    }
  }
}

/**
 * The stolen-bike list of src/components/BikeList.tsx: a text filter over
 * the bikes the parent passes in. A bike is a record whose fields are read
 * in `Object.keys` order; a field that is not a string makes
 * `toLowerCase` throw, and the exception is swallowed, so such a field is
 * skipped.
 */
module BikeList {
  import opened Common
  import opened Strings

  /** The value of one field of a bike record. */
  datatype FieldValue = Str(s: string) | Num(n: int) | Null | Bool(b: bool)

  /** A bike: its fields, in key order. */
  type Bike = seq<(string, FieldValue)>

  /** `value.toLowerCase().includes(needle)`, false where `toLowerCase` throws. */
  predicate FieldMatches(value: FieldValue, needle: string)
  {
    value.Str? && Contains(Lower(value.s), needle)
  }

  /** Whether some field of `bike` matches `needle`. */
  predicate SomeFieldMatches(bike: Bike, needle: string)
  {
    exists k :: 0 <= k < |bike| && FieldMatches(bike[k].1, needle)
  }

  /** The filter of the source: everything for an empty search, else a field containing the search, case aside. */
  predicate KeepBike(bike: Bike, search: string)
  {
    search == "" || SomeFieldMatches(bike, Lower(search))
  }

  /** `bikeFilter`: the loop over the keys, returning at the first match. */
  method BikeFilter(bike: Bike, search: string) returns (keep: bool)
    ensures keep <==> KeepBike(bike, search)
  {
    if search == "" {
      return true;
    }
    var needle := Lower(search);
    for k := 0 to |bike|
      invariant forall j :: 0 <= j < k ==> !FieldMatches(bike[j].1, needle)
    {
      match bike[k].1
      case Str(s) =>
        if Contains(Lower(s), needle) {
          return true;
        }
      case _ =>
    }
    return false;
  }

  /** `bikes.filter(bikeFilter)`. */
  function Filter(bikes: seq<Bike>, search: string): (kept: seq<Bike>)
    ensures |kept| <= |bikes|
    ensures forall b :: b in kept ==> b in bikes && KeepBike(b, search)
    ensures forall b :: b in bikes && KeepBike(b, search) ==> b in kept
    ensures forall b :: multiset(kept)[b] == (if KeepBike(b, search) then multiset(bikes)[b] else 0)
  {
    if bikes == [] then []
    else
      assert bikes == [bikes[0]] + bikes[1..];
      if KeepBike(bikes[0], search) then [bikes[0]] + Filter(bikes[1..], search)
      else Filter(bikes[1..], search)
  }

  /** `xs` is `ys` with some elements removed, the rest in their order. */
  predicate IsSubsequence<T(==)>(xs: seq<T>, ys: seq<T>)
    decreases |ys|
  {
    xs == [] || (ys != [] && (if xs[0] == ys[0] then IsSubsequence(xs[1..], ys[1..]) else IsSubsequence(xs, ys[1..])))
  }

  /** The shown list keeps the original order and only removes bikes. */
  lemma {:induction false} FilterIsSubsequence(bikes: seq<Bike>, search: string)
    ensures IsSubsequence(Filter(bikes, search), bikes)
    decreases |bikes|
  {
    if bikes != [] {
      FilterIsSubsequence(bikes[1..], search);
    }
  }

  /** An empty search shows every bike. */
  lemma {:induction false} EmptySearchKeepsAll(bikes: seq<Bike>)
    ensures Filter(bikes, "") == bikes
    decreases |bikes|
  {
    if bikes != [] {
      EmptySearchKeepsAll(bikes[1..]);
    }
  }

  /** The case of the search makes no difference. */
  lemma CaseInsensitive(bike: Bike, search: string)
    ensures KeepBike(bike, search) <==> KeepBike(bike, Upper(search))
    ensures KeepBike(bike, search) <==> KeepBike(bike, Lower(search))
  {
    LowerOfUpper(search);
    LowerIdempotent(search);
  }

  /** Lower-casing twice is lower-casing once. */
  lemma LowerIdempotent(s: string)
    ensures Lower(Lower(s)) == Lower(s)
  {
  }

  /** A bike whose fields are all numbers, null or booleans is shown only for an empty search. */
  lemma NonStringFieldsNeverMatch(bike: Bike, search: string)
    requires forall k :: 0 <= k < |bike| ==> !bike[k].1.Str?
    ensures KeepBike(bike, search) <==> search == ""
  {
  }

  /** Typing more characters never brings a bike back. */
  lemma LongerSearchKeepsFewer(bike: Bike, search: string, more: string)
    requires KeepBike(bike, search + more)
    ensures KeepBike(bike, search)
  {
    if search != "" {
      var k :| 0 <= k < |bike| && FieldMatches(bike[k].1, Lower(search + more));
      LowerOfPrefix(search, search + more);
      ContainsPrefix(Lower(bike[k].1.s), Lower(search), Lower(search + more));
    }
  }

  /** The list for a longer search is a subsequence of the list for a shorter one. */
  lemma {:induction false} LongerSearchSubsequence(bikes: seq<Bike>, search: string, more: string)
    ensures IsSubsequence(Filter(bikes, search + more), Filter(bikes, search))
    decreases |bikes|
  {
    if bikes != [] {
      LongerSearchSubsequence(bikes[1..], search, more);
      if KeepBike(bikes[0], search + more) {
        LongerSearchKeepsFewer(bikes[0], search, more);
      }
    }
  }

  /** What the component shows. */
  datatype BikeView = NoThefts | NoMatchingBikes | Cards(bikes: seq<Bike>)

  class BikeList {
    /** The `bikes` prop: null, or the list of thefts. */
    const bikes: Option<seq<Bike>>
    var search: string

    constructor(bikes: Option<seq<Bike>>)
      ensures this.bikes == bikes && search == ""
    {
      this.bikes := bikes;
      search := "";
    }

    /** `updateSearch`: only the search changes. */
    method UpdateSearch(value: string)
      modifies this
      ensures search == value
    {
      search := value;
    }

    /** `render`: a message for no thefts at all, another when the filter leaves none, else the cards. */
    function View(): (v: BikeView)
      reads this
      ensures v.NoThefts? <==> bikes.None? || bikes.value == []
      ensures v.NoMatchingBikes? <==> bikes.Some? && bikes.value != [] && Filter(bikes.value, search) == []
      ensures v.Cards? ==> v.bikes == Filter(bikes.value, search)
      ensures v.Cards? ==> v.bikes != [] && IsSubsequence(v.bikes, bikes.value)
      ensures v.Cards? ==> forall b :: b in v.bikes ==> KeepBike(b, search)
    {
      if bikes.None? || bikes.value == [] then NoThefts
      else
        var shown := Filter(bikes.value, search);
        FilterIsSubsequence(bikes.value, search);
        if shown == [] then NoMatchingBikes else Cards(shown)
    }
  }
}

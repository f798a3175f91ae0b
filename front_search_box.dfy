/**
 * The earlier search box of front/components/SearchBox.tsx. It uses the same
 * postcode pattern as src/components/SearchBox.tsx, but looks the captured
 * letters up as an exact key, bolds as many characters of each suggestion as
 * the query is long, and reports a single result to `foundValid` without
 * comparing it to the query.
 */
module FrontSearchBox {
  import opened Common
  import opened Strings
  import opened PostcodePattern
  import Postcodes
  import SearchBox

  type Table = seq<(string, string)>

  /** `regions[k]`: the name under key `k`, or undefined. */
  function Lookup(t: Table, k: string): (v: Option<string>)
    ensures v.Some? <==> exists i :: 0 <= i < |t| && t[i].0 == k
    ensures v.Some? ==> exists i :: 0 <= i < |t| && t[i] == (k, v.value)
  {
    if t == [] then None
    else if t[0].0 == k then Some(t[0].1)
    else
      var v := Lookup(t[1..], k);
      if v.Some? then
        var i :| 0 <= i < |t[1..]| && t[1..][i] == (k, v.value);
        assert t[i + 1] == (k, v.value);
        v
      else
        assert forall i :: 1 <= i < |t| ==> t[i] == t[1..][i - 1];
        v
  }

  /** With distinct keys, `Lookup` finds the name stored under the key. */
  lemma LookupOfKey(t: Table, i: int)
    requires Postcodes.DistinctKeys(t) && 0 <= i < |t|
    ensures Lookup(t, t[i].0) == Some(t[i].1)
  {
    var v := Lookup(t, t[i].0);
    var j :| 0 <= j < |t| && t[j] == (t[i].0, v.value);
    assert j == i;
  }

  /**
   * `getRegionForPostcode`: null when the pattern rejects the query (the
   * empty query included), otherwise the name under the captured letters,
   * undefined when they are not a key.
   */
  function RegionForPostcode(postcode: string, regions: Table): (r: RegionValue)
    ensures r.Null? <==> !PatternMatches(postcode)
    ensures r.Undefined? <==> PatternMatches(postcode) && Lookup(regions, Capture(postcode).value).None?
    ensures r.Name? ==> exists i :: 0 <= i < |regions| && regions[i] == (Capture(postcode).value, r.name)
  {
    match Capture(postcode)
      case None => Null
      case Some(p) =>
        match Lookup(regions, p)
          case None => Undefined
          case Some(v) => Name(v)
  }

  /** Where the captured letters are themselves a key, both classifiers give its name. */
  lemma ClassifiersAgreeOnExactKey(postcode: string, regions: Table, i: int)
    requires Postcodes.DistinctKeys(regions)
    requires PatternMatches(postcode) && 0 <= i < |regions| && regions[i].0 == Capture(postcode).value
    ensures RegionForPostcode(postcode, regions) == Name(regions[i].1)
    ensures SearchBox.RegionName(postcode, regions) == Name(regions[i].1)
  {
    LookupOfKey(regions, i);
    SearchBox.ExactKeyWins(postcode, regions, i);
  }

  /** A query the prefix classifier finds no region for has none under the exact lookup either. */
  lemma PrefixUndefinedImpliesExactUndefined(postcode: string, regions: Table)
    requires SearchBox.RegionName(postcode, regions).Undefined?
    ensures RegionForPostcode(postcode, regions).Undefined? || RegionForPostcode(postcode, regions).Null?
  {
  }

  /** "Z1" captures "Z", which is not a key: undefined, where the prefix rule finds Lerwick. */
  lemma FrontZ1Undefined()
    ensures RegionForPostcode("Z1", Postcodes.Regions) == Undefined
    ensures SearchBox.RegionName("Z1", Postcodes.Regions) == Name("Lerwick")
  {
    CaptureExampleZ();
    Postcodes.OnlyZE();
    SearchBox.Lerwick();
  }

  /** A query beginning with J, Q, V or X never gets a region name. */
  lemma FrontUnusedInitialHasNoName(postcode: string)
    requires postcode != "" && postcode[0] in Postcodes.UnusedInitials
    ensures !RegionForPostcode(postcode, Postcodes.Regions).Name?
  {
    if PatternMatches(postcode) {
      Postcodes.NoKeyWithUnusedInitial();
      assert Capture(postcode).value[0] == postcode[0];
    }
  }

  /** `next.substring(0, q.length)` and `next.substring(q.length)` for every result, in order. */
  function Suggestions(q: string, results: seq<string>): (r: seq<SearchBox.Suggestion>)
    ensures |r| == |results|
    ensures forall k :: 0 <= k < |r| ==>
      && r[k].value == results[k]
      && r[k].bold + r[k].plain == results[k]
      && |r[k].bold| == (if |q| <= |results[k]| then |q| else |results[k]|)
  {
    if results == [] then []
    else
      var c := results[0];
      var n := if |q| <= |c| then |q| else |c|;
      assert c[..n] + c[n..] == c;
      [SearchBox.Suggestion(c[..n], c[n..], c)] + Suggestions(q, results[1..])
  }

  /**
   * Counting characters instead of aligning them: for the query "EC1A1" the
   * candidate "EC1A 1BB" gets "EC1A " in bold, which leaves out the query's
   * last character, where the aligner of the later search box bolds "EC1A 1".
   */
  lemma NaiveBoldIgnoresSpaces()
    ensures Suggestions("EC1A1", ["EC1A 1BB"])[0].bold == "EC1A "
    ensures SearchBox.Suggestions("EC1A1", ["EC1A 1BB"])[0].bold == "EC1A 1"
  {
    assert SearchBox.Highlight("EC1A1", "EC1A 1BB") == 6;
    assert "EC1A 1BB"[..6] == "EC1A 1";
    assert "EC1A 1BB"[..5] == "EC1A ";
  }

  /** `(await response.json())["result"] || []`: the status is not looked at. */
  function ResultOrEmpty(result: Option<seq<string>>): (xs: seq<string>)
    ensures result.Some? ==> xs == result.value
    ensures result.None? ==> xs == []
  {
    if result.Some? then result.value else []
  }

  class FrontSearchBox {
    /** The `regions` prop. */
    const regions: Table
    /** The `online` prop. */
    var online: bool

    var searchString: string
    var error: bool
    var region: RegionValue
    var autoComplete: seq<SearchBox.Suggestion>

    /** The "search" entry of local storage. */
    var stored: Option<string>
    /** Every argument passed to the `foundValid` callback, in order. */
    var found: seq<string>
    /** How many times the device was asked to vibrate. */
    var vibrations: nat
    /** The query of every autocomplete request sent, in order. */
    var lookups: seq<string>

    /** The constructor, given the props and what local storage holds. */
    constructor(regions: Table, online: bool, saved: Option<string>)
      ensures this.regions == regions && this.online == online
      ensures searchString == SearchBox.Restore(saved) && stored == saved
      ensures !error && autoComplete == [] && region == Name("")
      ensures found == [] && vibrations == 0
      ensures lookups == (if Truthy(saved) && online then [saved.value] else [])
    {
      this.regions := regions;
      this.online := online;
      searchString := SearchBox.Restore(saved);
      error := false;
      region := Name("");
      autoComplete := [];
      stored := saved;
      found := [];
      vibrations := 0;
      lookups := [];
      new;
      if Truthy(saved) {
        Dispatch(saved.value, online);
      }
    }

    /** The start of `getAutoCompleteForPostcode`: offline, nothing is requested. */
    method Dispatch(q: string, isOnline: bool)
      modifies this
      ensures lookups == old(lookups) + (if isOnline then [q] else [])
      ensures searchString == old(searchString) && region == old(region) && error == old(error)
      ensures autoComplete == old(autoComplete) && stored == old(stored) && online == old(online)
      ensures found == old(found) && vibrations == old(vibrations)
    {
      if isOnline {
        lookups := lookups + [q];
      }
    }

    /** `setError`: vibrates only when the error switches on. */
    method SetError(value: bool)
      modifies this
      ensures error == value
      ensures vibrations == old(vibrations) + (if value && !old(error) then 1 else 0)
      ensures searchString == old(searchString) && region == old(region) && lookups == old(lookups)
      ensures autoComplete == old(autoComplete) && stored == old(stored) && online == old(online)
      ensures found == old(found)
    {
      if error != value {
        error := value;
        if value {
          vibrations := vibrations + 1;
        }
      }
    }

    /** `submitPostcode`: the search button reports the current string. */
    method SubmitPostcode()
      modifies this
      ensures found == old(found) + [searchString]
      ensures searchString == old(searchString) && region == old(region) && error == old(error)
      ensures autoComplete == old(autoComplete) && stored == old(stored) && online == old(online)
      ensures lookups == old(lookups) && vibrations == old(vibrations)
    {
      found := found + [searchString];
    }

    /** `componentWillReceiveProps`: react to the `online` prop changing. */
    method ReceiveProps(nextOnline: bool)
      modifies this
      ensures online == nextOnline
      ensures !nextOnline && old(online) ==> autoComplete == [] && lookups == old(lookups)
      ensures nextOnline && !old(online) ==> autoComplete == old(autoComplete) && lookups == old(lookups) + [searchString]
      ensures nextOnline == old(online) ==> autoComplete == old(autoComplete) && lookups == old(lookups)
      ensures searchString == old(searchString) && region == old(region) && error == old(error)
      ensures stored == old(stored) && found == old(found) && vibrations == old(vibrations)
    {
      if !nextOnline && online {
        autoComplete := [];
      } else if nextOnline && !online {
        Dispatch(searchString, nextOnline);
      }
      online := nextOnline;
    }

    /**
     * `handleSearchUpdate`: the upper-cased input is always shown and stored;
     * the error is raised exactly when it is non-empty and its letters are
     * not a key; a lookup is sent for a non-empty input unless its letters
     * are not a key, except for a single character.
     */
    method HandleSearchUpdate(input: string)
      modifies this
      ensures var s := Upper(input);
        var r := RegionForPostcode(s, regions);
        && searchString == s && stored == Some(s) && region == r
        && found == old(found) + (if s == "" then [""] else [])
        && (error <==> s != "" && r.Undefined?)
        && vibrations == old(vibrations) + (if s != "" && r.Undefined? && !old(error) then 1 else 0)
        && lookups == old(lookups) + (if s != "" && (!r.Undefined? || |s| == 1) && online then [s] else [])
      ensures autoComplete == old(autoComplete) && online == old(online)
    {
      var s := Upper(input);
      if |s| == 0 {
        found := found + [""];
      }
      var r := RegionForPostcode(s, regions);
      stored := Some(s);
      searchString := s;
      region := r;
      SetError(s != "" && r.Undefined?);
      if s != "" && (!r.Undefined? || |s| == 1) {
        Dispatch(s, online);
      }
    }

    /** `handleAutoComplete`: choosing a different suggestion reports it; the same one does nothing. */
    method HandleAutoComplete(clicked: string)
      modifies this
      ensures old(searchString) == clicked ==> searchString == old(searchString) && found == old(found)
      ensures old(searchString) != clicked ==> searchString == clicked && found == old(found) + [clicked]
      ensures region == old(region) && error == old(error) && autoComplete == old(autoComplete)
      ensures stored == old(stored) && lookups == old(lookups) && vibrations == old(vibrations)
      ensures online == old(online)
    {
      if searchString != clicked {
        searchString := clicked;
        found := found + [clicked];
      }
    }

    /**
     * The rest of `getAutoCompleteForPostcode`: the response to the request
     * for query `q`, one of the lookups sent, arrives with `result` (absent or
     * null as None).
     */
    method ApplyLookupResponse(q: string, result: Option<seq<string>>)
      requires q in lookups
      modifies this
      ensures var results := ResultOrEmpty(result);
        && autoComplete == Suggestions(q, results)
        && (error <==> results == [])
        && vibrations == old(vibrations) + (if results == [] && !old(error) then 1 else 0)
        && found == old(found) + (if |results| == 1 then [results[0]] else [])
      ensures searchString == old(searchString) && region == old(region) && stored == old(stored)
      ensures lookups == old(lookups) && online == old(online)
    {
      var results := ResultOrEmpty(result);
      autoComplete := Suggestions(q, results);
      SetError(|results| == 0);
      if |results| == 1 {
        found := found + [results[0]];
      }
    }
  }
}

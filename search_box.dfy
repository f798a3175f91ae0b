/**
 * The postcode search box of src/components/SearchBox.tsx: the region
 * classifier, the highlight aligner, the rule that turns an autocomplete
 * response into a resolved postcode or a list of suggestions, and the
 * component's state transitions.
 *
 * The region table is the `regions` prop as the list `Object.entries` gives.
 * The network lookup is split in two: `Dispatch` records that a request for a
 * query was sent, and `ApplyLookupResponse` applies whatever response arrives
 * for that query. The `updatePostcode` callback, `localStorage` and
 * `navigator.vibrate` are recorded in fields.
 */
module SearchBox {
  import opened Common
  import opened Strings
  import opened PostcodePattern
  import Postcodes

  type Table = seq<(string, string)>

  // ---------------------------------------------------------------------------
  // Region classifier
  // ---------------------------------------------------------------------------

  /** `Object.entries(regions).filter(([key, _]) => key.indexOf(p) === 0)` */
  function Prefixed(t: Table, p: string): (es: Table)
    ensures forall e :: e in es <==> e in t && p <= e.0
    ensures |es| <= |t|
  {
    if t == [] then []
    else (if p <= t[0].0 then [t[0]] else []) + Prefixed(t[1..], p)
  }

  /**
   * `es.reduce((smallest, current) => current[0] < smallest[0] ? current : smallest)`:
   * a left fold that replaces the accumulator only by a strictly smaller key.
   */
  function Smallest(es: Table): (e: (string, string))
    requires es != []
    ensures e in es
  {
    if |es| == 1 then es[0]
    else
      var acc := Smallest(es[..|es| - 1]);
      var cur := es[|es| - 1];
      if LexLess(cur.0, acc.0) then cur else acc
  }

  /** No entry of `es` has a key smaller than the one `Smallest` picks. */
  lemma {:induction false} SmallestIsLeast(es: Table)
    requires es != []
    ensures forall x :: x in es ==> !LexLess(x.0, Smallest(es).0)
  {
    if |es| > 1 {
      var init := es[..|es| - 1];
      var acc := Smallest(init);
      var cur := es[|es| - 1];
      SmallestIsLeast(init);
      assert es == init + [cur];
      assert Smallest(es) == (if LexLess(cur.0, acc.0) then cur else acc);
      forall x | x in es
        ensures !LexLess(x.0, Smallest(es).0)
      {
        assert x == cur || x in init;
        if LexLess(cur.0, acc.0) {
          if x in init && LexLess(x.0, cur.0) {
            LexLessTransitive(x.0, cur.0, acc.0);
          }
          LexLessIrreflexive(cur.0);
        }
      }
    } else {
      LexLessIrreflexive(es[0].0);
    }
  }

  /** Entry `i` has the least key among those that start with `p`. */
  ghost predicate LeastPrefixed(t: Table, p: string, i: int)
  {
    && 0 <= i < |t|
    && p <= t[i].0
    && forall j :: 0 <= j < |t| && p <= t[j].0 ==> !LexLess(t[j].0, t[i].0)
  }

  /** Some key of `t` starts with `p`. */
  ghost predicate SomeKeyStartsWith(t: Table, p: string)
  {
    exists j :: 0 <= j < |t| && p <= t[j].0
  }

  /**
   * `getRegionNameForPostcode`: null for the empty query, undefined when the
   * pattern rejects the query or no key starts with the captured letters, and
   * otherwise the name under the smallest such key.
   */
  function RegionName(postcode: string, regions: Table): (r: RegionValue)
    ensures r.Null? <==> postcode == ""
    ensures r.Undefined? <==>
      postcode != "" && (!PatternMatches(postcode) || !SomeKeyStartsWith(regions, Capture(postcode).value))
    ensures r.Name? ==> exists i :: LeastPrefixed(regions, Capture(postcode).value, i) && r.name == regions[i].1
  {
    if postcode == "" then Null
    else match Capture(postcode)
      case None => Undefined
      case Some(p) =>
        var es := Prefixed(regions, p);
        if es == [] then
          assert forall j :: 0 <= j < |regions| ==> !(p <= regions[j].0) by {
            forall j | 0 <= j < |regions| ensures !(p <= regions[j].0) {
              assert regions[j] in regions;
            }
          }
          Undefined
        else
          var e := Smallest(es);
          SmallestLeast(regions, p);
          Name(e.1)
  }

  /** The entry `Smallest` picks among the prefixed ones is a least prefixed entry of the table. */
  lemma SmallestLeast(t: Table, p: string)
    requires Prefixed(t, p) != []
    ensures exists i :: LeastPrefixed(t, p, i) && t[i] == Smallest(Prefixed(t, p))
    ensures SomeKeyStartsWith(t, p)
  {
    var es := Prefixed(t, p);
    var e := Smallest(es);
    SmallestIsLeast(es);
    var i :| 0 <= i < |t| && t[i] == e;
    forall j | 0 <= j < |t| && p <= t[j].0
      ensures !LexLess(t[j].0, t[i].0)
    {
      assert t[j] in es;
    }
    assert LeastPrefixed(t, p, i);
  }

  /**
   * With distinct keys the least prefixed entry is unique, so the classifier
   * returns its name: this is the converse of `RegionName`'s last clause.
   */
  lemma RegionNameOfLeast(postcode: string, regions: Table, i: int)
    requires Postcodes.DistinctKeys(regions)
    requires PatternMatches(postcode) && LeastPrefixed(regions, Capture(postcode).value, i)
    ensures RegionName(postcode, regions) == Name(regions[i].1)
  {
    var p := Capture(postcode).value;
    assert regions[i] in Prefixed(regions, p);
    SmallestLeast(regions, p);
    var k :| LeastPrefixed(regions, p, k) && regions[k] == Smallest(Prefixed(regions, p));
    LexLessTotal(regions[i].0, regions[k].0);
    assert k == i;
  }

  /** A captured prefix that is itself a key wins over every longer key it begins. */
  lemma ExactKeyWins(postcode: string, regions: Table, i: int)
    requires Postcodes.DistinctKeys(regions)
    requires PatternMatches(postcode) && 0 <= i < |regions| && regions[i].0 == Capture(postcode).value
    ensures RegionName(postcode, regions) == Name(regions[i].1)
  {
    var p := Capture(postcode).value;
    forall j | 0 <= j < |regions| && p <= regions[j].0
      ensures !LexLess(regions[j].0, regions[i].0)
    {
      LexPrefixLeast(p, regions[j].0);
    }
    RegionNameOfLeast(postcode, regions, i);
  }

  /** "E1 6AN" captures "E", which is a key: East London. */
  lemma EastLondon()
    ensures RegionName("E1 6AN", Postcodes.Regions) == Name("East London")
  {
    CaptureExampleE();
    Postcodes.EastEntries();
    Postcodes.RegionsDistinct();
    ExactKeyWins("E1 6AN", Postcodes.Regions, 31);
  }

  /** "EC1A" captures "EC", which is a key: East Central London, not East London. */
  lemma EastCentralLondon()
    ensures RegionName("EC1A", Postcodes.Regions) == Name("East Central London")
  {
    CaptureExampleEC();
    Postcodes.EastEntries();
    Postcodes.RegionsDistinct();
    ExactKeyWins("EC1A", Postcodes.Regions, 32);
  }

  /** "Z1" captures "Z", and the only key starting with Z is "ZE": Lerwick. */
  lemma Lerwick()
    ensures RegionName("Z1", Postcodes.Regions) == Name("Lerwick")
  {
    CaptureExampleZ();
    Postcodes.RegionsDistinct();
    Postcodes.OnlyZE();
    assert LeastPrefixed(Postcodes.Regions, "Z", 120) by {
      forall j | 0 <= j < |Postcodes.Regions| && "Z" <= Postcodes.Regions[j].0
        ensures !LexLess(Postcodes.Regions[j].0, Postcodes.Regions[120].0)
      {
        LexLessIrreflexive("ZE");
      }
    }
    RegionNameOfLeast("Z1", Postcodes.Regions, 120);
  }

  /** A query beginning with J, Q, V or X is never in a known region. */
  lemma UnusedInitialUndefined(postcode: string)
    requires postcode != "" && postcode[0] in Postcodes.UnusedInitials
    ensures RegionName(postcode, Postcodes.Regions) == Undefined
  {
    if PatternMatches(postcode) {
      var p := Capture(postcode).value;
      Postcodes.NoKeyWithUnusedInitial();
      forall j | 0 <= j < |Postcodes.Regions|
        ensures !(p <= Postcodes.Regions[j].0)
      {
        assert p[0] == postcode[0];
      }
    }
  }

  // ---------------------------------------------------------------------------
  // Highlight aligner
  // ---------------------------------------------------------------------------

  /** `s` with every space removed. */
  function Strip(s: string): (r: string)
    ensures |r| <= |s|
    ensures ' ' !in r
  {
    if s == [] then [] else (if s[0] == ' ' then [] else [s[0]]) + Strip(s[1..])
  }

  lemma {:induction false} StripAppend(a: string, b: string)
    ensures Strip(a + b) == Strip(a) + Strip(b)
  {
    if a != [] {
      assert (a + b)[0] == a[0] && (a + b)[1..] == a[1..] + b;
      StripAppend(a[1..], b);
      var h: string := if a[0] == ' ' then [] else [a[0]];
      calc {
        Strip(a + b);
        h + Strip(a[1..] + b);
        h + (Strip(a[1..]) + Strip(b));
        (h + Strip(a[1..])) + Strip(b);
        Strip(a) + Strip(b);
      }
    } else {
      assert a + b == b;
    }
  }

  /** The longest common prefix of two strings. */
  function CommonPrefix(a: string, b: string): (p: string)
    ensures p <= a && p <= b
    ensures |p| < |a| && |p| < |b| ==> a[|p|] != b[|p|]
  {
    if a == [] || b == [] || a[0] != b[0] then []
    else [a[0]] + CommonPrefix(a[1..], b[1..])
  }

  /** A shared prefix can be taken out of `CommonPrefix`. */
  lemma {:induction false} CommonPrefixAfter(p: string, x: string, y: string)
    ensures CommonPrefix(p + x, p + y) == p + CommonPrefix(x, y)
  {
    if p != [] {
      assert (p + x)[0] == p[0] && (p + x)[1..] == p[1..] + x;
      assert (p + y)[0] == p[0] && (p + y)[1..] == p[1..] + y;
      CommonPrefixAfter(p[1..], x, y);
      calc {
        CommonPrefix(p + x, p + y);
        [p[0]] + CommonPrefix(p[1..] + x, p[1..] + y);
        [p[0]] + (p[1..] + CommonPrefix(x, y));
        ([p[0]] + p[1..]) + CommonPrefix(x, y);
        { assert [p[0]] + p[1..] == p; }
        p + CommonPrefix(x, y);
      }
    } else {
      assert p + x == x && p + y == y;
    }
  }

  /**
   * The two-cursor loop of `getHighlightLength` from cursors `i` (query) and
   * `j` (candidate). Reading past the end of the candidate gives `undefined`,
   * which is neither a space nor equal to a query character.
   */
  function HighlightFrom(s: string, c: string, i: nat, j: nat): (h: nat)
    requires i <= |s| && j <= |c|
    ensures j <= h <= |c|
    decreases (|s| - i) + (|c| - j)
  {
    if i == |s| then j
    else if j < |c| && c[j] == ' ' then HighlightFrom(s, c, i, j + 1)
    else if s[i] == ' ' then HighlightFrom(s, c, i + 1, j)
    else if j == |c| || s[i] != c[j] then j
    else HighlightFrom(s, c, i + 1, j + 1)
  }

  /** How many characters of candidate `c` to show in bold for query `s`. */
  function Highlight(s: string, c: string): (h: nat)
    ensures h <= |c|
  {
    HighlightFrom(s, c, 0, 0)
  }

  /** `getHighlightLength`, the loop itself. */
  method GetHighlightLength(search: string, candidate: string) returns (h: nat)
    ensures h == Highlight(search, candidate)
    ensures h <= |candidate|
    ensures Strip(candidate[..h]) == CommonPrefix(Strip(search), Strip(candidate))
  {
    HighlightIsCommonPrefix(search, candidate);
    var i, j := 0, 0;
    while i < |search|
      invariant i <= |search| && j <= |candidate|
      invariant HighlightFrom(search, candidate, i, j) == Highlight(search, candidate)
      decreases (|search| - i) + (|candidate| - j)
    {
      if j < |candidate| && candidate[j] == ' ' {
        j := j + 1;
      } else if search[i] == ' ' {
        i := i + 1;
      } else if j == |candidate| || search[i] != candidate[j] {
        return j;
      } else {
        i, j := i + 1, j + 1;
      }
    }
    return j;
  }

  /** Stepping a cursor over one character keeps the stripped prefixes in step. */
  lemma StripStep(s: string, i: nat)
    requires i < |s|
    ensures s[i] == ' ' ==> Strip(s[..i + 1]) == Strip(s[..i])
    ensures s[i] != ' ' ==> Strip(s[..i + 1]) == Strip(s[..i]) + [s[i]]
  {
    assert s[..i + 1] == s[..i] + [s[i]];
    StripAppend(s[..i], [s[i]]);
    assert Strip(s[..i]) + [] == Strip(s[..i]);
  }

  /**
   * Where the loop stops, at the end of the query or at a mismatch of two
   * non-space characters, the stripped prefixes already read are the longest
   * common prefix of the stripped strings.
   */
  lemma HighlightStops(s: string, c: string, i: nat, j: nat)
    requires i <= |s| && j <= |c| && Strip(s[..i]) == Strip(c[..j])
    requires i == |s| || (s[i] != ' ' && (j == |c| || (c[j] != ' ' && s[i] != c[j])))
    ensures Strip(c[..j]) == CommonPrefix(Strip(s), Strip(c))
  {
    var p := Strip(c[..j]);
    var x, y := Strip(s[i..]), Strip(c[j..]);
    StripSplit(s, i);
    StripSplit(c, j);
    CommonPrefixAfter(p, x, y);
    if i < |s| {
      StripHead(s, i);
      if j < |c| {
        StripHead(c, j);
      }
    } else {
      assert s[i..] == [];
    }
    assert CommonPrefix(x, y) == [];
    assert p + [] == p;
  }

  /** Stripping distributes over a cut at `i`. */
  lemma StripSplit(s: string, i: nat)
    requires i <= |s|
    ensures Strip(s) == Strip(s[..i]) + Strip(s[i..])
  {
    assert s == s[..i] + s[i..];
    StripAppend(s[..i], s[i..]);
  }

  /** A non-space character is the first character of the stripped rest. */
  lemma StripHead(s: string, i: nat)
    requires i < |s| && s[i] != ' '
    ensures Strip(s[i..]) != [] && Strip(s[i..])[0] == s[i]
  {
    assert s[i..][0] == s[i];
  }

  /**
   * From cursors whose stripped prefixes agree, the loop stops where the
   * stripped candidate prefix is the longest common prefix of the stripped
   * strings.
   */
  lemma {:induction false} HighlightFromCommonPrefix(s: string, c: string, i: nat, j: nat)
    requires i <= |s| && j <= |c| && Strip(s[..i]) == Strip(c[..j])
    ensures Strip(c[..HighlightFrom(s, c, i, j)]) == CommonPrefix(Strip(s), Strip(c))
    decreases (|s| - i) + (|c| - j)
  {
    if i == |s| {
      HighlightStops(s, c, i, j);
    } else if j < |c| && c[j] == ' ' {
      StripStep(c, j);
      HighlightFromCommonPrefix(s, c, i, j + 1);
    } else if s[i] == ' ' {
      StripStep(s, i);
      HighlightFromCommonPrefix(s, c, i + 1, j);
    } else if j == |c| || s[i] != c[j] {
      HighlightStops(s, c, i, j);
    } else {
      StripStep(s, i);
      StripStep(c, j);
      HighlightFromCommonPrefix(s, c, i + 1, j + 1);
    }
  }

  /**
   * The bold part of a candidate, with spaces removed, is the longest common
   * prefix of the query and the candidate with spaces removed.
   */
  lemma HighlightIsCommonPrefix(s: string, c: string)
    ensures Strip(c[..Highlight(s, c)]) == CommonPrefix(Strip(s), Strip(c))
  {
    HighlightFromCommonPrefix(s, c, 0, 0);
  }

  /** When the stripped query is a prefix of the stripped candidate, all of it is bold. */
  lemma HighlightCoversQuery(s: string, c: string)
    requires Strip(s) <= Strip(c)
    ensures Strip(c[..Highlight(s, c)]) == Strip(s)
  {
    HighlightIsCommonPrefix(s, c);
    CommonPrefixAfter(Strip(s), [], Strip(c)[|Strip(s)|..]);
    assert Strip(c) == Strip(s) + Strip(c)[|Strip(s)|..];
    assert Strip(s) + [] == Strip(s);
  }

  lemma HighlightExamples()
    ensures Highlight("EC1A", "EC1A 1BB") == 4
    ensures Highlight("EC1A 1", "EC1A1BB") == 5
    ensures Highlight("XYZ", "EC1A 1BB") == 0
  {
  }

  lemma HighlightOfEmptyQuery(c: string)
    ensures Highlight("", c) == 0
  {
  }

  // ---------------------------------------------------------------------------
  // Suggestions and the exact-single-match rule
  // ---------------------------------------------------------------------------

  /** An autocomplete entry: a bold part, a plain part, and the candidate it stands for. */
  datatype Suggestion = Suggestion(bold: string, plain: string, value: string)

  /** The suggestion for candidate `c`: its aligned prefix in bold, the rest plain. */
  function Suggest(q: string, c: string): (sg: Suggestion)
    ensures sg.value == c && sg.bold + sg.plain == c
    ensures Strip(sg.bold) == CommonPrefix(Strip(q), Strip(c))
  {
    var h := Highlight(q, c);
    HighlightIsCommonPrefix(q, c);
    assert c[..h] + c[h..] == c;
    Suggestion(c[..h], c[h..], c)
  }

  /** The suggestion list built from the candidates for query `q`, in response order. */
  function Suggestions(q: string, candidates: seq<string>): (r: seq<Suggestion>)
    ensures |r| == |candidates|
    ensures forall k :: 0 <= k < |r| ==>
      && r[k].value == candidates[k]
      && r[k].bold + r[k].plain == candidates[k]
      && Strip(r[k].bold) == CommonPrefix(Strip(q), Strip(candidates[k]))
  {
    seq(|candidates|, k requires 0 <= k < |candidates| => Suggest(q, candidates[k]))
  }

  /** The index of the first space in `s`, or `|s|` when there is none. */
  function FirstSpace(s: string): (k: nat)
    ensures k <= |s| && ' ' !in s[..k]
    ensures k < |s| ==> s[k] == ' '
  {
    if s == [] || s[0] == ' ' then 0
    else
      var k := 1 + FirstSpace(s[1..]);
      assert s[..k] == [s[0]] + s[1..][..k - 1];
      k
  }

  /** `s.replace(" ", "")`: only the first space goes. */
  function RemoveFirstSpace(s: string): (r: string)
    ensures ' ' !in s ==> r == s
    ensures ' ' in s ==> exists k :: 0 <= k < |s| && s[k] == ' ' && ' ' !in s[..k] && r == s[..k] + s[k + 1..]
  {
    var k := FirstSpace(s);
    if k == |s| then
      assert s[..k] == s;
      s
    else s[..k] + s[k + 1..]
  }

  /** One candidate that equals the query once the first space of each is dropped. */
  predicate ExactSingleMatch(q: string, candidates: seq<string>)
  {
    |candidates| == 1 && RemoveFirstSpace(q) == RemoveFirstSpace(candidates[0])
  }

  /** The space removed is the one after the space-free start `a`. */
  lemma RemoveFirstSpaceAfter(a: string, b: string)
    requires ' ' !in a
    ensures RemoveFirstSpace(a + " " + b) == a + b
  {
    var s := a + " " + b;
    var k := FirstSpace(s);
    assert s[|a|] == ' ';
    assert forall m :: 0 <= m < |a| ==> s[m] == a[m] && s[m] != ' ';
    assert forall m :: 0 <= m < k ==> s[..k][m] == s[m] && s[m] != ' ';
    assert k == |a|;
    assert s[..|a|] == a && s[|a| + 1..] == b;
  }

  /** "EC1A 1BB" and the single candidate "EC1A1BB" agree once the first space goes. */
  lemma ExactSingleMatchOneSpace()
    ensures ExactSingleMatch("EC1A 1BB", ["EC1A1BB"])
  {
    var a, b := "EC1A", "1BB";
    RemoveFirstSpaceAfter(a, b);
    assert a + " " + b == "EC1A 1BB";
    assert a + b == "EC1A1BB";
    assert ' ' !in a + b;
  }

  /** Only the first space goes: "E 1 6" becomes "E1 6", which is not "E16". */
  lemma ExactSingleMatchTwoSpaces()
    ensures !ExactSingleMatch("E 1 6", ["E16"])
  {
    var a, b := "E", "1 6";
    RemoveFirstSpaceAfter(a, b);
    assert a + " " + b == "E 1 6";
    assert ' ' !in "E16";
    assert (a + b)[2] == ' ' && "E16"[2] == '6';
  }

  /** Two candidates are never an exact match, even when one equals the query. */
  lemma ExactSingleMatchTwoCandidates(q: string, c: string, d: string)
    ensures !ExactSingleMatch(q, [c, d])
  {
  }

  /** What the saved search restores to: `search ? search : ""`. */
  function Restore(saved: Option<string>): (s: string)
    ensures Truthy(saved) ==> s == saved.value
    ensures !Truthy(saved) ==> s == ""
  {
    if Truthy(saved) then saved.value else ""
  }

  // ---------------------------------------------------------------------------
  // The component
  // ---------------------------------------------------------------------------

  class SearchBox {
    /** The `regions` prop. */
    const regions: Table
    /** The `online` prop. */
    var online: bool

    var searchString: string
    var error: bool
    var region: RegionValue
    var autoComplete: seq<Suggestion>

    /** The "search" entry of local storage. */
    var stored: Option<string>
    /** Every argument passed to the `updatePostcode` callback, in order. */
    var posted: seq<Option<string>>
    /** How many times the device was asked to vibrate. */
    var vibrations: nat
    /** The query of every autocomplete request sent, in order. */
    var lookups: seq<string>

    /** Reloading the page restores the current search string from storage. */
    predicate Valid()
      reads this
    {
      Restore(stored) == searchString
    }

    /** The constructor, given the props and what local storage holds. */
    constructor(regions: Table, online: bool, saved: Option<string>)
      ensures Valid()
      ensures this.regions == regions && this.online == online
      ensures searchString == Restore(saved) && stored == saved
      ensures !error && autoComplete == [] && region == RegionName(Restore(saved), regions)
      ensures posted == [] && vibrations == 0
      ensures lookups == (if Restore(saved) != "" && online then [Restore(saved)] else [])
    {
      var search := Restore(saved);
      this.regions := regions;
      this.online := online;
      searchString := search;
      error := false;
      region := RegionName(search, regions);
      autoComplete := [];
      stored := saved;
      posted := [];
      vibrations := 0;
      lookups := [];
      new;
      if search != "" {
        Dispatch(search, online);
      }
    }

    /** The start of `getAutoCompleteForPostcode`: offline, nothing is requested. */
    method Dispatch(q: string, isOnline: bool)
      modifies this
      ensures lookups == old(lookups) + (if isOnline then [q] else [])
      ensures searchString == old(searchString) && region == old(region) && error == old(error)
      ensures autoComplete == old(autoComplete) && stored == old(stored) && online == old(online)
      ensures posted == old(posted) && vibrations == old(vibrations)
    {
      if isOnline {
        lookups := lookups + [q];
      }
    }

    /** `setError`: vibrates only when the error switches on. */
    method SetError(state: bool)
      modifies this
      ensures error == state
      ensures vibrations == old(vibrations) + (if state && !old(error) then 1 else 0)
      ensures searchString == old(searchString) && region == old(region) && lookups == old(lookups)
      ensures autoComplete == old(autoComplete) && stored == old(stored) && online == old(online)
      ensures posted == old(posted)
    {
      if error != state {
        error := state;
        if state {
          vibrations := vibrations + 1;
        }
      }
    }

    /** `componentWillReceiveProps`: react to the `online` prop changing. */
    method ReceiveProps(nextOnline: bool)
      requires Valid()
      modifies this
      ensures Valid()
      ensures online == nextOnline
      ensures !nextOnline && old(online) ==> autoComplete == [] && lookups == old(lookups)
      ensures nextOnline && !old(online) ==> autoComplete == old(autoComplete) && lookups == old(lookups) + [searchString]
      ensures nextOnline == old(online) ==> autoComplete == old(autoComplete) && lookups == old(lookups)
      ensures searchString == old(searchString) && region == old(region) && error == old(error)
      ensures stored == old(stored) && posted == old(posted) && vibrations == old(vibrations)
    {
      if !nextOnline && online {
        autoComplete := [];
      } else if nextOnline && !online {
        Dispatch(searchString, nextOnline);
      }
      online := nextOnline;
    }

    /** `handleSearchUpdate`: a keystroke in the search box. The input is upper-cased first. */
    method HandleSearchUpdate(input: string)
      requires Valid()
      modifies this
      ensures Valid() && stored == Some(searchString) && online == old(online)
      ensures Upper(input) == "" ==>
        && posted == old(posted) + [None] && region == Null && searchString == ""
        && autoComplete == [] && !error && vibrations == old(vibrations) && lookups == old(lookups)
      ensures Upper(input) != "" ==> SearchUpdated(Upper(input), RegionName(Upper(input), regions))
    {
      var s := Upper(input);
      if |s| == 0 {
        posted := posted + [None];
        region := Null;
        searchString := "";
        autoComplete := [];
        error := false;
        stored := Some(s);
      } else {
        UpdateQuery(s);
      }
    }

    /**
     * How a non-empty query `s` with region `r` changes the state: a query
     * with no region raises the error and keeps the previous search string
     * and region; a query with a region becomes the search string, and a
     * lookup is sent when it is new.
     */
    twostate predicate SearchUpdated(s: string, r: RegionValue)
      reads this
    {
      && posted == old(posted) && autoComplete == old(autoComplete)
      && (error <==> r.Undefined?)
      && vibrations == old(vibrations) + (if r.Undefined? && !old(error) then 1 else 0)
      && searchString == (if r.Undefined? then old(searchString) else s)
      && region == (if r.Undefined? then old(region) else r)
      && lookups == old(lookups) + (if RegionTruthy(r) && s != old(searchString) && online then [s] else [])
    }

    /** The non-empty branch of `handleSearchUpdate`. */
    method UpdateQuery(s: string)
      requires Valid() && s != ""
      modifies this
      ensures Valid() && stored == Some(searchString) && online == old(online)
      ensures SearchUpdated(s, RegionName(s, regions))
    {
      ApplyRegion(s, RegionName(s, regions));
    }

    /** `handleSearchUpdate` once the region `r` of query `s` is known. */
    method ApplyRegion(s: string, r: RegionValue)
      requires Valid()
      modifies this
      ensures Valid() && stored == Some(searchString) && online == old(online)
      ensures SearchUpdated(s, r)
    {
      if RegionTruthy(r) && s != searchString {
        Dispatch(s, online);
      }
      var next := if r.Undefined? then searchString else s;
      SetError(r.Undefined?);
      region := if r.Undefined? then region else r;
      searchString := next;
      stored := Some(next);
    }

    /** `handleAutoComplete`: a suggestion was chosen. */
    method HandleAutoComplete(clicked: string)
      requires Valid()
      modifies this
      ensures Valid()
      ensures old(searchString) == clicked ==>
        && searchString == old(searchString) && autoComplete == old(autoComplete) && error == old(error)
        && posted == old(posted) && stored == old(stored)
      ensures old(searchString) != clicked ==>
        && searchString == clicked && autoComplete == [] && !error
        && posted == old(posted) + [Some(clicked)] && stored == Some(clicked)
      ensures region == old(region) && lookups == old(lookups) && vibrations == old(vibrations)
      ensures online == old(online)
    {
      if searchString != clicked {
        searchString := clicked;
        autoComplete := [];
        error := false;
        posted := posted + [Some(clicked)];
        stored := Some(clicked);
      }
    }

    /**
     * The rest of `getAutoCompleteForPostcode`: the response to the request
     * for query `q`, one of the lookups sent, arrives. A status other than 200
     * counts as no candidates.
     */
    method ApplyLookupResponse(q: string, response: Response<seq<string>>)
      requires Valid() && q in lookups
      modifies this
      ensures Valid()
      ensures var candidates := ListOrEmpty(response);
        && (ExactSingleMatch(q, candidates) ==>
              autoComplete == [] && posted == old(posted) + [Some(candidates[0])])
        && (!ExactSingleMatch(q, candidates) ==>
              autoComplete == Suggestions(q, candidates) && posted == old(posted) + [None])
        && (error <==> candidates == [])
        && vibrations == old(vibrations) + (if candidates == [] && !old(error) then 1 else 0)
      ensures searchString == old(searchString) && region == old(region) && stored == old(stored)
      ensures lookups == old(lookups) && online == old(online)
    {
      var candidates := ListOrEmpty(response);
      var suggestions := Suggestions(q, candidates);
      if |suggestions| == 1 && RemoveFirstSpace(q) == RemoveFirstSpace(suggestions[0].value) {
        autoComplete := [];
        posted := posted + [Some(candidates[0])];
      } else {
        posted := posted + [None];
        autoComplete := suggestions;
      }
      SetError(|candidates| == 0);
    }
  }
}

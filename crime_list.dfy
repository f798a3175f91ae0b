/**
 * The crime summary of src/components/CrimeList.tsx: counting the crimes of
 * each category, turning a hyphenated category slug into words, choosing
 * between the summary table and the "No Crime In Your Area" message, and
 * deciding when new crime data is fetched.
 *
 * Only the `category` field of a crime takes part in any of this, so a crime
 * is modelled by its category alone.
 */
module CrimeList {
  import opened Common
  import opened Strings

  // ---------------------------------------------------------------------------
  // Counting categories
  // ---------------------------------------------------------------------------

  /** The distinct elements of `xs` in order of first occurrence. */
  function Distinct(xs: seq<string>): (ks: seq<string>)
    ensures forall k :: k in ks <==> k in xs
    ensures forall i, j :: 0 <= i < j < |ks| ==> ks[i] != ks[j]
    decreases |xs|
  {
    if xs == [] then []
    else
      var init := xs[..|xs| - 1];
      var last := xs[|xs| - 1];
      assert xs == init + [last];
      var d := Distinct(init);
      if last in d then d else d + [last]
  }

  /**
   * `summarizeCategories`: one entry per category that occurs, holding how
   * many crimes have it. The keys are returned too, in the order the object
   * literal acquires them. That is the order `Object.keys` lists them in only
   * for categories that are not integer-like strings (those are listed first,
   * in numeric order) and are not names of `Object.prototype` members (those
   * are truthy or special on `{}`). Police category slugs are hyphenated
   * words, so neither case arises, and the model treats every category as
   * an ordinary key.
   */
  method SummarizeCategories(crimes: seq<string>) returns (keys: seq<string>, data: map<string, nat>)
    ensures keys == Distinct(crimes)
    ensures forall c :: c in data <==> c in crimes
    ensures forall c :: c in data ==> data[c] == multiset(crimes)[c]
  {
    keys := [];
    data := map[];
    for i := 0 to |crimes|
      invariant keys == Distinct(crimes[..i])
      invariant forall c :: c in data <==> c in crimes[..i]
      invariant forall c :: c in data ==> data[c] == multiset(crimes[..i])[c]
    {
      var c := crimes[i];
      assert crimes[..i + 1] == crimes[..i] + [c];
      KeysSnoc(crimes[..i], c);
      CountsSnoc(data, crimes[..i], c);
      var v := if c in data then data[c] + 1 else 1;
      DomainSnoc(data, crimes[..i], c, v);
      if c !in data {
        keys := keys + [c];
      }
      data := data[c := v];
    }
    assert crimes[..|crimes|] == crimes;
  }

  /** One loop step: the keys gain the category exactly when it is new. */
  lemma KeysSnoc(xs: seq<string>, c: string)
    ensures Distinct(xs + [c]) == if c in xs then Distinct(xs) else Distinct(xs) + [c]
  {
    assert (xs + [c])[..|xs|] == xs;
  }

  /** One loop step: the category joins the domain. */
  lemma DomainSnoc(data: map<string, nat>, xs: seq<string>, c: string, v: nat)
    requires forall d :: d in data <==> d in xs
    ensures forall d :: d in data[c := v] <==> d in xs + [c]
  {
    forall d
      ensures d in data[c := v] <==> d in xs + [c]
    {
      assert d in xs + [c] <==> d in xs || d == c;
    }
  }

  /** One loop step: the category's count goes up by one, with 0 for a category not yet seen. */
  lemma CountsSnoc(data: map<string, nat>, xs: seq<string>, c: string)
    requires forall d :: d in data ==> data[d] == multiset(xs)[d]
    requires c !in data ==> multiset(xs)[c] == 0
    ensures var v := if c in data then data[c] + 1 else 1;
      forall d :: d in data[c := v] ==> data[c := v][d] == multiset(xs + [c])[d]
  {
    CountSnoc(xs, c);
  }

  /** One more element adds one to its own count and nothing to any other. */
  lemma CountSnoc(seen: seq<string>, c: string)
    ensures multiset(seen + [c])[c] == multiset(seen)[c] + 1
    ensures forall d :: d != c ==> multiset(seen + [c])[d] == multiset(seen)[d]
  {
    assert multiset(seen + [c]) == multiset(seen) + multiset{c};
  }

  /** The sum of the multiplicities in `ms` of the keys `ks`. */
  function SumCounts(ks: seq<string>, ms: multiset<string>): nat
  {
    if ks == [] then 0 else ms[ks[0]] + SumCounts(ks[1..], ms)
  }

  lemma {:induction false} SumCountsAppend(a: seq<string>, b: seq<string>, ms: multiset<string>)
    ensures SumCounts(a + b, ms) == SumCounts(a, ms) + SumCounts(b, ms)
  {
    if a != [] {
      assert (a + b)[0] == a[0] && (a + b)[1..] == a[1..] + b;
      SumCountsAppend(a[1..], b, ms);
    } else {
      assert a + b == b;
    }
  }

  /** Adding one element `x` to the multiset adds one to the sum when `x` is among the distinct keys. */
  lemma {:induction false} SumCountsAdd(ks: seq<string>, ms: multiset<string>, x: string)
    requires forall i, j :: 0 <= i < j < |ks| ==> ks[i] != ks[j]
    ensures SumCounts(ks, ms + multiset{x}) == SumCounts(ks, ms) + (if x in ks then 1 else 0)
  {
    if ks != [] {
      SumCountsAdd(ks[1..], ms, x);
      assert x in ks[1..] ==> x != ks[0];
      assert x in ks <==> x == ks[0] || x in ks[1..];
    }
  }

  /** The counts of the summary add up to the number of crimes. */
  lemma {:induction false} CountsSumToTotal(crimes: seq<string>)
    ensures SumCounts(Distinct(crimes), multiset(crimes)) == |crimes|
    decreases |crimes|
  {
    if crimes != [] {
      var init := crimes[..|crimes| - 1];
      var last := crimes[|crimes| - 1];
      assert crimes == init + [last];
      CountsSumToTotal(init);
      var d := Distinct(init);
      SumCountsAdd(d, multiset(init), last);
      if last !in d {
        SumCountsAppend(d, [last], multiset(crimes));
        assert SumCounts([last], multiset(crimes)) == 1 by {
          assert multiset(crimes)[last] == 1;
        }
      }
    }
  }

  // ---------------------------------------------------------------------------
  // Dehyphenating category names
  // ---------------------------------------------------------------------------

  /** `word.charAt(0).toUpperCase() + word.slice(1)`; the empty word stays empty. */
  function Capitalize(word: string): (r: string)
    ensures |r| == |word|
  {
    if word == [] then [] else [ToUpperChar(word[0])] + word[1..]
  }

  function CapitalizeAll(words: seq<string>): (r: seq<string>)
    ensures |r| == |words|
  {
    if words == [] then [] else [Capitalize(words[0])] + CapitalizeAll(words[1..])
  }

  /** `dehyphenate`: split on "-", capitalize every word, join with " ". */
  function Dehyphenate(name: string): string
  {
    Join(CapitalizeAll(Split(name, '-')), ' ')
  }

  /**
   * The same transformation one character at a time: a hyphen becomes a
   * space and a character that starts a word is upper-cased. `atStart` says
   * whether the first character starts a word.
   */
  function Spaced(s: string, atStart: bool): (r: string)
    ensures |r| == |s|
  {
    if s == [] then []
    else if s[0] == '-' then [' '] + Spaced(s[1..], true)
    else [if atStart then ToUpperChar(s[0]) else s[0]] + Spaced(s[1..], false)
  }

  lemma JoinConsHead(c: char, w: string, rest: seq<string>, sep: char)
    ensures Join([[c] + w] + rest, sep) == [c] + Join([w] + rest, sep)
  {
    if rest != [] {
      assert ([[c] + w] + rest)[1..] == rest;
      assert ([w] + rest)[1..] == rest;
    }
  }

  /**
   * Splitting, capitalizing and joining agrees with the character-wise
   * reading, both for a string whose first word is capitalized and for one
   * whose first word is left alone.
   */
  predicate SpacedAgrees(s: string)
  {
    var parts := Split(s, '-');
    && Join([parts[0]] + CapitalizeAll(parts[1..]), ' ') == Spaced(s, false)
    && Join(CapitalizeAll(parts), ' ') == Spaced(s, true)
  }

  lemma SpacedAgreesHyphen(s: string)
    requires s != [] && s[0] == '-' && SpacedAgrees(s[1..])
    ensures SpacedAgrees(s)
  {
    var parts := Split(s, '-');
    var rest := Split(s[1..], '-');
    assert parts == [""] + rest;
    assert parts[1..] == rest;
    assert CapitalizeAll(parts) == [""] + CapitalizeAll(rest);
    assert Join([parts[0]] + CapitalizeAll(parts[1..]), ' ') == "" + [' '] + Join(CapitalizeAll(rest), ' ');
    assert Join(CapitalizeAll(parts), ' ') == "" + [' '] + Join(CapitalizeAll(rest), ' ');
  }

  lemma SpacedAgreesChar(s: string)
    requires s != [] && s[0] != '-' && SpacedAgrees(s[1..])
    ensures SpacedAgrees(s)
  {
    var parts := Split(s, '-');
    var rest := Split(s[1..], '-');
    assert parts == [[s[0]] + rest[0]] + rest[1..];
    assert parts[1..] == rest[1..];
    JoinConsHead(s[0], rest[0], CapitalizeAll(rest[1..]), ' ');
    assert rest == [rest[0]] + rest[1..];
    assert CapitalizeAll(rest) == [Capitalize(rest[0])] + CapitalizeAll(rest[1..]);
    assert Capitalize([s[0]] + rest[0]) == [ToUpperChar(s[0])] + rest[0];
    assert CapitalizeAll(parts) == [[ToUpperChar(s[0])] + rest[0]] + CapitalizeAll(rest[1..]);
    JoinConsHead(ToUpperChar(s[0]), rest[0], CapitalizeAll(rest[1..]), ' ');
  }

  lemma {:induction false} DehyphenateSpaced(s: string)
    ensures SpacedAgrees(s)
  {
    if s == [] {
      assert Split(s, '-') == [""];
    } else {
      DehyphenateSpaced(s[1..]);
      if s[0] == '-' {
        SpacedAgreesHyphen(s);
      } else {
        SpacedAgreesChar(s);
      }
    }
  }

  /** `Spaced` character by character. */
  lemma {:induction false} SpacedPointwise(s: string, atStart: bool, i: nat)
    requires i < |s|
    ensures s[i] == '-' ==> Spaced(s, atStart)[i] == ' '
    ensures s[i] != '-' && (if i == 0 then atStart else s[i - 1] == '-') ==> Spaced(s, atStart)[i] == ToUpperChar(s[i])
    ensures s[i] != '-' && !(if i == 0 then atStart else s[i - 1] == '-') ==> Spaced(s, atStart)[i] == s[i]
  {
    if i > 0 {
      SpacedPointwise(s[1..], s[0] == '-', i - 1);
    }
  }

  /**
   * `dehyphenate` keeps the length, turns every hyphen into a space,
   * upper-cases the first character of every word, and leaves every other
   * character alone.
   */
  lemma DehyphenatePointwise(name: string)
    ensures |Dehyphenate(name)| == |name|
    ensures forall i :: 0 <= i < |name| && name[i] == '-' ==> Dehyphenate(name)[i] == ' '
    ensures forall i :: 0 <= i < |name| && name[i] != '-' && (i == 0 || name[i - 1] == '-') ==>
      Dehyphenate(name)[i] == ToUpperChar(name[i])
    ensures forall i :: 0 <= i < |name| && name[i] != '-' && i > 0 && name[i - 1] != '-' ==>
      Dehyphenate(name)[i] == name[i]
  {
    DehyphenateSpaced(name);
    forall i | 0 <= i < |name| {
      SpacedPointwise(name, true, i);
    }
  }

  /** `Spaced` works piece by piece; the second piece starts a word when the first ends in a hyphen. */
  lemma {:induction false} SpacedAppend(a: string, b: string, atStart: bool)
    ensures Spaced(a + b, atStart) == Spaced(a, atStart) + Spaced(b, if a == [] then atStart else a[|a| - 1] == '-')
  {
    if a == [] {
      assert a + b == b;
    } else {
      assert (a + b)[0] == a[0] && (a + b)[1..] == a[1..] + b;
      SpacedAppend(a[1..], b, a[0] == '-');
    }
  }

  /** `dehyphenate` is the character-wise transformation with the first word capitalized. */
  lemma DehyphenateIsSpaced(name: string)
    ensures Dehyphenate(name) == Spaced(name, true)
  {
    DehyphenateSpaced(name);
  }

  /** Inside a word without hyphens nothing changes. */
  lemma {:induction false} SpacedInsideWord(w: string)
    requires '-' !in w
    ensures Spaced(w, false) == w
  {
    if w != [] {
      SpacedInsideWord(w[1..]);
      assert [w[0]] + w[1..] == w;
    }
  }

  /** A word without hyphens gets its first character upper-cased and nothing else. */
  lemma SpacedWord(w: string)
    requires w != [] && '-' !in w
    ensures Spaced(w, true) == [ToUpperChar(w[0])] + w[1..]
  {
    SpacedInsideWord(w[1..]);
  }

  /** A word followed by a hyphen: the word capitalized, then a space. */
  lemma SpacedWordHyphen(w: string)
    requires w != [] && '-' !in w
    ensures Spaced(w + "-", true) == [ToUpperChar(w[0])] + w[1..] + " "
  {
    SpacedWord(w);
    SpacedAppend(w, "-", true);
  }

  lemma SpacedAnti()
    ensures Spaced("anti-", true) == "Anti "
  {
    var w := "anti";
    SpacedWordHyphen(w);
    assert w + "-" == "anti-";
    assert [ToUpperChar(w[0])] + w[1..] + " " == "Anti ";
  }

  lemma SpacedSocial()
    ensures Spaced("social-", true) == "Social "
  {
    var w := "social";
    SpacedWordHyphen(w);
    assert w + "-" == "social-";
    assert [ToUpperChar(w[0])] + w[1..] + " " == "Social ";
  }

  lemma SpacedBehaviour()
    ensures Spaced("behaviour", true) == "Behaviour"
  {
    var w := "behaviour";
    SpacedWord(w);
    assert [ToUpperChar(w[0])] + w[1..] == "Behaviour";
  }

  /** Three words, the first two ending in a hyphen, are transformed word by word. */
  lemma SpacedOfWords(a: string, b: string, c: string)
    requires a != [] && a[|a| - 1] == '-' && b != [] && b[|b| - 1] == '-'
    ensures Spaced(a + b + c, true) == Spaced(a, true) + Spaced(b, true) + Spaced(c, true)
  {
    assert a + b + c == a + (b + c);
    SpacedAppend(a, b + c, true);
    SpacedAppend(b, c, true);
  }

  lemma WordsGlue()
    ensures "anti-" + "social-" + "behaviour" == "anti-social-behaviour"
    ensures "Anti " + "Social " + "Behaviour" == "Anti Social Behaviour"
  {
  }

  lemma SpacedOfThreeWords(s: string)
    requires s == "anti-" + "social-" + "behaviour"
    ensures Spaced(s, true) == "Anti " + "Social " + "Behaviour"
  {
    SpacedOfWords("anti-", "social-", "behaviour");
    SpacedAnti();
    SpacedSocial();
    SpacedBehaviour();
  }

  lemma SpacedExample()
    ensures Spaced("anti-social-behaviour", true) == "Anti Social Behaviour"
  {
    WordsGlue();
    SpacedOfThreeWords("anti-social-behaviour");
  }

  lemma DehyphenateExample()
    ensures Dehyphenate("anti-social-behaviour") == "Anti Social Behaviour"
  {
    DehyphenateIsSpaced("anti-social-behaviour");
    SpacedExample();
  }

  /** An empty word between two hyphens stays empty. */
  lemma DehyphenateEmptyWord()
    ensures Dehyphenate("a--b") == "A  B"
    ensures Dehyphenate("") == ""
  {
    DehyphenateIsSpaced("a--b");
    DehyphenateIsSpaced("");
  }

  // ---------------------------------------------------------------------------
  // Rendering decision and the component
  // ---------------------------------------------------------------------------

  /** What `render` shows: the summary rows, or the message when there is nothing to summarise. */
  datatype View = SummaryTable(rows: seq<(string, nat)>) | NoCrimeMessage

  function Rows(keys: seq<string>, crimes: seq<string>): (rows: seq<(string, nat)>)
    ensures |rows| == |keys|
    ensures forall k :: 0 <= k < |rows| ==> rows[k] == (Dehyphenate(keys[k]), multiset(crimes)[keys[k]])
  {
    if keys == [] then [] else [(Dehyphenate(keys[0]), multiset(crimes)[keys[0]])] + Rows(keys[1..], crimes)
  }

  /** `render`, with the summary as `SummarizeCategories` describes it, every category being an ordinary key. */
  function Render(crimes: seq<string>): View
  {
    var keys := Distinct(crimes);
    if |keys| > 0 then SummaryTable(Rows(keys, crimes)) else NoCrimeMessage
  }

  /** The table is shown exactly when there are crimes, one row per category, counts adding up. */
  lemma RenderShowsTableIffCrimes(crimes: seq<string>)
    ensures Render(crimes).SummaryTable? <==> crimes != []
    ensures crimes != [] ==> |Render(crimes).rows| == |Distinct(crimes)|
    ensures crimes != [] ==> SumCounts(Distinct(crimes), multiset(crimes)) == |crimes|
  {
    if crimes != [] {
      assert crimes[0] in Distinct(crimes);
    }
    CountsSumToTotal(crimes);
  }

  /** `componentWillReceiveProps`'s test: the postcode changed and is not null. */
  predicate WillFetch(current: Option<string>, next: Option<string>)
  {
    current != next && next.Some?
  }

  class CrimeList {
    /** The `postcode` prop. */
    var postcode: Option<string>
    /** The categories of the crimes in the state. */
    var crimes: seq<string>
    /** Every postcode crime data was requested for, in order. */
    var fetches: seq<string>

    constructor(postcode: Option<string>)
      ensures this.postcode == postcode && crimes == []
      ensures fetches == (if Truthy(postcode) then [postcode.value] else [])
    {
      this.postcode := postcode;
      crimes := [];
      fetches := if Truthy(postcode) then [postcode.value] else [];
    }

    /** `componentWillReceiveProps`: a fetch only for a new, non-null postcode. */
    method ReceiveProps(next: Option<string>)
      modifies this
      ensures postcode == next && crimes == old(crimes)
      ensures WillFetch(old(postcode), next) ==> fetches == old(fetches) + [next.value]
      ensures !WillFetch(old(postcode), next) ==> fetches == old(fetches)
    {
      if postcode != next && next.Some? {
        fetches := fetches + [next.value];
      }
      postcode := next;
    }

    /** The end of `fetchData`: the crimes of a 200 response, none otherwise. */
    method ApplyCrimes(response: Response<seq<string>>)
      modifies this
      ensures crimes == ListOrEmpty(response)
      ensures postcode == old(postcode) && fetches == old(fetches)
    {
      crimes := ListOrEmpty(response);
    }
  }
}

/**
 * The crime summary of front/components/Crime.tsx. Its switch over a crime's
 * category has no `break`, so a crime of the k-th listed category runs every
 * case from the k-th on: counter i ends up counting the crimes whose
 * category is one of the first i + 1 listed categories. A crime is
 * represented here by its category slug.
 */
module FrontCrime {

  /** The category slugs, in the order of the switch's cases and of the returned list. */
  const Categories: seq<string> :=
    ["all-crime", "anti-social-behaviour", "bicycle-theft", "burglary",
     "criminal-damage-arson", "drugs", "other-theft", "possession-of-weapons",
     "public-order", "robbery", "shoplifting", "theft-from-the-person",
     "vehicle-crime", "violent-crime", "other-crime"]

  /** The readable label of each slug, in the same order. */
  const Labels: seq<string> :=
    ["All crime", "Anti-social behaviour", "Bicycle theft", "Burglary",
     "Criminal damage and arson", "Drugs", "Other theft", "Possession of weapons",
     "Public order", "Robbery", "Shoplifting", "Theft from the person",
     "Vehicle crime", "Violent and sexual offences", "Other crime"]

  /** The label of a slug the switch does not list. */
  const UnknownLabel := "idk lol"

  /** No slug is listed twice. */
  lemma CategoriesDistinct()
    ensures |Categories| == 15
    ensures forall i, j :: 0 <= i < j < |Categories| ==> Categories[i] != Categories[j]
  {
  }

  /** The case the switch enters for `c`, or 15 when it enters none. */
  function CategoryIndex(c: string): (k: nat)
    ensures k <= |Categories|
    ensures k < |Categories| ==> Categories[k] == c
    ensures forall j :: 0 <= j < k && j < |Categories| ==> Categories[j] != c
  {
    IndexFrom(c, 0)
  }

  function IndexFrom(c: string, from: nat): (k: nat)
    requires from <= |Categories|
    ensures from <= k <= |Categories|
    ensures k < |Categories| ==> Categories[k] == c
    ensures forall j :: from <= j < k ==> Categories[j] != c
    decreases |Categories| - from
  {
    if from == |Categories| then from
    else if Categories[from] == c then from
    else IndexFrom(c, from + 1)
  }

  /** Counter `i` after the whole list: the crimes whose category is among the first `i + 1` cases. */
  function CountAtMost(crimes: seq<string>, i: nat): (n: nat)
    requires i < |Categories|
    ensures n <= |crimes|
  {
    if crimes == [] then 0
    else
      var last := crimes[|crimes| - 1];
      CountAtMost(crimes[..|crimes| - 1], i) + (if last in Categories[..i + 1] then 1 else 0)
  }

  /** The number of crimes of category `c`. */
  function Occurrences(crimes: seq<string>, c: string): (n: nat)
    ensures n <= |crimes|
    ensures n == 0 <==> c !in crimes
  {
    if crimes == [] then 0
    else
      var init := crimes[..|crimes| - 1];
      assert crimes == init + [crimes[|crimes| - 1]];
      Occurrences(init, c) + (if crimes[|crimes| - 1] == c then 1 else 0)
  }

  /**
   * `summarizeCategories`: one pass over the crimes; for each, every counter
   * from its case to the last is incremented.
   */
  method SummarizeCategories(crimes: seq<string>) returns (counts: seq<nat>)
    ensures |counts| == |Categories|
    ensures forall i :: 0 <= i < |counts| ==> counts[i] == CountAtMost(crimes, i)
  {
    counts := seq(15, _ => 0);
    for n := 0 to |crimes|
      invariant |counts| == 15
      invariant forall i :: 0 <= i < 15 ==> counts[i] == CountAtMost(crimes[..n], i)
    {
      var k := CategoryIndex(crimes[n]);
      ghost var before := counts;
      for j := k to 15
        invariant |counts| == 15
        invariant forall i :: 0 <= i < k ==> counts[i] == before[i]
        invariant forall i :: k <= i < j ==> counts[i] == before[i] + 1
        invariant forall i :: j <= i < 15 ==> counts[i] == before[i]
      {
        counts := counts[j := counts[j] + 1];
      }
      assert crimes[..n + 1] == crimes[..n] + [crimes[n]];
      forall i | 0 <= i < 15
        ensures counts[i] == CountAtMost(crimes[..n + 1], i)
      {
        CountOfCrime(crimes[..n], crimes[n], i);
      }
    }
    assert crimes[..|crimes|] == crimes;
  }

  /** A crime of the k-th category adds one to counters k to 14 and nothing else. */
  lemma CountOfCategory(crimes: seq<string>, k: nat, i: nat)
    requires k < |Categories| && i < |Categories|
    ensures CountAtMost(crimes + [Categories[k]], i) == CountAtMost(crimes, i) + (if k <= i then 1 else 0)
  {
    CategoriesDistinct();
    var s := crimes + [Categories[k]];
    assert s[..|s| - 1] == crimes;
    if Categories[k] in Categories[..i + 1] {
      var j :| 0 <= j < i + 1 && Categories[..i + 1][j] == Categories[k];
      assert j == k;
    }
    if k <= i {
      assert Categories[..i + 1][k] == Categories[k];
    }
  }

  /** A crime whose category is not listed changes no counter. */
  lemma CountOfUnknown(crimes: seq<string>, c: string, i: nat)
    requires c !in Categories && i < |Categories|
    ensures CountAtMost(crimes + [c], i) == CountAtMost(crimes, i)
  {
    var s := crimes + [c];
    assert s[..|s| - 1] == crimes;
  }

  /** One more crime adds one to the counters from its case on, and to no other. */
  lemma CountOfCrime(crimes: seq<string>, c: string, i: nat)
    requires i < |Categories|
    ensures CountAtMost(crimes + [c], i) == CountAtMost(crimes, i) + (if CategoryIndex(c) <= i then 1 else 0)
  {
    var k := CategoryIndex(c);
    if k < |Categories| {
      CountOfCategory(crimes, k, i);
    } else {
      CountOfUnknown(crimes, c, i);
    }
  }

  /** The counters never decrease along the list. */
  lemma {:induction false} CountsNonDecreasing(crimes: seq<string>, i: nat, j: nat)
    requires i <= j < |Categories|
    ensures CountAtMost(crimes, i) <= CountAtMost(crimes, j)
  {
    if crimes != [] {
      var init := crimes[..|crimes| - 1];
      CountsNonDecreasing(init, i, j);
      var last := crimes[|crimes| - 1];
      if last in Categories[..i + 1] {
        var m :| 0 <= m < |Categories[..i + 1]| && Categories[..i + 1][m] == last;
        assert Categories[..j + 1][m] == last;
      }
    }
  }

  /** Each counter minus the one before it is the number of crimes of that counter's own category. */
  lemma {:induction false} CounterStep(crimes: seq<string>, i: nat)
    requires 0 < i < |Categories|
    ensures CountAtMost(crimes, i) == CountAtMost(crimes, i - 1) + Occurrences(crimes, Categories[i])
  {
    CategoriesDistinct();
    if crimes != [] {
      var init := crimes[..|crimes| - 1];
      CounterStep(init, i);
      var last := crimes[|crimes| - 1];
      assert Categories[..i + 1] == Categories[..i] + [Categories[i]];
      assert last in Categories[..i + 1] <==> last in Categories[..i] || last == Categories[i];
      assert last == Categories[i] ==> last !in Categories[..i];
      assert Categories[..i] == Categories[..i - 1 + 1];
    }
  }

  /** The first counter counts the "all-crime" crimes alone. */
  lemma {:induction false} FirstCounter(crimes: seq<string>)
    ensures CountAtMost(crimes, 0) == Occurrences(crimes, "all-crime")
  {
    if crimes != [] {
      FirstCounter(crimes[..|crimes| - 1]);
      assert Categories[..1] == ["all-crime"];
    }
  }

  /** The number of crimes with a listed category. */
  function Recognised(crimes: seq<string>): (n: nat)
    ensures n <= |crimes|
    ensures n == 0 <==> forall j :: 0 <= j < |crimes| ==> crimes[j] !in Categories
  {
    if crimes == [] then 0
    else
      var init := crimes[..|crimes| - 1];
      var n := Recognised(init) + (if crimes[|crimes| - 1] in Categories then 1 else 0);
      assert forall j :: 0 <= j < |init| ==> init[j] == crimes[j];
      n
  }

  /** The last counter is the number of crimes with a listed category. */
  lemma {:induction false} LastCounter(crimes: seq<string>)
    ensures CountAtMost(crimes, |Categories| - 1) == Recognised(crimes)
  {
    if crimes != [] {
      LastCounter(crimes[..|crimes| - 1]);
      assert Categories[..|Categories|] == Categories;
    }
  }

  /** Some counter is positive exactly when some crime has a listed category. */
  lemma SomeCounterPositive(crimes: seq<string>)
    ensures (exists i :: 0 <= i < |Categories| && CountAtMost(crimes, i) > 0)
        <==> (exists j :: 0 <= j < |crimes| && crimes[j] in Categories)
  {
    LastCounter(crimes);
    forall i | 0 <= i < |Categories|
      ensures CountAtMost(crimes, i) <= CountAtMost(crimes, |Categories| - 1)
    {
      CountsNonDecreasing(crimes, i, |Categories| - 1);
    }
  }

  /** `existsData`: whether some entry is positive, returning at the first one. */
  method ExistsData(list: seq<int>) returns (b: bool)
    ensures b <==> exists i :: 0 <= i < |list| && list[i] > 0
  {
    for n := 0 to |list|
      invariant forall i :: 0 <= i < n ==> list[i] <= 0
    {
      if list[n] > 0 {
        return true;
      }
    }
    return false;
  }

  /** `readableCategories`: the label of a listed slug, "idk lol" for any other. */
  function ReadableCategory(name: string): (readable: string)
    ensures name !in Categories ==> readable == UnknownLabel
  {
    if name == "all-crime" then "All crime"
    else if name == "anti-social-behaviour" then "Anti-social behaviour"
    else if name == "bicycle-theft" then "Bicycle theft"
    else if name == "burglary" then "Burglary"
    else if name == "criminal-damage-arson" then "Criminal damage and arson"
    else if name == "drugs" then "Drugs"
    else if name == "other-theft" then "Other theft"
    else if name == "possession-of-weapons" then "Possession of weapons"
    else if name == "public-order" then "Public order"
    else if name == "robbery" then "Robbery"
    else if name == "shoplifting" then "Shoplifting"
    else if name == "theft-from-the-person" then "Theft from the person"
    else if name == "vehicle-crime" then "Vehicle crime"
    else if name == "violent-crime" then "Violent and sexual offences"
    else if name == "other-crime" then "Other crime"
    else UnknownLabel
  }

  /** Each listed slug gets the label in the same position. */
  lemma ReadableCategoryListed(k: nat)
    requires k < |Categories|
    ensures ReadableCategory(Categories[k]) == Labels[k]
  {
    if k < 5 {
      assert k == 0 || k == 1 || k == 2 || k == 3 || k == 4;
    } else if k < 10 {
      assert k == 5 || k == 6 || k == 7 || k == 8 || k == 9;
    } else {
      assert k == 10 || k == 11 || k == 12 || k == 13 || k == 14;
    }
  }

  /** No listed slug is labelled "idk lol", so the label tells a listed slug from any other. */
  lemma ReadableCategoryKnown(name: string)
    ensures ReadableCategory(name) == UnknownLabel <==> name !in Categories
  {
    if name in Categories {
      var k :| 0 <= k < |Categories| && Categories[k] == name;
      ReadableCategoryListed(k);
      assert Labels[k] != UnknownLabel;
    }
  }

  /** A burglary counts in counter 3 and every later one, an unknown slug in none. */
  lemma SummaryExample()
    ensures CountAtMost(["burglary"], 2) == 0
    ensures CountAtMost(["burglary"], 3) == 1
    ensures CountAtMost(["burglary"], 14) == 1
    ensures CountAtMost(["arson"], 14) == 0
  {
    CountOfCategory([], 3, 2);
    CountOfCategory([], 3, 3);
    CountOfCategory([], 3, 14);
    CountOfUnknown([], "arson", 14);
    assert [] + [Categories[3]] == ["burglary"];
    assert [] + ["arson"] == ["arson"];
  }
}

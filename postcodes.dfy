/**
 * The default-exported table of front/data/postcodes.ts: postcode area prefix
 * to region name. `Regions` lists the entries in the object literal's own
 * (alphabetical) order, which is the order `Object.entries` walks them in; it
 * is written as consecutive groups of initial letters only so that facts about
 * it can be checked group by group.
 */
module Postcodes {
  import opened Strings
  import PostcodePattern

  const Regions: seq<(string, string)> :=
    RegionsAtoB + RegionsC + RegionsD + RegionsEtoG + RegionsH + RegionsItoK + RegionsL + RegionsMtoN + RegionsOtoR + RegionsStoSN + RegionsSOtoSY + RegionsTtoU + RegionsWtoZ

  const RegionsAtoB: seq<(string, string)> := [
    ("AB", "Aberdeen"),
    ("AL", "St Albans"),
    ("B", "Birmingham"),
    ("BA", "Bath"),
    ("BB", "Blackburn"),
    ("BD", "Bradford"),
    ("BH", "Bournemouth"),
    ("BL", "Bolton"),
    ("BN", "Brighton"),
    ("BR", "Bromley"),
    ("BS", "Bristol"),
    ("BT", "Belfast")
  ]

  const RegionsC: seq<(string, string)> := [
    ("CA", "Carlisle"),
    ("CB", "Cambridge"),
    ("CF", "Cardiff"),
    ("CH", "Chester"),
    ("CM", "Chelmsford"),
    ("CO", "Colchester"),
    ("CR", "Croydon"),
    ("CT", "Canterbury"),
    ("CV", "Coventry"),
    ("CW", "Crewe")
  ]

  const RegionsD: seq<(string, string)> := [
    ("DA", "Dartford"),
    ("DD", "Dundee"),
    ("DE", "Derby"),
    ("DG", "Dumfries"),
    ("DH", "Durham"),
    ("DL", "Darlington"),
    ("DN", "Doncaster"),
    ("DT", "Dorchester"),
    ("DY", "Dudley")
  ]

  const RegionsEtoG: seq<(string, string)> := [
    ("E", "East London"),
    ("EC", "East Central London"),
    ("EH", "Edinburgh"),
    ("EN", "Enfield"),
    ("EX", "Exeter"),
    ("FK", "Falkirk"),
    ("FY", "Blackpool"),
    ("G", "Glasgow"),
    ("GL", "Gloucester"),
    ("GU", "Guildford")
  ]

  const RegionsH: seq<(string, string)> := [
    ("HA", "Harrow"),
    ("HD", "Huddersfield"),
    ("HG", "Harrogate"),
    ("HP", "Hemel Hempstead"),
    ("HR", "Hereford"),
    ("HS", "Outer Hebrides"),
    ("HU", "Hull"),
    ("HX", "Halifax")
  ]

  const RegionsItoK: seq<(string, string)> := [
    ("IG", "Ilford"),
    ("IP", "Ipswich"),
    ("IV", "Inverness"),
    ("KA", "Kilmarnock"),
    ("KT", "Kingston upon Thames"),
    ("KW", "Kirkwall"),
    ("KY", "Kirkcaldy")
  ]

  const RegionsL: seq<(string, string)> := [
    ("L", "Liverpool"),
    ("LA", "Lancaster"),
    ("LD", "Llandrindod Wells"),
    ("LE", "Leicester"),
    ("LL", "Llandudno"),
    ("LN", "Lincoln"),
    ("LS", "Leeds"),
    ("LU", "Luton")
  ]

  const RegionsMtoN: seq<(string, string)> := [
    ("M", "Manchester"),
    ("ME", "Rochester"),
    ("MK", "Milton Keynes"),
    ("ML", "Motherwell"),
    ("N", "North London"),
    ("NE", "Newcastle upon Tyne"),
    ("NG", "Nottingham"),
    ("NN", "Northampton"),
    ("NP", "Newport"),
    ("NR", "Norwich"),
    ("NW", "North West London")
  ]

  const RegionsOtoR: seq<(string, string)> := [
    ("OL", "Oldham"),
    ("OX", "Oxford"),
    ("PA", "Paisley"),
    ("PE", "Peterborough"),
    ("PH", "Perth"),
    ("PL", "Plymouth"),
    ("PO", "Portsmouth"),
    ("PR", "Preston"),
    ("RG", "Reading"),
    ("RH", "Redhill"),
    ("RM", "Romford")
  ]

  const RegionsStoSN: seq<(string, string)> := [
    ("S", "Sheffield"),
    ("SA", "Swansea"),
    ("SE", "South East London"),
    ("SG", "Stevenage"),
    ("SK", "Stockport"),
    ("SL", "Slough"),
    ("SM", "Sutton"),
    ("SN", "Swindon")
  ]

  const RegionsSOtoSY: seq<(string, string)> := [
    ("SO", "Southampton"),
    ("SP", "Salisbury"),
    ("SR", "Sunderland"),
    ("SS", "Southend-on-Sea"),
    ("ST", "Stoke-on-Trent"),
    ("SW", "South West London"),
    ("SY", "Shrewsbury")
  ]

  const RegionsTtoU: seq<(string, string)> := [
    ("TA", "Taunton"),
    ("TD", "Galashiels"),
    ("TF", "Telford"),
    ("TN", "Tunbridge Wells"),
    ("TQ", "Torquay"),
    ("TR", "Truro"),
    ("TS", "Cleveland"),
    ("TW", "Twickenham"),
    ("UB", "Southall")
  ]

  const RegionsWtoZ: seq<(string, string)> := [
    ("W", "West London"),
    ("WA", "Warrington"),
    ("WC", "Western Central London"),
    ("WD", "Watford"),
    ("WF", "Wakefield"),
    ("WN", "Wigan"),
    ("WR", "Worcester"),
    ("WS", "Walsall"),
    ("WV", "Wolverhampton"),
    ("YO", "York"),
    ("ZE", "Lerwick")
  ]

  /** A key is one or two capital letters. */
  predicate KeyShape(k: string)
  {
    1 <= |k| <= 2 && PostcodePattern.AllUpper(k)
  }

  /** Every entry has a well-shaped key and a non-empty name. */
  predicate EntriesWellShaped(t: seq<(string, string)>)
  {
    forall i :: 0 <= i < |t| ==> KeyShape(t[i].0) && t[i].1 != ""
  }

  /** Each key is smaller than the next one. */
  predicate StrictlySorted(t: seq<(string, string)>)
  {
    forall i :: 0 <= i < |t| - 1 ==> LexLess(t[i].0, t[i + 1].0)
  }

  /** No key appears twice, as in any JavaScript object. */
  predicate DistinctKeys(t: seq<(string, string)>)
  {
    forall i, j :: 0 <= i < j < |t| ==> t[i].0 != t[j].0
  }

  /** The keys of the table that are a single letter. */
  const SingleLetterKeys: set<string> := {"B", "E", "G", "L", "M", "N", "S", "W"}

  /** The letters no key begins with. */
  const UnusedInitials: set<char> := {'J', 'Q', 'V', 'X'}

  /** Everything this module states about one entry, as tests on single characters. */
  predicate EntryFacts(e: (string, string))
  {
    && 1 <= |e.0| <= 2 && IsUpper(e.0[0]) && (|e.0| == 2 ==> IsUpper(e.0[1]))
    && e.1 != []
    && (|e.0| == 1 ==> e.0[0] in "BEGLMNSW")
    && e.0[0] !in "JQVX"
    && (e.0[0] == 'Z' ==> e.0 == "ZE")
  }

  /** `EntryFacts` for the entries of `t` from index `i` on, one entry at a time. */
  predicate FactsFrom(t: seq<(string, string)>, i: nat)
    decreases |t| - i
  {
    i >= |t| || (EntryFacts(t[i]) && FactsFrom(t, i + 1))
  }

  /** The keys of `t` from index `i` on are increasing, one neighbour at a time. */
  predicate SortedFrom(t: seq<(string, string)>, i: nat)
    decreases |t| - i
  {
    i + 1 >= |t| || (LexLess(t[i].0, t[i + 1].0) && SortedFrom(t, i + 1))
  }

  predicate AllFacts(t: seq<(string, string)>)
  {
    forall i :: 0 <= i < |t| ==> EntryFacts(t[i])
  }

  lemma {:induction false} FactsFromAll(t: seq<(string, string)>, i: nat)
    requires FactsFrom(t, i)
    ensures forall k :: i <= k < |t| ==> EntryFacts(t[k])
    decreases |t| - i
  {
    if i < |t| {
      FactsFromAll(t, i + 1);
    }
  }

  lemma {:induction false} SortedFromAll(t: seq<(string, string)>, i: nat)
    requires SortedFrom(t, i)
    ensures forall k :: i <= k < |t| - 1 ==> LexLess(t[k].0, t[k + 1].0)
    decreases |t| - i
  {
    if i + 1 < |t| {
      SortedFromAll(t, i + 1);
    }
  }

  lemma AllFactsAppend(s: seq<(string, string)>, t: seq<(string, string)>)
    requires AllFacts(s) && AllFacts(t)
    ensures AllFacts(s + t)
  {
    assert forall i :: |s| <= i < |s + t| ==> (s + t)[i] == t[i - |s|];
  }

  lemma SortedAppend(s: seq<(string, string)>, t: seq<(string, string)>)
    requires StrictlySorted(s) && StrictlySorted(t)
    requires s != [] && t != [] && LexLess(s[|s| - 1].0, t[0].0)
    ensures StrictlySorted(s + t)
  {
    assert forall i :: |s| <= i < |s + t| ==> (s + t)[i] == t[i - |s|];
  }

  /** In a strictly sorted table every key is smaller than every later key. */
  lemma {:induction false} SortedPairwise(t: seq<(string, string)>, i: nat, j: nat)
    requires StrictlySorted(t) && i < j < |t|
    ensures LexLess(t[i].0, t[j].0)
    decreases j - i
  {
    if i + 1 < j {
      SortedPairwise(t, i, j - 1);
      LexLessTransitive(t[i].0, t[j - 1].0, t[j].0);
    }
  }

  /** A strictly sorted table has no repeated key. */
  lemma SortedDistinct(t: seq<(string, string)>)
    requires StrictlySorted(t)
    ensures DistinctKeys(t)
  {
    forall i, j | 0 <= i < j < |t|
      ensures t[i].0 != t[j].0
    {
      SortedPairwise(t, i, j);
      LexLessIrreflexive(t[i].0);
    }
  }

  lemma GroupFacts(t: seq<(string, string)>)
    requires FactsFrom(t, 0) && SortedFrom(t, 0) && t != []
    ensures AllFacts(t) && StrictlySorted(t)
  {
    FactsFromAll(t, 0);
    SortedFromAll(t, 0);
  }

  lemma RegionsAtoBFacts()
    ensures AllFacts(RegionsAtoB) && StrictlySorted(RegionsAtoB)
  {
    assert FactsFrom(RegionsAtoB, 0);
    assert SortedFrom(RegionsAtoB, 0);
    GroupFacts(RegionsAtoB);
  }

  lemma RegionsCFacts()
    ensures AllFacts(RegionsC) && StrictlySorted(RegionsC)
  {
    assert FactsFrom(RegionsC, 0);
    assert SortedFrom(RegionsC, 0);
    GroupFacts(RegionsC);
  }

  lemma RegionsDFacts()
    ensures AllFacts(RegionsD) && StrictlySorted(RegionsD)
  {
    assert FactsFrom(RegionsD, 0);
    assert SortedFrom(RegionsD, 0);
    GroupFacts(RegionsD);
  }

  lemma RegionsEtoGFacts()
    ensures AllFacts(RegionsEtoG) && StrictlySorted(RegionsEtoG)
  {
    assert FactsFrom(RegionsEtoG, 0);
    assert SortedFrom(RegionsEtoG, 0);
    GroupFacts(RegionsEtoG);
  }

  lemma RegionsHFacts()
    ensures AllFacts(RegionsH) && StrictlySorted(RegionsH)
  {
    assert FactsFrom(RegionsH, 0);
    assert SortedFrom(RegionsH, 0);
    GroupFacts(RegionsH);
  }

  lemma RegionsItoKFacts()
    ensures AllFacts(RegionsItoK) && StrictlySorted(RegionsItoK)
  {
    assert FactsFrom(RegionsItoK, 0);
    assert SortedFrom(RegionsItoK, 0);
    GroupFacts(RegionsItoK);
  }

  lemma RegionsLFacts()
    ensures AllFacts(RegionsL) && StrictlySorted(RegionsL)
  {
    assert FactsFrom(RegionsL, 0);
    assert SortedFrom(RegionsL, 0);
    GroupFacts(RegionsL);
  }

  lemma RegionsMtoNFacts()
    ensures AllFacts(RegionsMtoN) && StrictlySorted(RegionsMtoN)
  {
    assert FactsFrom(RegionsMtoN, 0);
    assert SortedFrom(RegionsMtoN, 0);
    GroupFacts(RegionsMtoN);
  }

  lemma RegionsOtoRFacts()
    ensures AllFacts(RegionsOtoR) && StrictlySorted(RegionsOtoR)
  {
    assert FactsFrom(RegionsOtoR, 0);
    assert SortedFrom(RegionsOtoR, 0);
    GroupFacts(RegionsOtoR);
  }

  lemma RegionsStoSNFacts()
    ensures AllFacts(RegionsStoSN) && StrictlySorted(RegionsStoSN)
  {
    assert FactsFrom(RegionsStoSN, 0);
    assert SortedFrom(RegionsStoSN, 0);
    GroupFacts(RegionsStoSN);
  }

  lemma RegionsSOtoSYFacts()
    ensures AllFacts(RegionsSOtoSY) && StrictlySorted(RegionsSOtoSY)
  {
    assert FactsFrom(RegionsSOtoSY, 0);
    assert SortedFrom(RegionsSOtoSY, 0);
    GroupFacts(RegionsSOtoSY);
  }

  lemma RegionsTtoUFacts()
    ensures AllFacts(RegionsTtoU) && StrictlySorted(RegionsTtoU)
  {
    assert FactsFrom(RegionsTtoU, 0);
    assert SortedFrom(RegionsTtoU, 0);
    GroupFacts(RegionsTtoU);
  }

  lemma RegionsWtoZFacts()
    ensures AllFacts(RegionsWtoZ) && StrictlySorted(RegionsWtoZ)
  {
    assert FactsFrom(RegionsWtoZ, 0);
    assert SortedFrom(RegionsWtoZ, 0);
    GroupFacts(RegionsWtoZ);
  }

  /** Every entry of the table satisfies `EntryFacts`, and the keys increase. */
  lemma RegionsFacts()
    ensures AllFacts(Regions) && StrictlySorted(Regions)
  {
    RegionsAtoBFacts();
    RegionsCFacts();
    RegionsDFacts();
    RegionsEtoGFacts();
    RegionsHFacts();
    RegionsItoKFacts();
    RegionsLFacts();
    RegionsMtoNFacts();
    RegionsOtoRFacts();
    RegionsStoSNFacts();
    RegionsSOtoSYFacts();
    RegionsTtoUFacts();
    RegionsWtoZFacts();
    AllFactsAppend(RegionsAtoB, RegionsC);
    SortedAppend(RegionsAtoB, RegionsC);
    AllFactsAppend(RegionsAtoB + RegionsC, RegionsD);
    SortedAppend(RegionsAtoB + RegionsC, RegionsD);
    AllFactsAppend(RegionsAtoB + RegionsC + RegionsD, RegionsEtoG);
    SortedAppend(RegionsAtoB + RegionsC + RegionsD, RegionsEtoG);
    AllFactsAppend(RegionsAtoB + RegionsC + RegionsD + RegionsEtoG, RegionsH);
    SortedAppend(RegionsAtoB + RegionsC + RegionsD + RegionsEtoG, RegionsH);
    AllFactsAppend(RegionsAtoB + RegionsC + RegionsD + RegionsEtoG + RegionsH, RegionsItoK);
    SortedAppend(RegionsAtoB + RegionsC + RegionsD + RegionsEtoG + RegionsH, RegionsItoK);
    AllFactsAppend(RegionsAtoB + RegionsC + RegionsD + RegionsEtoG + RegionsH + RegionsItoK, RegionsL);
    SortedAppend(RegionsAtoB + RegionsC + RegionsD + RegionsEtoG + RegionsH + RegionsItoK, RegionsL);
    AllFactsAppend(RegionsAtoB + RegionsC + RegionsD + RegionsEtoG + RegionsH + RegionsItoK + RegionsL, RegionsMtoN);
    SortedAppend(RegionsAtoB + RegionsC + RegionsD + RegionsEtoG + RegionsH + RegionsItoK + RegionsL, RegionsMtoN);
    AllFactsAppend(RegionsAtoB + RegionsC + RegionsD + RegionsEtoG + RegionsH + RegionsItoK + RegionsL + RegionsMtoN, RegionsOtoR);
    SortedAppend(RegionsAtoB + RegionsC + RegionsD + RegionsEtoG + RegionsH + RegionsItoK + RegionsL + RegionsMtoN, RegionsOtoR);
    AllFactsAppend(RegionsAtoB + RegionsC + RegionsD + RegionsEtoG + RegionsH + RegionsItoK + RegionsL + RegionsMtoN + RegionsOtoR, RegionsStoSN);
    SortedAppend(RegionsAtoB + RegionsC + RegionsD + RegionsEtoG + RegionsH + RegionsItoK + RegionsL + RegionsMtoN + RegionsOtoR, RegionsStoSN);
    AllFactsAppend(RegionsAtoB + RegionsC + RegionsD + RegionsEtoG + RegionsH + RegionsItoK + RegionsL + RegionsMtoN + RegionsOtoR + RegionsStoSN, RegionsSOtoSY);
    SortedAppend(RegionsAtoB + RegionsC + RegionsD + RegionsEtoG + RegionsH + RegionsItoK + RegionsL + RegionsMtoN + RegionsOtoR + RegionsStoSN, RegionsSOtoSY);
    AllFactsAppend(RegionsAtoB + RegionsC + RegionsD + RegionsEtoG + RegionsH + RegionsItoK + RegionsL + RegionsMtoN + RegionsOtoR + RegionsStoSN + RegionsSOtoSY, RegionsTtoU);
    SortedAppend(RegionsAtoB + RegionsC + RegionsD + RegionsEtoG + RegionsH + RegionsItoK + RegionsL + RegionsMtoN + RegionsOtoR + RegionsStoSN + RegionsSOtoSY, RegionsTtoU);
    AllFactsAppend(RegionsAtoB + RegionsC + RegionsD + RegionsEtoG + RegionsH + RegionsItoK + RegionsL + RegionsMtoN + RegionsOtoR + RegionsStoSN + RegionsSOtoSY + RegionsTtoU, RegionsWtoZ);
    SortedAppend(RegionsAtoB + RegionsC + RegionsD + RegionsEtoG + RegionsH + RegionsItoK + RegionsL + RegionsMtoN + RegionsOtoR + RegionsStoSN + RegionsSOtoSY + RegionsTtoU, RegionsWtoZ);
  }

  /** Every key is one or two capital letters and every region name is non-empty. */
  lemma RegionsWellShaped()
    ensures EntriesWellShaped(Regions)
  {
    RegionsFacts();
    WellShapedOf(Regions);
  }

  lemma WellShapedOf(t: seq<(string, string)>)
    requires AllFacts(t)
    ensures EntriesWellShaped(t)
  {
    forall i | 0 <= i < |t|
      ensures KeyShape(t[i].0) && t[i].1 != ""
    {
      assert EntryFacts(t[i]);
    }
  }

  /** The keys are listed in increasing order, so none is repeated. */
  lemma RegionsDistinct()
    ensures StrictlySorted(Regions) && DistinctKeys(Regions)
  {
    RegionsFacts();
    SortedDistinct(Regions);
  }

  /** The single-letter keys are exactly B, E, G, L, M, N, S and W. */
  lemma SingleLetterKeysExact()
    ensures forall i :: 0 <= i < |Regions| ==> (|Regions[i].0| == 1 <==> Regions[i].0 in SingleLetterKeys)
    ensures forall k :: k in SingleLetterKeys ==> exists i :: 0 <= i < |Regions| && Regions[i].0 == k
  {
    SingleLetterKeysOnly();
    SingleLetterEntries();
  }

  /** A one-letter key is one of the eight, and each of the eight is one letter long. */
  lemma SingleLetterKeysOnly()
    ensures forall i :: 0 <= i < |Regions| ==> (|Regions[i].0| == 1 <==> Regions[i].0 in SingleLetterKeys)
  {
    RegionsFacts();
    SingleLetterKeysOf(Regions);
  }

  lemma SingleLetterKeysOf(t: seq<(string, string)>)
    requires AllFacts(t)
    ensures forall i :: 0 <= i < |t| ==> (|t[i].0| == 1 <==> t[i].0 in SingleLetterKeys)
  {
    forall i | 0 <= i < |t|
      ensures |t[i].0| == 1 <==> t[i].0 in SingleLetterKeys
    {
      var k := t[i].0;
      assert EntryFacts(t[i]);
      if |k| == 1 {
        assert k == [k[0]];
      }
    }
  }

  /** Where the eight one-letter keys sit in the table. */
  lemma SingleLetterEntries()
    ensures Regions[2].0 == "B" && Regions[31].0 == "E" && Regions[38].0 == "G" && Regions[56].0 == "L"
    ensures Regions[64].0 == "M" && Regions[68].0 == "N" && Regions[86].0 == "S" && Regions[110].0 == "W"
  {
    var upToG := RegionsAtoB + RegionsC + RegionsD + RegionsEtoG;
    assert |RegionsAtoB + RegionsC + RegionsD| == 31 && |upToG| == 41;
    assert upToG[2].0 == "B" && upToG[31].0 == "E" && upToG[38].0 == "G";
    var upToN := upToG + RegionsH + RegionsItoK + RegionsL + RegionsMtoN;
    assert |upToG + RegionsH + RegionsItoK| == 56 && |upToN| == 75;
    assert upToN[56].0 == "L" && upToN[64].0 == "M" && upToN[68].0 == "N";
    var upToSN := upToN + RegionsOtoR + RegionsStoSN;
    assert |upToN + RegionsOtoR| == 86;
    assert upToSN[86].0 == "S";
    var upToU := upToSN + RegionsSOtoSY + RegionsTtoU;
    assert |upToU| == 110;
    assert (upToU + RegionsWtoZ)[110].0 == "W";
  }

  /** No key begins with J, Q, V or X. */
  lemma NoKeyWithUnusedInitial()
    ensures forall i :: 0 <= i < |Regions| ==> Regions[i].0 != [] && Regions[i].0[0] !in UnusedInitials
  {
    RegionsFacts();
    InitialsOf(Regions);
  }

  lemma InitialsOf(t: seq<(string, string)>)
    requires AllFacts(t)
    ensures forall i :: 0 <= i < |t| ==> t[i].0 != [] && t[i].0[0] !in UnusedInitials
    ensures forall i :: 0 <= i < |t| && t[i].0 != [] && t[i].0[0] == 'Z' ==> t[i].0 == "ZE"
  {
    forall i | 0 <= i < |t|
      ensures t[i].0 != [] && t[i].0[0] !in UnusedInitials
      ensures t[i].0[0] == 'Z' ==> t[i].0 == "ZE"
    {
      assert EntryFacts(t[i]);
    }
  }

  /** The entries of E and EC, found without unfolding the whole table. */
  lemma EastEntries()
    ensures Regions[31] == ("E", "East London")
    ensures Regions[32] == ("EC", "East Central London")
  {
    var pre := RegionsAtoB + RegionsC + RegionsD;
    assert |pre| == 31;
    assert (pre + RegionsEtoG)[31] == ("E", "East London");
    assert (pre + RegionsEtoG)[32] == ("EC", "East Central London");
  }

  /** "ZE" is the only key beginning with Z. */
  lemma OnlyZE()
    ensures forall i :: 0 <= i < |Regions| && Regions[i].0 != [] && Regions[i].0[0] == 'Z' ==> Regions[i].0 == "ZE"
    ensures Regions[120] == ("ZE", "Lerwick")
  {
    RegionsFacts();
    InitialsOf(Regions);
    var upToU := RegionsAtoB + RegionsC + RegionsD + RegionsEtoG + RegionsH + RegionsItoK + RegionsL + RegionsMtoN + RegionsOtoR + RegionsStoSN + RegionsSOtoSY + RegionsTtoU;
    assert |upToU| == 110;
    assert (upToU + RegionsWtoZ)[120] == ("ZE", "Lerwick");
  }
}

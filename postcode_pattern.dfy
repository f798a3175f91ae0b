/**
 * The postcode pattern both search boxes use,
 *   ^([A-Z]{1,2})([0-9]?[A-Z]?[0-9 ]{0,3}[A-Z]{0,2})$
 * written out as predicates instead of a regular-expression engine.
 *
 * The declarative reading says a string matches when it can be cut into the
 * pattern's pieces; the executable reading consumes each piece greedily, as a
 * backtracking engine's first successful attempt does, and the two are proved
 * to agree. `Capture` gives capture group 1 with the engine's preference for
 * two letters over one.
 */
module PostcodePattern {
  import opened Common
  import opened Strings

  predicate IsDigitOrSpace(c: char) { IsDigit(c) || c == ' ' }

  predicate AllUpper(s: string) { forall i :: 0 <= i < |s| ==> IsUpper(s[i]) }
  predicate AllDigits(s: string) { forall i :: 0 <= i < |s| ==> IsDigit(s[i]) }
  predicate AllDigitOrSpace(s: string) { forall i :: 0 <= i < |s| ==> IsDigitOrSpace(s[i]) }

  /** `t` cut at a <= b <= c into `[0-9]?`, `[A-Z]?`, `[0-9 ]{0,3}` and `[A-Z]{0,2}`. */
  ghost predicate TailCut(t: string, a: int, b: int, c: int)
  {
    && 0 <= a <= b <= c <= |t|
    && a <= 1 && AllDigits(t[..a])
    && b - a <= 1 && AllUpper(t[a..b])
    && c - b <= 3 && AllDigitOrSpace(t[b..c])
    && |t| - c <= 2 && AllUpper(t[c..])
  }

  /** `t` matches `[0-9]?[A-Z]?[0-9 ]{0,3}[A-Z]{0,2}` in full. */
  ghost predicate TailMatches(t: string)
  {
    exists a, b, c :: TailCut(t, a, b, c)
  }

  /** Length of the longest run of digits and spaces at the start of `t`, capped at `limit`. */
  function DigitSpaceRun(t: string, limit: nat): (n: nat)
    ensures n <= limit && n <= |t|
    ensures AllDigitOrSpace(t[..n])
    ensures n < limit && n < |t| ==> !IsDigitOrSpace(t[n])
  {
    if limit == 0 || t == [] || !IsDigitOrSpace(t[0]) then 0
    else
      var n := 1 + DigitSpaceRun(t[1..], limit - 1);
      assert forall i :: 1 <= i < n ==> t[..n][i] == t[1..][..n - 1][i - 1];
      n
  }

  /** The cut points a greedy left-to-right reading of the tail picks. */
  function GreedyCut(t: string): (cut: (nat, nat, nat))
    ensures cut.0 <= cut.1 <= cut.2 <= |t|
  {
    var a := if t != [] && IsDigit(t[0]) then 1 else 0;
    var b := if a < |t| && IsUpper(t[a]) then a + 1 else a;
    (a, b, b + DigitSpaceRun(t[b..], 3))
  }

  /** The executable recogniser of the tail of the pattern. */
  predicate TailAccepts(t: string)
  {
    var cut := GreedyCut(t);
    |t| - cut.2 <= 2 && AllUpper(t[cut.2..])
  }

  /** The greedy recogniser accepts exactly the strings the pattern's tail matches. */
  lemma TailAcceptsIff(t: string)
    ensures TailAccepts(t) <==> TailMatches(t)
  {
    var cut := GreedyCut(t);
    if TailAccepts(t) {
      assert t[cut.1..][..cut.2 - cut.1] == t[cut.1..cut.2];
      assert TailCut(t, cut.0, cut.1, cut.2);
    }
    if TailMatches(t) {
      var a, b, c :| TailCut(t, a, b, c);
      TailGreedyComplete(t, a, b, c);
    }
  }

  lemma TailGreedyComplete(t: string, a: int, b: int, c: int)
    requires TailCut(t, a, b, c)
    ensures TailAccepts(t)
  {
    var a1, b1 := TakeDigit(t, a, b, c);
    var b2, c2 := TakeLetter(t, a1, b1, c);
    LongestRun(t, a1, b2, c2);
  }

  /** A leading digit can always be read as the optional digit. */
  lemma TakeDigit(t: string, a: int, b: int, c: int) returns (a': int, b': int)
    requires TailCut(t, a, b, c)
    ensures TailCut(t, a', b', c) && a' == GreedyCut(t).0
  {
    a', b' := a, b;
    if a == 0 && GreedyCut(t).0 == 1 {
      // the digit is not a letter, so it starts the run of digits and spaces
      assert t[..c] == [t[0]] + t[1..c];
      a', b' := 1, 1;
    }
  }

  /** A letter after the optional digit can always be read as the optional letter. */
  lemma TakeLetter(t: string, a: int, b: int, c: int) returns (b': int, c': int)
    requires TailCut(t, a, b, c) && a == GreedyCut(t).0
    ensures TailCut(t, a, b', c') && b' == GreedyCut(t).1
  {
    b', c' := b, c;
    if b == a && GreedyCut(t).1 == a + 1 {
      // the letter is not a digit, so the run is empty and it starts the trailing letters
      assert t[c..] == [t[a]] + t[a + 1..];
      b', c' := a + 1, a + 1;
    }
  }

  /** After the optional letter, only the longest run of digits and spaces can work. */
  lemma LongestRun(t: string, a: int, b: int, c: int)
    requires TailCut(t, a, b, c) && a == GreedyCut(t).0 && b == GreedyCut(t).1
    ensures c == GreedyCut(t).2
  {
    var u, m := t[b..], c - b;
    assert u[..m] == t[b..c];
    RunAtLeast(u, 3, m);
    assert u[m..] == t[c..];
    RunAtMost(u, 3, m);
  }

  /** A run of digits and spaces within the cap is no longer than the one `DigitSpaceRun` finds. */
  lemma {:induction false} RunAtLeast(u: string, limit: nat, m: nat)
    requires m <= limit && m <= |u| && AllDigitOrSpace(u[..m])
    ensures m <= DigitSpaceRun(u, limit)
  {
    if m > 0 {
      assert u[..m][0] == u[0];
      assert u[1..][..m - 1] == u[..m][1..];
      RunAtLeast(u[1..], limit - 1, m - 1);
    }
  }

  /** `DigitSpaceRun` stops at the first character that is neither digit nor space. */
  lemma {:induction false} RunAtMost(u: string, limit: nat, m: nat)
    requires m <= |u| && (m < |u| ==> IsUpper(u[m..][0]))
    ensures DigitSpaceRun(u, limit) <= m
  {
    if m > 0 && limit > 0 && IsDigitOrSpace(u[0]) {
      assert u[1..][m - 1..] == u[m..];
      RunAtMost(u[1..], limit - 1, m - 1);
    }
  }

  /** The whole pattern, declaratively: one or two capitals, then a matching tail. */
  ghost predicate PatternMatches(s: string)
  {
    exists p :: 1 <= p <= 2 && p <= |s| && AllUpper(s[..p]) && TailMatches(s[p..])
  }

  lemma PatternMatchesIff(s: string)
    ensures PatternMatches(s) <==> CaptureFits(s, 2) || CaptureFits(s, 1)
  {
    if |s| >= 2 { TailAcceptsIff(s[2..]); }
    if |s| >= 1 { TailAcceptsIff(s[1..]); }
  }

  /** Whether the first `p` characters can be capture group 1. */
  predicate CaptureFits(s: string, p: nat)
  {
    p <= |s| && AllUpper(s[..p]) && TailAccepts(s[p..])
  }

  /**
   * `re.exec(s)[1]`, or None when `re.exec(s)` is null. The engine tries the
   * two-letter group first and falls back to one letter.
   */
  function Capture(s: string): (m: Option<string>)
    ensures m.Some? <==> PatternMatches(s)
    ensures m.Some? ==> 1 <= |m.value| <= 2 && m.value <= s && AllUpper(m.value)
  {
    PatternMatchesIff(s);
    if CaptureFits(s, 2) then Some(s[..2])
    else if CaptureFits(s, 1) then Some(s[..1])
    else None
  }

  /** The empty string never matches. */
  lemma EmptyDoesNotMatch()
    ensures Capture("") == None
  {
  }

  /**
   * If the pattern matches with one letter and the next character is a letter
   * too, it also matches with two: greedy `[A-Z]{1,2}` never stops at one
   * letter when a second one follows.
   */
  lemma OneLetterExtends(s: string)
    requires CaptureFits(s, 1) && |s| >= 2 && IsUpper(s[1])
    ensures CaptureFits(s, 2)
  {
    var t, u := s[1..], s[2..];
    assert t[1..] == u;
    var n := DigitSpaceRun(u, 3);
    assert GreedyCut(t) == (0, 1, 1 + n);
    assert t[1 + n..] == u[n..];
    assert TailCut(u, 0, 0, n);
    TailAcceptsIff(u);
  }

  /**
   * When the pattern matches, capture group 1 is the first two characters if
   * both are letters and the first character otherwise.
   */
  lemma CaptureIsLeadingLetters(s: string)
    requires Capture(s).Some?
    ensures |s| >= 2 && IsUpper(s[1]) ==> Capture(s).value == s[..2]
    ensures !(|s| >= 2 && IsUpper(s[1])) ==> Capture(s).value == s[..1]
  {
    if |s| >= 2 && IsUpper(s[1]) && !CaptureFits(s, 2) {
      OneLetterExtends(s);
    }
  }

  /** A second character that is not a capital rules out a two-letter capture. */
  lemma NotTwoLetters(s: string)
    requires |s| >= 2 && !IsUpper(s[1])
    ensures !CaptureFits(s, 2)
  {
    assert s[..2][1] == s[1];
  }

  /** The tail "1 6AN": the digit "1", no letter, the run " 6", then the letters "AN". */
  lemma TailOfE()
    ensures TailAccepts("1 6AN")
  {
    var t := "1 6AN";
    assert t[..1] == "1" && t[1..1] == [] && t[1..3] == " 6" && t[3..] == "AN";
    assert TailCut(t, 1, 1, 3);
    TailAcceptsIff(t);
  }

  /** "E1 6AN": the second character is a digit, so the capture is "E". */
  lemma CaptureExampleE()
    ensures Capture("E1 6AN") == Some("E")
  {
    var s := "E1 6AN";
    NotTwoLetters(s);
    TailOfE();
    assert s[1..] == "1 6AN";
    assert s[..1] == "E";
    assert CaptureFits(s, 1);
  }

  /** "EC1A": two letters, then a digit and a letter; the capture is "EC". */
  lemma CaptureExampleEC()
    ensures Capture("EC1A") == Some("EC")
  {
    var s := "EC1A";
    assert DigitSpaceRun("", 3) == 0;
    assert GreedyCut("1A") == (1, 2, 2);
    assert s[2..] == "1A";
    assert CaptureFits(s, 2);
    assert s[..2] == "EC";
  }

  /** "Z1": the capture is "Z". */
  lemma CaptureExampleZ()
    ensures Capture("Z1") == Some("Z")
  {
    var s := "Z1";
    assert !CaptureFits(s, 2) by { assert !IsUpper(s[..2][1]); }
    assert DigitSpaceRun("", 3) == 0;
    assert GreedyCut("1") == (1, 1, 1);
    assert s[1..] == "1";
    assert CaptureFits(s, 1);
    assert s[..1] == "Z";
  }

  /** A lower-case letter or a leading digit makes the pattern fail. */
  lemma CaptureRejects()
    ensures Capture("e1") == None
    ensures Capture("1E") == None
  {
    assert !IsUpper("e1"[..1][0]);
    assert !IsUpper("1E"[..1][0]);
  }
}

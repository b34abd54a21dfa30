/** The GSTIN rules of business_rules.py: a check character over 36 letters, doubled at every second place. */
module Gstin {
  import opened Text

  predicate IsDigit(c: char) { '0' <= c <= '9' }

  predicate IsLetter(c: char) { 'A' <= c <= 'Z' }

  predicate InAlphabet(c: char) { IsDigit(c) || IsLetter(c) }

  predicate Alphabetic(s: string) {
    forall i | 0 <= i < |s| :: InAlphabet(s[i])
  }

  /** GST_CHARS.index(c) */
  function Index(c: char): (v: nat)
    requires InAlphabet(c)
    ensures v < 36 && Letter(v) == c
  {
    if IsDigit(c) then c as int - '0' as int else c as int - 'A' as int + 10
  }

  /** GST_CHARS[v] */
  function Letter(v: nat): (c: char)
    requires v < 36
    ensures InAlphabet(c) && (IsDigit(c) <==> v < 10)
  {
    if v < 10 then '0' + v as char else 'A' + (v - 10) as char
  }

  lemma LetterInjective(v: nat, w: nat)
    requires v < 36 && w < 36
    ensures Letter(v) == Letter(w) <==> v == w
    ensures Index(Letter(v)) == v
  {
  }

  /** One place of the sum: the value times its weight, quotient and remainder by 36 added. */
  function Place(v: nat, place: nat): nat {
    var p := v * (if place % 2 == 1 then 2 else 1);
    p / 36 + p % 36
  }

  function Total(s: string): nat
    requires Alphabetic(s)
  {
    if s == "" then 0
    else
      var n := |s| - 1;
      Total(s[..n]) + Place(Index(s[n]), n)
  }

  function CheckChar(s: string): char
    requires Alphabetic(s)
  {
    Letter((36 - Total(s) % 36) % 36)
  }

  /** business_rules.gstin_check_char */
  method GstinCheckChar(s: string) returns (c: char)
    requires Alphabetic(s)
    ensures c == CheckChar(s)
  {
    var total := 0;
    for i := 0 to |s|
      invariant total == Total(s[..i])
    {
      var p := Index(s[i]) * (if i % 2 == 1 then 2 else 1);
      total := total + (p / 36 + p % 36);
      assert s[..i + 1][..i] == s[..i];
    }
    assert s[..|s|] == s;
    return Letter((36 - total % 36) % 36);
  }

  // ---- the places mod 36 ----

  /** Doubling is still one-to-one: each weight permutes 0..35. */
  lemma PlaceInjective(v: nat, w: nat, place: nat)
    requires v < 36 && w < 36
    ensures Place(v, place) < 36
    ensures Place(v, place) == Place(w, place) <==> v == w
  {
    PlaceValue(v, place);
    PlaceValue(w, place);
  }

  lemma PlaceValue(v: nat, place: nat)
    requires v < 36
    ensures Place(v, place) == if place % 2 == 0 then v else if v < 18 then 2 * v else 2 * v - 35
  {
  }

  /** Moving a pair across one place changes the sum unless the two values are equal or are 0 and 35. */
  lemma SwapChangesSum(v: nat, w: nat, place: nat)
    requires v < 36 && w < 36
    ensures (Place(v, place) + Place(w, place + 1)) % 36 == (Place(w, place) + Place(v, place + 1)) % 36
            <==> v == w || (v == 0 && w == 35) || (v == 35 && w == 0)
  {
    var a, b := Place(v, place) + Place(w, place + 1), Place(w, place) + Place(v, place + 1);
    SwapDifference(v, w, place);
    DifferenceMod(a, b);
    SmallMod(a - b);
  }

  /** Doubling adds Gain(v) to v, mod 36; the two sums differ by the difference of the gains. */
  lemma SwapDifference(v: nat, w: nat, place: nat)
    requires v < 36 && w < 36
    ensures Place(v, place) + Place(w, place + 1) - (Place(w, place) + Place(v, place + 1))
         == if place % 2 == 0 then Gain(w) - Gain(v) else Gain(v) - Gain(w)
  {
    PlaceValue(v, place);
    PlaceValue(w, place);
    PlaceValue(v, place + 1);
    PlaceValue(w, place + 1);
  }

  function Gain(v: int): int { if v < 18 then v else v - 35 }

  lemma SmallMod(d: int)
    requires -36 < d < 36
    ensures d % 36 == 0 <==> d == 0
  {
  }

  lemma DifferenceMod(x: int, y: int)
    ensures x % 36 == y % 36 <==> (x - y) % 36 == 0
  {
  }

  lemma SameComplement(a: nat, b: nat)
    requires a < 36 && b < 36
    ensures (36 - a) % 36 == (36 - b) % 36 <==> a == b
  {
    assert (36 - a) % 36 == if a == 0 then 0 else 36 - a;
    assert (36 - b) % 36 == if b == 0 then 0 else 36 - b;
  }

  lemma SameCheckChar(s: string, t: string)
    requires Alphabetic(s) && Alphabetic(t)
    ensures CheckChar(s) == CheckChar(t) <==> (Total(s) - Total(t)) % 36 == 0
  {
    var a, b := Total(s) % 36, Total(t) % 36;
    SameComplement(a, b);
    LetterInjective((36 - a) % 36, (36 - b) % 36);
    DifferenceMod(Total(s), Total(t));
  }

  /** What the rest of the string adds does not depend on what comes before it. */
  lemma {:induction false} TotalFrom(s: string, t: string, k: nat)
    requires Alphabetic(s) && Alphabetic(t) && |s| == |t| && k <= |s|
    requires forall i | k <= i < |s| :: s[i] == t[i]
    ensures Total(s) - Total(s[..k]) == Total(t) - Total(t[..k])
    decreases |s|
  {
    if k == |s| {
      assert s[..k] == s && t[..k] == t;
    } else {
      var n := |s| - 1;
      TotalFrom(s[..n], t[..n], k);
      assert s[..n][..k] == s[..k] && t[..n][..k] == t[..k];
    }
  }

  lemma LastPlace(s: string, k: nat)
    requires Alphabetic(s) && k < |s|
    ensures Total(s[..k + 1]) == Total(s[..k]) + Place(Index(s[k]), k)
  {
    assert s[..k + 1][..k] == s[..k];
  }

  /** Changing one character moves the total by the difference of its two values at that place. */
  lemma OneChangeMovesTotal(s: string, k: nat, c: char)
    requires Alphabetic(s) && k < |s| && InAlphabet(c)
    ensures Alphabetic(s[k := c])
    ensures Total(s) - Total(s[k := c]) == Place(Index(s[k]), k) - Place(Index(c), k)
  {
    var t := s[k := c];
    TotalFrom(s, t, k + 1);
    LastPlace(s, k);
    LastPlace(t, k);
    assert s[..k] == t[..k];
  }

  /** Changing one character always changes the check character. */
  lemma OneChangeDetected(s: string, k: nat, c: char)
    requires Alphabetic(s) && k < |s| && InAlphabet(c) && c != s[k]
    ensures Alphabetic(s[k := c]) && CheckChar(s[k := c]) != CheckChar(s)
  {
    OneChangeMovesTotal(s, k, c);
    PlaceInjective(Index(s[k]), Index(c), k);
    PlaceInjective(Index(c), Index(s[k]), k);
    SmallMod(Place(Index(s[k]), k) - Place(Index(c), k));
    SameCheckChar(s, s[k := c]);
  }

  function Swapped(s: string, k: nat): string
    requires k + 1 < |s|
  {
    s[k := s[k + 1]][k + 1 := s[k]]
  }

  lemma SwapMovesTotal(s: string, k: nat)
    requires Alphabetic(s) && k + 1 < |s|
    ensures Alphabetic(Swapped(s, k))
    ensures var v, w := Index(s[k]), Index(s[k + 1]);
            Total(s) - Total(Swapped(s, k)) == (Place(v, k) + Place(w, k + 1)) - (Place(w, k) + Place(v, k + 1))
  {
    OneChangeMovesTotal(s, k, s[k + 1]);
    OneChangeMovesTotal(s[k := s[k + 1]], k + 1, s[k]);
  }

  predicate Is0AndZ(c: char, d: char) {
    (c == '0' && d == 'Z') || (c == 'Z' && d == '0')
  }

  /** Swapping two different neighbours changes the check character exactly when they are not 0 and Z. */
  lemma SwapDetectedExactly(s: string, k: nat)
    requires Alphabetic(s) && k + 1 < |s| && s[k] != s[k + 1]
    ensures Alphabetic(Swapped(s, k))
    ensures CheckChar(Swapped(s, k)) != CheckChar(s) <==> !Is0AndZ(s[k], s[k + 1])
  {
    var t := Swapped(s, k);
    SwapMovesTotal(s, k);
    var v, w := Index(s[k]), Index(s[k + 1]);
    SwapChangesSum(v, w, k);
    DifferenceMod(Place(v, k) + Place(w, k + 1), Place(w, k) + Place(v, k + 1));
    SameCheckChar(s, t);
    LetterInjective(v, w);
    ZeroAndZ(s[k], s[k + 1]);
  }

  lemma ZeroAndZ(c: char, d: char)
    requires InAlphabet(c) && InAlphabet(d)
    ensures Is0AndZ(c, d) <==> (Index(c) == 0 && Index(d) == 35) || (Index(c) == 35 && Index(d) == 0)
  {
  }

  // ---- accepting a GSTIN ----

  /** The pattern: state digits, the ten of a PAN, an entity letter or digit other than 0, Z, the check character. */
  predicate Patterned(g: string) {
    && |g| == 15
    && IsDigit(g[0]) && IsDigit(g[1])
    && IsLetter(g[2]) && IsLetter(g[3]) && IsLetter(g[4]) && IsLetter(g[5]) && IsLetter(g[6])
    && IsDigit(g[7]) && IsDigit(g[8]) && IsDigit(g[9]) && IsDigit(g[10])
    && IsLetter(g[11]) && (IsLetter(g[12]) || '1' <= g[12] <= '9') && g[13] == 'Z' && InAlphabet(g[14])
  }

  /** business_rules.clean_gstin on trimmed upper-case text: empty means none given, a bad one is refused. */
  function CleanGstin(g: string, states: set<string>): Option<Option<string>>
  {
    if g == "" then Some(None)
    else if !Patterned(g) || g[..2] !in states then None
    else if CheckChar(g[..14]) != g[14] then None
    else Some(Some(g))
  }

  /** Every one-letter mistake in an accepted GSTIN is refused. */
  lemma OneMistakeRefused(g: string, states: set<string>, k: nat, c: char)
    requires g != "" && CleanGstin(g, states).Some? && k < |g| && c != g[k]
    ensures CleanGstin(g[k := c], states).None?
  {
    var h := g[k := c];
    if Patterned(h) && k < 14 {
      assert h[..14] == g[..14][k := c];
      OneChangeDetected(g[..14], k, c);
    } else if k == 14 {
      assert h[..14] == g[..14];
    }
  }

  /** So is every swap of two different neighbours: the one pair the sum misses, 0 and Z, never fits the pattern. */
  lemma SwapRefused(g: string, states: set<string>, k: nat)
    requires g != "" && CleanGstin(g, states).Some? && k + 1 < |g| && g[k] != g[k + 1]
    ensures CleanGstin(Swapped(g, k), states).None?
  {
    var h := Swapped(g, k);
    if Patterned(h) && k < 13 {
      assert h[..14] == Swapped(g[..14], k);
      ZeroZNeverSwaps(g, k);
      SwapDetectedExactly(g[..14], k);
    }
  }

  lemma ZeroZNeverSwaps(g: string, k: nat)
    requires Patterned(g) && k < 13 && Patterned(Swapped(g, k))
    ensures !Is0AndZ(g[k], g[k + 1])
  {
  }

  /** The total and the check character's number make up a multiple of 36, and no other character does. */
  lemma CheckMakesUp(s: string, c: char)
    requires Alphabetic(s) && InAlphabet(c)
    ensures c == CheckChar(s) <==> (Total(s) + Index(c)) % 36 == 0
  {
    var t, v := Total(s), Index(c);
    LetterInjective(v, (36 - t % 36) % 36);
    MakesUp(t, v);
  }

  lemma MakesUp(t: nat, v: nat)
    requires v < 36
    ensures v == (36 - t % 36) % 36 <==> (t + v) % 36 == 0
  {
    var m := t % 36;
    assert t == 36 * (t / 36) + m;
    assert (t + v) % 36 == (m + v) % 36;
  }

  lemma OneMore(s: string, k: nat, v: nat, was: nat)
    requires Alphabetic(s) && k < |s| && Index(s[k]) == v && Total(s[..k]) == was
    ensures Total(s[..k + 1]) == was + Place(v, k)
  {
    LastPlace(s, k);
  }

  lemma KnownValues(s: string)
    requires s == "27AAPFU0939F1Z"
    ensures Alphabetic(s)
    ensures Index(s[0]) == 2 && Index(s[1]) == 7 && Index(s[2]) == 10 && Index(s[3]) == 10
    ensures Index(s[4]) == 25 && Index(s[5]) == 15 && Index(s[6]) == 30 && Index(s[7]) == 0
    ensures Index(s[8]) == 9 && Index(s[9]) == 3 && Index(s[10]) == 9 && Index(s[11]) == 15
    ensures Index(s[12]) == 1 && Index(s[13]) == 35
  {
  }

  lemma KnownTo4(s: string)
    requires Alphabetic(s) && |s| == 14 && Total(s[..0]) == 0
    requires Index(s[0]) == 2 && Index(s[1]) == 7 && Index(s[2]) == 10 && Index(s[3]) == 10
    ensures Total(s[..4]) == 46
  {
    OneMore(s, 0, 2, 0);
    OneMore(s, 1, 7, 2);
    OneMore(s, 2, 10, 16);
    OneMore(s, 3, 10, 26);
  }

  lemma KnownTo8(s: string)
    requires Alphabetic(s) && |s| == 14 && Total(s[..4]) == 46
    requires Index(s[4]) == 25 && Index(s[5]) == 15 && Index(s[6]) == 30 && Index(s[7]) == 0
    ensures Total(s[..8]) == 131
  {
    OneMore(s, 4, 25, 46);
    OneMore(s, 5, 15, 71);
    OneMore(s, 6, 30, 101);
    OneMore(s, 7, 0, 131);
  }

  lemma KnownTo11(s: string)
    requires Alphabetic(s) && |s| == 14 && Total(s[..8]) == 131
    requires Index(s[8]) == 9 && Index(s[9]) == 3 && Index(s[10]) == 9
    ensures Total(s[..11]) == 155
  {
    OneMore(s, 8, 9, 131);
    OneMore(s, 9, 3, 140);
    OneMore(s, 10, 9, 146);
  }

  lemma KnownTo14(s: string)
    requires Alphabetic(s) && |s| == 14 && Total(s[..11]) == 155
    requires Index(s[11]) == 15 && Index(s[12]) == 1 && Index(s[13]) == 35
    ensures Total(s[..14]) == 221
  {
    OneMore(s, 11, 15, 155);
    OneMore(s, 12, 1, 185);
    OneMore(s, 13, 35, 186);
  }

  /** A GSTIN in use: its total is 221, which V makes up to 252. */
  lemma KnownAccepted(g: string)
    requires g == "27AAPFU0939F1ZV"
    ensures CleanGstin(g, {"27"}) == Some(Some(g))
  {
    var s := g[..14];
    KnownValues(s);
    assert s[..0] == "";
    KnownTo4(s);
    KnownTo8(s);
    KnownTo11(s);
    KnownTo14(s);
    assert s[..14] == s;
    CheckMakesUp(s, 'V');
    assert g[..2] == "27";
  }
}

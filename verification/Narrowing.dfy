/**
 * When the search box loses rows: for each way a word can fail to narrow, a row that checking would keep and SQL never
 * returns. With what narrowing keeps this gives the exact conditions.
 */
module Narrowing {
  import opened Text
  import opened OneTypo
  import opened Search
  import opened SmartList

  // ---- what the joined fields hold ----

  lemma {:induction false} ValueInHay(fields: seq<string>, v: string)
    requires v in fields && v != ""
    ensures Contains(Hay(fields), v)
  {
    var hay, rest := Hay(fields), Hay(fields[1..]);
    if fields[0] == "" {
      ValueInHay(fields[1..], v);
    } else {
      assert Present(fields)[1..] == Present(fields[1..]);
      if v == fields[0] {
        assert OccursAt(hay, v, 0);
      } else {
        ValueInHay(fields[1..], v);
        assert hay == (fields[0] + " ") + rest;
        assert hay[|fields[0]| + 1..] == rest;
        ContainsFrom(hay, v, |fields[0]| + 1);
      }
    }
  }

  lemma JoinedSlices(a: string, b: string, n: nat)
    requires n <= |a|
    ensures var s := a + " " + b; s[..n] == a[..n] && s[n..] == a[n..] + " " + b && s[|a|] == ' '
    ensures forall i | 0 <= i < |a| :: (a + " " + b)[i] == a[i]
  {
  }

  lemma CutsAtSpace(a: string, b: string, p: char -> bool)
    requires !p(' ') && a != "" && p(a[0])
    ensures PrefixLength(a + " " + b, p) == PrefixLength(a, p) > 0
  {
    var s := a + " " + b;
    var m := PrefixLength(a, p);
    JoinedSlices(a, b, m);
    PrefixUpTo(s, p, m);
  }

  /** Texts joined by a space are cut into their own words. */
  lemma {:induction false} RunsApart(a: string, b: string, p: char -> bool)
    requires !p(' ')
    ensures Runs(a + " " + b, p) == Runs(a, p) + Runs(b, p)
    decreases |a|
  {
    var s := a + " " + b;
    if a == "" {
      assert s[1..] == b;
    } else if !p(a[0]) {
      assert s[1..] == a[1..] + " " + b;
      RunsApart(a[1..], b, p);
    } else {
      CutsAtSpace(a, b, p);
      JoinedSlices(a, b, PrefixLength(a, p));
      RunsApart(a[PrefixLength(a, p)..], b, p);
    }
  }

  lemma {:induction false} RunInHay(fields: seq<string>, v: string, x: string, p: char -> bool)
    requires v in fields && x in Runs(v, p) && !p(' ')
    ensures x in Runs(Hay(fields), p)
  {
    if fields[0] == "" {
      RunInHay(fields[1..], v, x, p);
    } else {
      assert Present(fields)[1..] == Present(fields[1..]);
      if Present(fields[1..]) == [] {
        if v != fields[0] { RunInHay(fields[1..], v, x, p); }
      } else {
        RunsApart(fields[0], Hay(fields[1..]), p);
        if v != fields[0] { RunInHay(fields[1..], v, x, p); }
      }
    }
  }

  /** A text of word characters after a space is one word. */
  lemma OneRun(x: string, p: char -> bool)
    requires x != "" && !p(' ') && forall c | c in x :: p(c)
    ensures x in Runs([' '] + x, p)
  {
    assert ([' '] + x)[1..] == x;
    assert PrefixLength(x, p) == |x|;
    assert x[..|x|] == x;
  }

  // ---- digits ----

  lemma {:induction false} FilterConcat(a: string, b: string, p: char -> bool)
    ensures Filter(a + b, p) == Filter(a, p) + Filter(b, p)
  {
    if a == "" {
      assert a + b == b;
    } else {
      var head := if p(a[0]) then [a[0]] else "";
      assert (a + b)[0] == a[0] && (a + b)[1..] == a[1..] + b;
      FilterConcat(a[1..], b, p);
      Regrouped(head, Filter(a[1..], p), Filter(b, p));
    }
  }

  lemma FilterContains(a: string, b: string, p: char -> bool)
    requires Contains(a, b)
    ensures Contains(Filter(a, p), Filter(b, p))
  {
    var at: nat :| at <= |a| && OccursAt(a, b, at);
    var before, after := a[..at], a[at + |b|..];
    assert a == before + (b + after);
    FilterConcat(before, b + after, p);
    FilterConcat(b, after, p);
    assert OccursAt(Filter(a, p), Filter(b, p), |Filter(before, p)|);
  }

  lemma {:induction false} FilterOnly(s: string, p: char -> bool)
    ensures forall c | c in Filter(s, p) :: p(c)
  {
    if s != "" { FilterOnly(s[1..], p); }
  }

  lemma {:induction false} FilterAll(s: string, p: char -> bool)
    requires forall c | c in s :: p(c)
    ensures Filter(s, p) == s
  {
    if s != "" {
      assert s[0] in s;
      FilterAll(s[1..], p);
      assert [s[0]] + s[1..] == s;
    }
  }

  lemma {:induction false} RunFilter(s: string, word: char -> bool, p: char -> bool, w: string)
    requires w in Runs(s, word)
    ensures |Filter(w, p)| <= |Filter(s, p)|
    decreases |s|
  {
    if !word(s[0]) {
      RunFilter(s[1..], word, p, w);
    } else {
      var n := PrefixLength(s, word);
      assert s[..n] + s[n..] == s;
      FilterConcat(s[..n], s[n..], p);
      if w != s[..n] { RunFilter(s[n..], word, p, w); }
    }
  }

  /** Two words of a text have their digits apart. */
  lemma {:induction false} TwoRunsFilter(s: string, word: char -> bool, p: char -> bool, w: string, t: string)
    requires w in Runs(s, word) && t in Runs(s, word) && w != t
    ensures |Filter(w, p)| + |Filter(t, p)| <= |Filter(s, p)|
    decreases |s|
  {
    if !word(s[0]) {
      TwoRunsFilter(s[1..], word, p, w, t);
    } else {
      var n := PrefixLength(s, word);
      assert s[..n] + s[n..] == s;
      FilterConcat(s[..n], s[n..], p);
      if w == s[..n] {
        RunFilter(s[n..], word, p, t);
      } else if t == s[..n] {
        RunFilter(s[n..], word, p, w);
      } else {
        TwoRunsFilter(s[n..], word, p, w, t);
      }
    }
  }

  lemma TermRun(cls: Classes, q: string, w: string)
    requires w in Terms(cls, q)
    ensures w in Runs(q, c => !cls.space(c))
  {
  }

  /** The digits SQL narrows by are those of the whole query: they hold more than any word but one of four digits. */
  lemma DigitsNotIn(cls: Classes, q: string, w: string, t: string)
    requires Digits(cls, q) != "" && w in Terms(cls, q) && t in Terms(cls, q) && w != t && !FewDigits(cls, t)
    ensures !Contains(w, Digits(cls, q))
  {
    TermRun(cls, q, w);
    TermRun(cls, q, t);
    TwoRunsFilter(q, c => !cls.space(c), cls.digit, w, t);
    if Contains(w, Digits(cls, q)) {
      FilterContains(w, Digits(cls, q), cls.digit);
      FilterOnly(q, cls.digit);
      FilterAll(Digits(cls, q), cls.digit);
    }
  }

  // ---- digits written apart ----

  /** A text with a space before each character. */
  function Spaced(d: string): string {
    seq(2 * |d|, i requires 0 <= i < 2 * |d| => if i % 2 == 0 then ' ' else d[i / 2])
  }

  lemma {:induction false} SpacedFilter(d: string, p: char -> bool)
    requires (forall c | c in d :: p(c)) && !p(' ')
    ensures Filter(Spaced(d), p) == d
  {
    if d != "" {
      var s := Spaced(d);
      assert d[0] in d;
      assert s[1..][1..] == Spaced(d[1..]);
      SpacedFilter(d[1..], p);
      assert Filter(s, p) == Filter(s[1..], p) == [d[0]] + Filter(s[1..][1..], p);
    }
  }

  lemma SpaceHides(d: string, x: string)
    requires |x| >= 2 && ' ' !in x
    ensures !Contains(Spaced(d), x)
  {
    var s := Spaced(d);
    forall at: nat | at <= |s|
      ensures !OccursAt(s, x, at)
    {
      if at + |x| <= |s| {
        var i := at % 2;
        assert s[at + i] == ' ' && x[i] in x;
      }
    }
  }

  // ---- rows SQL does not return ----

  lemma SearchedValue(cfg: Listing, r: Row, f: string)
    requires f in cfg.searchFields || cfg.digitsField == Some(f)
    ensures r.Get(f) in Values(cfg, r)
  {
    if f in cfg.searchFields {
      var i :| 0 <= i < |cfg.searchFields| && cfg.searchFields[i] == f;
      assert Cells(r, cfg.searchFields)[i] == r.Get(f);
      assert Values(cfg, r)[i] == r.Get(f);
    } else {
      assert Values(cfg, r)[|cfg.searchFields|] == r.Get(f);
    }
  }

  /** What a row holds in a field that is checked, checking finds. */
  lemma FoundThere(cls: Classes, cfg: Listing, r: Row, f: string, w: string, typos: bool)
    requires f in cfg.searchFields || cfg.digitsField == Some(f)
    requires w != "" && Contains(r.Get(f), w)
    ensures WordFound(cls, Hay(Values(cfg, r)), w, typos)
  {
    SearchedValue(cfg, r, f);
    ValueInHay(Values(cfg, r), r.Get(f));
    ContainsTransitive(Hay(Values(cfg, r)), r.Get(f), w);
  }

  lemma TypoThere(cls: Classes, cfg: Listing, r: Row, f: string, t: string, x: string)
    requires cls.Valid() && (f in cfg.searchFields || cfg.digitsField == Some(f))
    requires |t| >= 4 && OneEdit(t, x) && AllWord(cls, x) && x != "" && r.Get(f) == [' '] + x
    ensures WordFound(cls, Hay(Values(cfg, r)), t, true)
  {
    SearchedValue(cfg, r, f);
    OneRun(x, cls.word);
    RunInHay(Values(cfg, r), r.Get(f), x, cls.word);
  }

  lemma DigitsThere(cls: Classes, cfg: Listing, r: Row, f: string, w: string, typos: bool)
    requires f in cfg.searchFields || cfg.digitsField == Some(f)
    requires !FewDigits(cls, w) && cls.Valid()
    requires r.Get(f) != "" && Contains(r.Get(f), Spaced(Filter(w, cls.digit)))
    ensures WordFound(cls, Hay(Values(cfg, r)), w, typos)
  {
    var d := Filter(w, cls.digit);
    SearchedValue(cfg, r, f);
    ValueInHay(Values(cfg, r), r.Get(f));
    ContainsTransitive(Hay(Values(cfg, r)), r.Get(f), Spaced(d));
    FilterContains(Hay(Values(cfg, r)), Spaced(d), cls.digit);
    FilterOnly(w, cls.digit);
    SpacedFilter(d, cls.digit);
  }

  // ---- exact matches ----

  /** Checking every row and checking the rows SQL returned keep the same, on every table within the row limit. */
  ghost predicate LosesNone(cls: Classes, cfg: Listing, q: string, table: seq<Row>, window: nat) {
    Searchable(cls, cfg, table) && |table| <= window ==>
      Refined(cls, cfg, Fetch(cfg, Digits(cls, q), table, SqlTerm(cls, q), window, None), q, false)
          == Refined(cls, cfg, table, q, false)
  }

  lemma HiddenIsLost(cls: Classes, cfg: Listing, q: string, r: Row)
    requires Searchable(cls, cfg, [r]) && Passes(cls, cfg, q, false, r)
    requires !Fits(cfg, Digits(cls, q), SqlTerm(cls, q), None, r)
    ensures !LosesNone(cls, cfg, q, [r], 1)
  {
    var fits := x => Fits(cfg, Digits(cls, q), SqlTerm(cls, q), None, x);
    assert [r][1..] == [] && Select([r], fits) == [];
    assert r in Refined(cls, cfg, [r], q, false);
  }

  /** The words of a query but its longest. */
  function OtherWords(cls: Classes, q: string): (ws: seq<string>)
    ensures forall w :: w in ws <==> w in Terms(cls, q) && w != SqlTerm(cls, q)
  {
    Others(Terms(cls, q), SqlTerm(cls, q))
  }

  function Others(words: seq<string>, t: string): (ws: seq<string>)
    ensures forall w :: w in ws <==> w in words && w != t
  {
    if words == [] then [] else (if words[0] == t then [] else [words[0]]) + Others(words[1..], t)
  }

  lemma NoLongerInside(w: string, t: string)
    requires Contains(w, t) && |w| <= |t|
    ensures w == t
  {
    assert OccursAt(w, t, 0);
  }

  lemma LongestNotInOther(cls: Classes, q: string, w: string)
    requires w in OtherWords(cls, q)
    ensures !Contains(w, SqlTerm(cls, q))
  {
    assert |w| <= |SqlTerm(cls, q)| && w != SqlTerm(cls, q);
    if Contains(w, SqlTerm(cls, q)) { NoLongerInside(w, SqlTerm(cls, q)); }
  }

  lemma LongestNotInOthers(cls: Classes, q: string)
    requires cls.Valid() && Terms(cls, q) != []
    ensures !Contains(Hay(OtherWords(cls, q)), SqlTerm(cls, q))
  {
    TermIsPlain(cls, q, SqlTerm(cls, q));
    if Contains(Hay(OtherWords(cls, q)), SqlTerm(cls, q)) {
      InOneField(OtherWords(cls, q), SqlTerm(cls, q));
      var w :| w in OtherWords(cls, q) && Contains(w, SqlTerm(cls, q));
      LongestNotInOther(cls, q, w);
    }
  }

  /** The row lost for digits: the other words, and the digits of the longest written apart. */
  function ApartRow(cls: Classes, q: string, f: string): Row {
    Row("r", map[f := Hay(OtherWords(cls, q) + [Spaced(Filter(SqlTerm(cls, q), cls.digit))])])
  }

  lemma NotInApart(cls: Classes, q: string, x: string)
    requires cls.Valid() && |x| >= 2 && ' ' !in x && forall w | w in OtherWords(cls, q) :: !Contains(w, x)
    ensures !Contains(Hay(OtherWords(cls, q) + [Spaced(Filter(SqlTerm(cls, q), cls.digit))]), x)
  {
    var fields := OtherWords(cls, q) + [Spaced(Filter(SqlTerm(cls, q), cls.digit))];
    SpaceHides(Filter(SqlTerm(cls, q), cls.digit), x);
    if Contains(Hay(fields), x) { InOneField(fields, x); }
  }

  lemma ApartUnseen(cls: Classes, cfg: Listing, q: string, f: string)
    requires cls.Valid() && Terms(cls, q) != [] && !FewDigits(cls, SqlTerm(cls, q))
    ensures !Fits(cfg, Digits(cls, q), SqlTerm(cls, q), None, ApartRow(cls, q, f))
  {
    var t, d := SqlTerm(cls, q), Digits(cls, q);
    TermIsPlain(cls, q, t);
    FilterShorter(t, cls.digit);
    forall w | w in OtherWords(cls, q)
      ensures !Contains(w, t)
      ensures d != "" ==> !Contains(w, d)
    {
      LongestNotInOther(cls, q, w);
      if d != "" { DigitsNotIn(cls, q, w, t); }
    }
    NotInApart(cls, q, t);
    if d != "" {
      FilterOnly(q, cls.digit);
      NotInApart(cls, q, d);
    }
    assert forall g | g != f :: ApartRow(cls, q, f).Get(g) == "";
  }

  lemma {:induction false} FilterShorter(s: string, p: char -> bool)
    ensures |Filter(s, p)| <= |s|
  {
    if s != "" { FilterShorter(s[1..], p); }
  }

  lemma ApartPasses(cls: Classes, cfg: Listing, q: string, f: string, typos: bool)
    requires cls.Valid() && Terms(cls, q) != [] && !FewDigits(cls, SqlTerm(cls, q)) && f in cfg.searchFields
    ensures Passes(cls, cfg, q, typos, ApartRow(cls, q, f))
  {
    var t, r := SqlTerm(cls, q), ApartRow(cls, q, f);
    var s := Spaced(Filter(t, cls.digit));
    var fields := OtherWords(cls, q) + [s];
    assert fields[|OtherWords(cls, q)|] == s;
    ValueInHay(fields, s);
    DigitsThere(cls, cfg, r, f, t, typos);
    forall w | w in Terms(cls, q)
      ensures WordFound(cls, Hay(Values(cfg, r)), w, typos)
    {
      if w != t {
        TermIsPlain(cls, q, w);
        ValueInHay(fields, w);
        FoundThere(cls, cfg, r, f, w, typos);
      }
    }
  }

  /**
   * A longest word of four digits or more loses a row: its field holds the same digits with spaces between. Checking
   * compares digits with digits, SQL's `like` compares them with the text as it is written.
   */
  lemma DigitsLost(cls: Classes, cfg: Listing, q: string, f: string)
    requires cls.Valid() && Terms(cls, q) != [] && !FewDigits(cls, SqlTerm(cls, q)) && f in cfg.searchFields
    ensures var r := ApartRow(cls, q, f);
            && Searchable(cls, cfg, [r]) && Passes(cls, cfg, q, false, r)
            && !Fits(cfg, Digits(cls, q), SqlTerm(cls, q), None, r)
  {
    ApartUnseen(cls, cfg, q, f);
    ApartPasses(cls, cfg, q, f, false);
  }

  /** A row with the other words in a search field, and a text in the phone. */
  function PhoneRow(cls: Classes, q: string, f: string, phone: string, text: string): Row {
    Row("r", map[f := Hay(OtherWords(cls, q)), phone := text])
  }

  lemma PhoneUnseen(cls: Classes, cfg: Listing, q: string, f: string, text: string)
    requires cls.Valid() && PhoneListing(cfg) && Terms(cls, q) != [] && f in cfg.searchFields
    requires Digits(cls, q) != "" ==> !Contains(text, Digits(cls, q))
    ensures !Fits(cfg, Digits(cls, q), SqlTerm(cls, q), None, PhoneRow(cls, q, f, cfg.digitsField.value, text))
  {
    LongestNotInOthers(cls, q);
    TermIsPlain(cls, q, SqlTerm(cls, q));
    var r := PhoneRow(cls, q, f, cfg.digitsField.value, text);
    assert r.Get(cfg.digitsField.value) == text && r.Get(f) == Hay(OtherWords(cls, q));
    forall g | g in cfg.searchFields
      ensures !Contains(r.Get(g), SqlTerm(cls, q))
    {
      assert g != f ==> r.Get(g) == "";
    }
  }

  lemma PhonePasses(cls: Classes, cfg: Listing, q: string, f: string, text: string, typos: bool)
    requires cls.Valid() && PhoneListing(cfg) && Terms(cls, q) != [] && f in cfg.searchFields
    requires var r := PhoneRow(cls, q, f, cfg.digitsField.value, text);
             WordFound(cls, Hay(Values(cfg, r)), SqlTerm(cls, q), typos)
    ensures Passes(cls, cfg, q, typos, PhoneRow(cls, q, f, cfg.digitsField.value, text))
  {
    var t, r := SqlTerm(cls, q), PhoneRow(cls, q, f, cfg.digitsField.value, text);
    forall w | w in Terms(cls, q)
      ensures WordFound(cls, Hay(Values(cfg, r)), w, typos)
    {
      if w != t {
        TermIsPlain(cls, q, w);
        ValueInHay(OtherWords(cls, q), w);
        FoundThere(cls, cfg, r, f, w, typos);
      }
    }
  }

  /** So a longest word of four digits or more loses a phone written with spaces. */
  lemma PhoneLost(cls: Classes, cfg: Listing, q: string, f: string)
    requires cls.Valid() && PhoneListing(cfg) && Terms(cls, q) != [] && f in cfg.searchFields
    requires !FewDigits(cls, SqlTerm(cls, q))
    ensures var r := PhoneRow(cls, q, f, cfg.digitsField.value, Spaced(Filter(SqlTerm(cls, q), cls.digit)));
            && Searchable(cls, cfg, [r]) && Passes(cls, cfg, q, false, r)
            && !Fits(cfg, Digits(cls, q), SqlTerm(cls, q), None, r)
  {
    SpacedUnseen(cls, cfg, q, f);
    SpacedPasses(cls, cfg, q, f);
    FilterOnly(SqlTerm(cls, q), cls.digit);
    SpacedHolds(Filter(SqlTerm(cls, q), cls.digit));
  }

  lemma SpacedHolds(d: string)
    ensures forall c | c in Spaced(d) :: c == ' ' || c in d
  {
  }

  lemma SpacedUnseen(cls: Classes, cfg: Listing, q: string, f: string)
    requires cls.Valid() && PhoneListing(cfg) && Terms(cls, q) != [] && f in cfg.searchFields
    ensures !Fits(cfg, Digits(cls, q), SqlTerm(cls, q), None,
                  PhoneRow(cls, q, f, cfg.digitsField.value, Spaced(Filter(SqlTerm(cls, q), cls.digit))))
  {
    var d := Filter(SqlTerm(cls, q), cls.digit);
    FilterOnly(q, cls.digit);
    if Digits(cls, q) != "" { SpaceHides(d, Digits(cls, q)); }
    PhoneUnseen(cls, cfg, q, f, Spaced(d));
  }

  lemma SpacedPasses(cls: Classes, cfg: Listing, q: string, f: string)
    requires cls.Valid() && PhoneListing(cfg) && Terms(cls, q) != [] && f in cfg.searchFields
    requires !FewDigits(cls, SqlTerm(cls, q))
    ensures Passes(cls, cfg, q, false,
                   PhoneRow(cls, q, f, cfg.digitsField.value, Spaced(Filter(SqlTerm(cls, q), cls.digit))))
  {
    var phone := Spaced(Filter(SqlTerm(cls, q), cls.digit));
    var r := PhoneRow(cls, q, f, cfg.digitsField.value, phone);
    assert r.Get(cfg.digitsField.value) == phone;
    assert OccursAt(phone, phone, 0);
    DigitsThere(cls, cfg, r, cfg.digitsField.value, SqlTerm(cls, q), false);
    PhonePasses(cls, cfg, q, f, phone, false);
  }

  /** The row lost for signs: the longest word in the phone. */
  function SignsRow(cls: Classes, cfg: Listing, q: string, f: string): Row
    requires PhoneListing(cfg)
  {
    PhoneRow(cls, q, f, cfg.digitsField.value, [' '] + SqlTerm(cls, q))
  }

  lemma SignsUnseen(cls: Classes, cfg: Listing, q: string, f: string)
    requires cls.Valid() && PhoneListing(cfg) && Terms(cls, q) != [] && f in cfg.searchFields
    requires FewDigits(cls, SqlTerm(cls, q))
    ensures !Fits(cfg, Digits(cls, q), SqlTerm(cls, q), None, SignsRow(cls, cfg, q, f))
  {
    var t, d := SqlTerm(cls, q), Digits(cls, q);
    if d != "" && Contains([' '] + t, d) {
      FilterOnly(q, cls.digit);
      FilterContains([' '] + t, d, cls.digit);
      FilterAll(d, cls.digit);
      FilterConcat([' '], t, cls.digit);
    }
    PhoneUnseen(cls, cfg, q, f, [' '] + t);
  }

  lemma SignsPasses(cls: Classes, cfg: Listing, q: string, f: string, typos: bool)
    requires cls.Valid() && PhoneListing(cfg) && Terms(cls, q) != [] && f in cfg.searchFields
    ensures Passes(cls, cfg, q, typos, SignsRow(cls, cfg, q, f))
  {
    var t := SqlTerm(cls, q);
    TermIsPlain(cls, q, t);
    assert OccursAt([' '] + t, t, 1);
    FoundThere(cls, cfg, SignsRow(cls, cfg, q, f), cfg.digitsField.value, t, typos);
    PhonePasses(cls, cfg, q, f, [' '] + t, typos);
  }

  /** A longest word without letters and with few digits is looked for in the phone by the check, and not by SQL. */
  lemma SignsLost(cls: Classes, cfg: Listing, q: string, f: string)
    requires cls.Valid() && PhoneListing(cfg) && Terms(cls, q) != [] && f in cfg.searchFields
    requires FewDigits(cls, SqlTerm(cls, q)) && !HasLetter(cls, SqlTerm(cls, q))
    ensures var r := SignsRow(cls, cfg, q, f);
            && Searchable(cls, cfg, [r]) && Passes(cls, cfg, q, false, r)
            && !Fits(cfg, Digits(cls, q), SqlTerm(cls, q), None, r)
  {
    SignsUnseen(cls, cfg, q, f);
    SignsPasses(cls, cfg, q, f, false);
    assert !cls.Letter(' ');
  }

  /**
   * For every query, over every listing with a search field: narrowing keeps every exact match of every table exactly
   * when the longest word has fewer than four digits and, beside a phone column, a letter.
   */
  lemma ExactNarrowingExactly(cls: Classes, cfg: Listing, q: string)
    requires cls.Valid() && cfg.searchFields != [] && Terms(cls, q) != []
    ensures (forall table, window :: LosesNone(cls, cfg, q, table, window))
            <==> NarrowsExact(cls, cfg, SqlTerm(cls, q))
  {
    var f := cfg.searchFields[0];
    if NarrowsExact(cls, cfg, SqlTerm(cls, q)) {
      forall table, window
        ensures LosesNone(cls, cfg, q, table, window)
      {
        if Searchable(cls, cfg, table) && |table| <= window { ExactNarrowing(cls, cfg, table, q, window); }
      }
    } else if FewDigits(cls, SqlTerm(cls, q)) {
      SignsLost(cls, cfg, q, f);
      HiddenIsLost(cls, cfg, q, SignsRow(cls, cfg, q, f));
    } else {
      DigitsLost(cls, cfg, q, f);
      HiddenIsLost(cls, cfg, q, ApartRow(cls, q, f));
    }
  }

  // ---- the whole search, one word ----

  /** The search box finds what checking every row would find, on every table within the row limit. */
  ghost predicate FindsAll(cls: Classes, cfg: Listing, q: string) {
    forall table, window | Searchable(cls, cfg, table) && |table| <= window ::
      multiset(Found(cls, cfg, table, q, window)) == multiset(Matching(cls, cfg, table, q))
  }

  function Start(t: string): string { if t == "" then "" else t[..1] }

  /** No query of the search returns the row: not by the word, not by a piece, not by the title's first letter. */
  ghost predicate Unseen(cls: Classes, cfg: Listing, q: string, r: Row) {
    var t, d := SqlTerm(cls, q), Digits(cls, q);
    && !Fits(cfg, d, t, None, r) && !(Start(t) <= r.Get(cfg.titleField))
    && forall piece | piece in FuzzyFragments(cls, q) :: !Fits(cfg, d, piece, None, r)
  }

  lemma NotFetched(cfg: Listing, digits: string, term: string, limit: nat, prefix: Option<string>, r: Row)
    requires !Fits(cfg, digits, term, prefix, r)
    ensures Fetch(cfg, digits, [r], term, limit, prefix) == []
  {
    assert [r][1..] == [] && Select([r], x => Fits(cfg, digits, term, prefix, x)) == [];
  }

  lemma {:induction false} NoCandidates(cfg: Listing, digits: string, fragments: seq<string>, limit: nat,
                                        letter: string, r: Row)
    requires !(letter <= r.Get(cfg.titleField))
    requires forall piece | piece in fragments :: !Fits(cfg, digits, piece, None, r)
    ensures Candidates(cfg, digits, [r], fragments, limit, letter) == []
  {
    if fragments != [] {
      var n := |fragments| - 1;
      NoCandidates(cfg, digits, fragments[..n], limit, letter, r);
      assert !Fits(cfg, digits, fragments[n], None, r);
      NotFetched(cfg, digits, fragments[n], limit, if n == 0 then Some(letter) else None, r);
    }
  }

  lemma UnseenIsLost(cls: Classes, cfg: Listing, q: string, r: Row)
    requires Terms(cls, q) != [] && SqlTerm(cls, q) != "" && Searchable(cls, cfg, [r])
    requires Unseen(cls, cfg, q, r) && Passes(cls, cfg, q, true, r)
    ensures !FindsAll(cls, cfg, q)
  {
    var t, d := SqlTerm(cls, q), Digits(cls, q);
    NotFetched(cfg, d, t, 1, None, r);
    NoCandidates(cfg, d, FuzzyFragments(cls, q), 2, t[..1], r);
    assert Found(cls, cfg, [r], q, 1) == [];
    assert r in Refined(cls, cfg, [r], q, true);
    var m := Matching(cls, cfg, [r], q);
    assert m[0] in multiset(m);
  }

  /** A row whose field starts with a space is not fetched for its title, nor for what the field does not hold. */
  lemma SpaceFirst(cls: Classes, cfg: Listing, q: string, r: Row)
    requires cls.Valid() && Terms(cls, q) != [] && forall f :: r.Get(f) == "" || r.Get(f)[0] == ' '
    ensures !(Start(SqlTerm(cls, q)) <= r.Get(cfg.titleField))
  {
    var t := SqlTerm(cls, q);
    TermIsPlain(cls, q, t);
    assert t[0] in t && t[..1][0] == t[0];
  }

  lemma FragmentsInWord(cls: Classes, q: string, piece: string)
    requires cls.Valid() && Terms(cls, q) != [] && piece in FuzzyFragments(cls, q)
    ensures |SqlTerm(cls, q)| >= 4 && piece in Pieces(SqlTerm(cls, q)) && |piece| == 3 && ' ' !in piece
  {
    DistinctKeeps(Pieces(SqlTerm(cls, q)));
    TermIsPlain(cls, q, SqlTerm(cls, q));
  }

  /** A row with one filled field, a space and a text. */
  function TextRow(f: string, x: string): Row { Row("r", map[f := [' '] + x]) }

  lemma AfterSpace(x: string, y: string)
    requires Contains([' '] + x, y) && ' ' !in y && y != ""
    ensures Contains(x, y)
  {
    var at: nat :| at <= |x| + 1 && OccursAt([' '] + x, y, at);
    assert y[0] in y && ([' '] + x)[at + 0] == y[0];
    assert OccursAt(x, y, at - 1);
  }

  lemma WordTooLong(cls: Classes, q: string, x: string)
    requires cls.Valid() && Terms(cls, q) == [q] && |q| >= 4 && !HasPiece(q, x)
    ensures !Contains(x, q)
  {
    assert OccursAt(q, q[..3], 0);
    assert q[..3] == Pieces(q)[0];
    assert q[..3] in Pieces(q) && Contains(q, q[..3]);
    if Contains(x, q) { ContainsTransitive(x, q, q[..3]); }
  }

  /** A typo without a piece is found nowhere. */
  lemma TypoLost(cls: Classes, cfg: Listing, q: string, f: string, x: string)
    requires cls.Valid() && Terms(cls, q) == [q] && |q| >= 4 && FewDigits(cls, q) && f in cfg.searchFields
    requires OneEdit(q, x) && AllWord(cls, x) && x != "" && !HasPiece(q, x)
    ensures var r := TextRow(f, x);
            Searchable(cls, cfg, [r]) && Unseen(cls, cfg, q, r) && Passes(cls, cfg, q, true, r)
  {
    var r := TextRow(f, x);
    assert SqlTerm(cls, q) == q;
    TermIsPlain(cls, q, q);
    SpaceFirst(cls, cfg, q, r);
    WordTooLong(cls, q, x);
    if Contains([' '] + x, q) { AfterSpace(x, q); }
    forall piece | piece in FuzzyFragments(cls, q)
      ensures !Fits(cfg, Digits(cls, q), piece, None, r)
    {
      FragmentsInWord(cls, q, piece);
      if Contains([' '] + x, piece) { AfterSpace(x, piece); }
    }
    TypoThere(cls, cfg, r, f, q, x);
  }

  /** A typo without letters is checked in the phone, and looked for elsewhere. */
  lemma LetterLost(cls: Classes, cfg: Listing, q: string, x: string)
    requires cls.Valid() && PhoneListing(cfg) && Terms(cls, q) == [q] && |q| >= 4 && FewDigits(cls, q)
    requires OneEdit(q, x) && AllWord(cls, x) && x != "" && !HasLetter(cls, x)
    ensures var r := TextRow(cfg.digitsField.value, x);
            Searchable(cls, cfg, [r]) && Unseen(cls, cfg, q, r) && Passes(cls, cfg, q, true, r)
  {
    var r := TextRow(cfg.digitsField.value, x);
    assert SqlTerm(cls, q) == q;
    TermIsPlain(cls, q, q);
    SpaceFirst(cls, cfg, q, r);
    assert forall g | g in cfg.searchFields :: r.Get(g) == "";
    forall piece | piece in FuzzyFragments(cls, q)
      ensures !Fits(cfg, Digits(cls, q), piece, None, r)
    {
      FragmentsInWord(cls, q, piece);
    }
    TypoThere(cls, cfg, r, cfg.digitsField.value, q, x);
    assert !cls.Letter(' ');
  }

  /** The word without its one letter. */
  lemma LetterDropped(cls: Classes, t: string) returns (x: string)
    requires |t| >= 4 && DropsLetters(cls, t)
    ensures OneEdit(t, x) && AllWord(cls, x) && x != "" && !HasLetter(cls, x)
  {
    var k :| 0 <= k < |t| && WordBut(cls, t, k) && forall i | 0 <= i < |t| && i != k :: !cls.Letter(t[i]);
    x := t[..k] + t[k + 1..];
    assert x[..k] == t[..k] && x[k..] == t[k + 1..];
    assert InsertAt(x, t, k);
    forall c | c in x
      ensures cls.word(c) && !cls.Letter(c)
    {
      var i :| 0 <= i < |x| && x[i] == c;
      assert c == t[if i < k then i else i + 1];
    }
  }

  lemma OneWord(cls: Classes, q: string)
    requires Terms(cls, q) == [q]
    ensures SqlTerm(cls, q) == q && OtherWords(cls, q) == []
  {
    assert [q][1..] == [] && Others([q], q) == [];
  }

  /** Digits written apart are not found by pieces either. */
  lemma ApartNowhere(cls: Classes, cfg: Listing, q: string, f: string)
    requires cls.Valid() && Terms(cls, q) == [q] && !FewDigits(cls, q) && f in cfg.searchFields
    ensures Unseen(cls, cfg, q, ApartRow(cls, q, f))
  {
    var r, d := ApartRow(cls, q, f), Filter(q, cls.digit);
    OneWord(cls, q);
    assert OtherWords(cls, q) + [Spaced(d)] == [Spaced(d)] && [Spaced(d)][1..] == [];
    assert Present([Spaced(d)]) == [Spaced(d)];
    assert r.Get(f) == Spaced(d);
    ApartUnseen(cls, cfg, q, f);
    SpaceFirst(cls, cfg, q, r);
    FilterOnly(q, cls.digit);
    forall piece | piece in FuzzyFragments(cls, q)
      ensures !Fits(cfg, Digits(cls, q), piece, None, r)
    {
      FragmentsInWord(cls, q, piece);
      SpaceHides(d, piece);
      SpaceHides(d, d);
    }
  }

  lemma SignsNowhere(cls: Classes, cfg: Listing, q: string, f: string)
    requires cls.Valid() && PhoneListing(cfg) && Terms(cls, q) == [q] && FewDigits(cls, q) && f in cfg.searchFields
    ensures Unseen(cls, cfg, q, SignsRow(cls, cfg, q, f))
  {
    var r := SignsRow(cls, cfg, q, f);
    OneWord(cls, q);
    assert r.Get(f) == "";
    SignsUnseen(cls, cfg, q, f);
    SpaceFirst(cls, cfg, q, r);
    forall piece | piece in FuzzyFragments(cls, q)
      ensures !Fits(cfg, Digits(cls, q), piece, None, r)
    {
      FragmentsInWord(cls, q, piece);
      assert forall g | g in cfg.searchFields :: r.Get(g) == "";
    }
  }

  /** Found by a typo through pieces, by the word through itself: what each fails on, some row is lost for. */
  lemma LosesSome(cls: Classes, cfg: Listing, q: string)
    requires cls.Valid() && cfg.searchFields != [] && Terms(cls, q) == [q]
    requires !NarrowsExact(cls, cfg, q) || !NarrowsTypos(cls, cfg, q)
    ensures !FindsAll(cls, cfg, q)
  {
    var f := cfg.searchFields[0];
    assert SqlTerm(cls, q) == q;
    TermIsPlain(cls, q, q);
    if !FewDigits(cls, q) {
      ApartNowhere(cls, cfg, q, f);
      ApartPasses(cls, cfg, q, f, true);
      UnseenIsLost(cls, cfg, q, ApartRow(cls, q, f));
    } else if PhoneListing(cfg) && !HasLetter(cls, q) {
      SignsLost(cls, cfg, q, f);
      SignsNowhere(cls, cfg, q, f);
      SignsPasses(cls, cfg, q, f, true);
      UnseenIsLost(cls, cfg, q, SignsRow(cls, cfg, q, f));
    } else if BreaksPieces(cls, q) {
      var x := LostWord(cls, q);
      TypoLost(cls, cfg, q, f, x);
      UnseenIsLost(cls, cfg, q, TextRow(f, x));
    } else {
      var x := LetterDropped(cls, q);
      LetterLost(cls, cfg, q, x);
      UnseenIsLost(cls, cfg, q, TextRow(cfg.digitsField.value, x));
    }
  }

  /**
   * For every query of one word, over every listing with a search field: the search box finds on every table what
   * checking every row would find exactly when the word narrows exactly and keeps a piece through any typo.
   */
  lemma FindsAllExactly(cls: Classes, cfg: Listing, q: string)
    requires cls.Valid() && cfg.searchFields != [] && Terms(cls, q) == [q]
    ensures FindsAll(cls, cfg, q) <==> NarrowsExact(cls, cfg, q) && NarrowsTypos(cls, cfg, q)
  {
    assert SqlTerm(cls, q) == q;
    if NarrowsExact(cls, cfg, q) && NarrowsTypos(cls, cfg, q) {
      forall table, window: nat | Searchable(cls, cfg, table) && |table| <= window
        ensures multiset(Found(cls, cfg, table, q, window)) == multiset(Matching(cls, cfg, table, q))
      {
        NarrowingLosesNothing(cls, cfg, table, q, window);
      }
    } else {
      LosesSome(cls, cfg, q);
    }
  }
}

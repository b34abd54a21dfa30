/**
 * The search rules of search_logic.py and the list endpoint of smart_list.py. Text is taken as already lower-cased;
 * which characters are letters, digits or white space is a parameter, so every result holds for any such table.
 */
module Search {
  import opened Text
  import opened OneTypo

  /** Regular-expression classes: `\s`, `\d`, and the characters of `[\w@.+]`. */
  datatype Classes = Classes(space: char -> bool, digit: char -> bool, word: char -> bool) {
    ghost predicate Valid() {
      && space(' ') && !word(' ') && !digit(' ')
      && (forall c | digit(c) :: word(c)) && forall c | 'a' <= c <= 'z' :: word(c) && !digit(c)
    }

    /** A word character that is no digit and none of `@ . +`. */
    predicate Letter(c: char) {
      word(c) && !digit(c) && c != '@' && c != '.' && c != '+'
    }
  }

  /** The maximal runs of characters satisfying `p`, in order. */
  function Runs(s: string, p: char -> bool): seq<string>
    decreases |s|
  {
    if s == "" then []
    else if !p(s[0]) then Runs(s[1..], p)
    else var n := PrefixLength(s, p); [s[..n]] + Runs(s[n..], p)
  }

  function Filter(s: string, p: char -> bool): string {
    if s == "" then "" else (if p(s[0]) then [s[0]] else "") + Filter(s[1..], p)
  }

  function First(words: seq<string>, n: nat): seq<string> {
    if |words| <= n then words else words[..n]
  }

  /** search_logic.terms */
  function Terms(cls: Classes, q: string): seq<string> {
    First(Runs(q, c => !cls.space(c)), 6)
  }

  /** search_logic.digits */
  function Digits(cls: Classes, q: string): string {
    var d := Filter(q, cls.digit);
    if |d| >= 4 then d else ""
  }

  function Longest(words: seq<string>): (w: string)
    requires words != []
    ensures w in words
    ensures forall x | x in words :: |x| <= |w|
  {
    if |words| == 1 then words[0]
    else
      var rest := Longest(words[1..]);
      if |words[0]| >= |rest| then words[0] else rest
  }

  /** search_logic.sql_term */
  function SqlTerm(cls: Classes, q: string): string {
    var ws := Terms(cls, q);
    if ws == [] then "" else Longest(ws)
  }

  function Distinct(words: seq<string>): seq<string> {
    if words == [] then []
    else
      var rest := Distinct(words[..|words| - 1]);
      if words[|words| - 1] in rest then rest else rest + [words[|words| - 1]]
  }

  /** The three pieces of a word: its start, its middle and its end. */
  function Pieces(t: string): seq<string>
    requires |t| >= 4
  {
    var mid := |t| / 2;
    [t[..3], t[mid - 1..mid + 2], t[|t| - 3..]]
  }

  /** search_logic.fuzzy_fragments */
  function FuzzyFragments(cls: Classes, q: string): seq<string> {
    var t := SqlTerm(cls, q);
    if |t| < 4 then [] else Distinct(Pieces(t))
  }

  // ---- matching one row ----

  function Present(fields: seq<string>): seq<string> {
    if fields == [] then []
    else if fields[0] == "" then Present(fields[1..])
    else [fields[0]] + Present(fields[1..])
  }

  /** The text that matches() searches: the filled fields, a space between them. */
  function Hay(fields: seq<string>): string {
    Join(Present(fields), " ")
  }

  ghost predicate ByTypo(cls: Classes, hay: string, w: string) {
    |w| >= 4 && exists x :: x in Runs(hay, cls.word) && OneEdit(w, x)
  }

  ghost predicate ByDigits(cls: Classes, hay: string, w: string) {
    |Filter(w, cls.digit)| >= 4 && Contains(Filter(hay, cls.digit), Filter(w, cls.digit))
  }

  ghost predicate WordFound(cls: Classes, hay: string, w: string, typos: bool) {
    Contains(hay, w) || ByDigits(cls, hay, w) || (typos && ByTypo(cls, hay, w))
  }

  /** What a kept row is: every word of the query is found in its fields. */
  ghost predicate Kept(cls: Classes, fields: seq<string>, q: string, typos: bool) {
    forall w | w in Terms(cls, q) :: WordFound(cls, Hay(fields), w, typos)
  }

  method AnyTypo(w: string, words: seq<string>) returns (yes: bool)
    ensures yes <==> |w| >= 4 && exists x :: x in words && OneEdit(w, x)
  {
    for i := 0 to |words|
      invariant forall x | x in words[..i] :: !(|w| >= 4 && OneEdit(w, x))
    {
      var hit := OneTypo.OneTypo(w, words[i]);
      if hit {
        assert words[i] in words && OneEdit(w, words[i]);
        return true;
      }
    }
    return false;
  }

  /** search_logic.matches */
  method Matches(cls: Classes, fields: seq<string>, q: string, typos: bool) returns (yes: bool)
    ensures yes <==> Kept(cls, fields, q, typos)
  {
    var hay := Hay(fields);
    var hayDigits := Filter(hay, cls.digit);
    var hayWords := Runs(hay, cls.word);
    var ws := Terms(cls, q);
    for i := 0 to |ws|
      invariant forall w | w in ws[..i] :: WordFound(cls, hay, w, typos)
    {
      var w := ws[i];
      var wDigits := Filter(w, cls.digit);
      if Contains(hay, w) || (|wDigits| >= 4 && Contains(hayDigits, wDigits)) {
        continue;
      }
      var near := false;
      if typos { near := AnyTypo(w, hayWords); }
      if !near {
        assert w in ws && !WordFound(cls, hay, w, typos);
        return false;
      }
    }
    return true;
  }

  // ---- one typo leaves a piece of most words standing ----

  predicate HasPiece(t: string, text: string)
    requires |t| >= 4
  {
    exists f | f in Pieces(t) :: Contains(text, f)
  }

  predicate AllWord(cls: Classes, t: string) {
    forall c | c in t :: cls.word(c)
  }

  /** Every character but the one at `k` can stand in a word of a row. */
  predicate WordBut(cls: Classes, t: string, k: nat) {
    k < |t| && forall i | 0 <= i < |t| && i != k :: cls.word(t[i])
  }

  /** A word of six letters with its middle two swapped. */
  function Turned(t: string): string
    requires |t| == 6
  {
    t[..2] + [t[3], t[2]] + t[4..]
  }

  /** A word some typo of which holds none of its pieces, though it can stand in a row. */
  predicate BreaksPieces(cls: Classes, t: string) {
    || (|t| == 4 && (WordBut(cls, t, 1) || WordBut(cls, t, 2)))
    || (|t| == 5 && WordBut(cls, t, 2))
    || (|t| == 6 && AllWord(cls, t) && !HasPiece(t, Turned(t)))
  }

  /** An edit that leaves the first three letters or the last three leaves a piece. */
  lemma EndsSurvive(t: string, x: string, k: nat, tFrom: nat, xFrom: nat)
    requires |t| >= 4 && k <= |t| && k <= |x| && k <= tFrom <= |t| && xFrom <= |x|
    requires t[..k] == x[..k] && t[tFrom..] == x[xFrom..] && (k >= 3 || tFrom + 3 <= |t|)
    ensures HasPiece(t, x)
  {
    if k >= 3 {
      assert forall i | 0 <= i < 3 :: x[0 + i] == x[..k][i] == t[..k][i] == t[..3][i];
      assert OccursAt(x, t[..3], 0);
      assert t[..3] == Pieces(t)[0];
      assert t[..3] in Pieces(t) && Contains(x, t[..3]);
    } else {
      var at := |x| - 3;
      var tail := t[|t| - 3..];
      assert |x| - xFrom == |t| - tFrom >= 3;
      forall i | 0 <= i < 3
        ensures x[at + i] == tail[i]
      {
        assert x[at + i] == x[xFrom..][at + i - xFrom];
        assert t[|t| - 3 + i] == t[tFrom..][|t| - 3 + i - tFrom];
      }
      assert OccursAt(x, tail, at);
      assert tail == Pieces(t)[2];
      assert tail in Pieces(t) && Contains(x, tail);
    }
  }

  /** What an edit leaves of a word is in the word it makes. */
  lemma WhatIsLeft(t: string, x: string, k: nat, tFrom: nat, xFrom: nat, p: char -> bool)
    requires (forall c | c in x :: p(c)) && k <= |t| && k <= |x| && k <= tFrom <= |t| && xFrom <= |x|
    requires t[..k] == x[..k] && t[tFrom..] == x[xFrom..]
    ensures forall i | 0 <= i < |t| && (i < k || i >= tFrom) :: p(t[i])
  {
    forall i | 0 <= i < |t| && (i < k || i >= tFrom)
      ensures t[i] in x
    {
      if i < k {
        assert t[i] == t[..k][i] == x[..k][i] == x[i];
      } else {
        assert t[i] == t[tFrom..][i - tFrom] == x[xFrom..][i - tFrom] == x[xFrom + (i - tFrom)];
      }
    }
  }

  lemma SwapLeavesAll(t: string, x: string, k: nat, p: char -> bool)
    requires SwapAt(t, x, k) && forall c | c in x :: p(c)
    ensures forall c | c in t :: p(c)
  {
    WhatIsLeft(t, x, k, k + 2, k + 2, p);
    assert x[k] in x && x[k + 1] in x;
  }

  lemma SwapLeavesPiece(cls: Classes, t: string, x: string, k: nat)
    requires |t| >= 4 && SwapAt(t, x, k) && AllWord(cls, x) && !BreaksPieces(cls, t)
    ensures HasPiece(t, x)
  {
    SwapLeavesAll(t, x, k, cls.word);
    if |t| == 6 && k == 2 {
      assert x == x[..2] + [x[2], x[3]] + x[4..];
      assert x == Turned(t);
    } else {
      EndsSurvive(t, x, k, k + 2, k + 2);
    }
  }

  /** One edit of any other word leaves one of its pieces whole. */
  lemma EditLeavesPiece(cls: Classes, t: string, x: string)
    requires |t| >= 4 && OneEdit(t, x) && (t == x || AllWord(cls, x)) && !BreaksPieces(cls, t)
    ensures HasPiece(t, x)
  {
    if t == x {
      assert OccursAt(x, t[..3], 0);
      assert t[..3] == Pieces(t)[0];
      assert t[..3] in Pieces(t) && Contains(x, t[..3]);
    } else if k: nat :| SubstituteAt(t, x, k) {
      WhatIsLeft(t, x, k, k + 1, k + 1, cls.word);
      EndsSurvive(t, x, k, k + 1, k + 1);
    } else if k: nat :| InsertAt(t, x, k) {
      WhatIsLeft(t, x, k, k, k + 1, cls.word);
      EndsSurvive(t, x, k, k, k + 1);
    } else if k: nat :| InsertAt(x, t, k) {
      WhatIsLeft(t, x, k, k + 1, k, cls.word);
      EndsSurvive(t, x, k, k + 1, k);
    } else {
      var k: nat :| SwapAt(t, x, k);
      SwapLeavesPiece(cls, t, x, k);
    }
  }

  lemma FreshLetter(t: string) returns (c: char)
    requires |t| <= 5
    ensures 'a' <= c <= 'z' && c !in t
  {
    var six := {'a', 'b', 'c', 'd', 'e', 'f'};
    var used := set i | 0 <= i < |t| :: t[i];
    FewerLetters(t);
    assert |six| == 6;
    if six <= used { SubsetSize(six, used); }
    c :| c in six && c !in used;
  }

  lemma {:induction false} FewerLetters(t: string)
    ensures |set i | 0 <= i < |t| :: t[i]| <= |t|
  {
    if t != "" {
      var n := |t| - 1;
      FewerLetters(t[..n]);
      assert (set i | 0 <= i < |t| :: t[i]) == (set i | 0 <= i < n :: t[..n][i]) + {t[n]};
    }
  }

  /** A strange letter in the middle: every three letters in a row that miss it are too few to be a piece. */
  lemma StrangeLetter(t: string, k: nat, c: char)
    requires (|t| == 4 && 1 <= k <= 2) || (|t| == 5 && k == 2)
    requires c !in t
    ensures !HasPiece(t, t[k := c]) && OneEdit(t, t[k := c])
  {
    var x := t[k := c];
    assert SubstituteAt(t, x, k);
    forall f, at: nat | f in Pieces(t) && at <= |x|
      ensures !OccursAt(x, f, at)
    {
      assert |f| == 3 && forall d | d in f :: d in t;
      if at + 3 <= |x| { assert x[at + (k - at)] == c && f[k - at] in f; }
    }
  }

  /** Each such word, with a typo of it that can stand in a row and holds none of its pieces. */
  lemma LostWord(cls: Classes, t: string) returns (x: string)
    requires cls.Valid() && BreaksPieces(cls, t)
    ensures OneEdit(t, x) && AllWord(cls, x) && x != "" && !HasPiece(t, x)
  {
    if |t| == 6 {
      x := Turned(t);
      assert SwapAt(t, x, 2);
      assert forall d | d in x :: d in t;
    } else {
      var k := if WordBut(cls, t, 2) then 2 else 1;
      var c := FreshLetter(t);
      x := t[k := c];
      StrangeLetter(t, k, c);
      forall d | d in x
        ensures cls.word(d)
      {
        var i :| 0 <= i < |x| && x[i] == d;
      }
    }
  }

  /**
   * A word keeps a piece through every typo that can stand in a row exactly when it does not break its pieces: with
   * seven letters or more, with six whose swapped middle leaves one, or with a character elsewhere than in the middle
   * that no word of a row has.
   */
  lemma PiecesSurviveExactly(cls: Classes, t: string)
    requires cls.Valid() && |t| >= 4
    ensures (forall x: string | OneEdit(t, x) && AllWord(cls, x) :: HasPiece(t, x)) <==> !BreaksPieces(cls, t)
  {
    if BreaksPieces(cls, t) {
      var _ := LostWord(cls, t);
    } else {
      forall x: string | OneEdit(t, x) && AllWord(cls, x)
        ensures HasPiece(t, x)
      {
        EditLeavesPiece(cls, t, x);
      }
    }
  }

  // ---- the words of a query ----

  lemma PrefixUpTo(s: string, p: char -> bool, m: nat)
    requires m <= |s| && (forall i | 0 <= i < m :: p(s[i])) && (m < |s| ==> !p(s[m]))
    ensures PrefixLength(s, p) == m
  {
  }

  lemma FirstRun(w: string, rest: string, p: char -> bool)
    requires w != "" && (forall c | c in w :: p(c)) && (rest != "" ==> !p(rest[0]))
    ensures Runs(w + rest, p) == [w] + Runs(rest, p)
  {
    var s := w + rest;
    assert forall i | 0 <= i < |w| :: s[i] == w[i];
    PrefixUpTo(s, p, |w|);
    assert s[..|w|] == w && s[|w|..] == rest;
  }

  predicate AllWords(ws: seq<string>, p: char -> bool) {
    forall i | 0 <= i < |ws| :: ws[i] != "" && forall c | c in ws[i] :: p(c)
  }

  /** Words with a separator between them are cut into these words. */
  lemma {:induction false} RunsOfWords(ws: seq<string>, sep: char, p: char -> bool)
    requires AllWords(ws, p) && !p(sep)
    ensures Runs(Join(ws, [sep]), p) == ws
  {
    if ws != [] {
      RunsOfWords(ws[1..], sep, p);
      JoinFirst(ws, sep);
      var rest := Join(ws[1..], [sep]);
      FirstRun(ws[0], if |ws| == 1 then "" else [sep] + rest, p);
      assert ([sep] + rest)[1..] == rest;
      assert [ws[0]] + ws[1..] == ws;
    }
  }

  lemma JoinFirst(ws: seq<string>, sep: char)
    requires ws != []
    ensures Join(ws, [sep]) == ws[0] + if |ws| == 1 then "" else [sep] + Join(ws[1..], [sep])
  {
    if |ws| == 1 {
      assert ws[0] + "" == ws[0];
    } else {
      assert ws[0] + [sep] + Join(ws[1..], [sep]) == ws[0] + ([sep] + Join(ws[1..], [sep]));
    }
  }

  /** The words of a query are those between the spaces, the first six of them. */
  lemma TermsOfWords(cls: Classes, ws: seq<string>, sep: char)
    requires AllWords(ws, c => !cls.space(c)) && cls.space(sep)
    ensures Terms(cls, Join(ws, [sep])) == if |ws| <= 6 then ws else ws[..6]
  {
    RunsOfWords(ws, sep, c => !cls.space(c));
  }

  /** The word SQL narrows by is the first of the longest. */
  lemma {:induction false} LongestIsFirst(words: seq<string>) returns (i: nat)
    requires words != []
    ensures i < |words| && words[i] == Longest(words)
    ensures forall j | 0 <= j < |words| :: |words[j]| <= |words[i]|
    ensures forall j | 0 <= j < i :: |words[j]| < |words[i]|
  {
    if |words| == 1 || |words[0]| >= |Longest(words[1..])| {
      i := 0;
      assert forall j | 0 < j < |words| :: words[j] in words[1..];
    } else {
      var rest := LongestIsFirst(words[1..]);
      i := rest + 1;
      assert forall j | 0 < j < |words| :: words[j] == words[1..][j - 1];
    }
  }

  // ---- words of the joined text lie inside one field ----

  lemma {:induction false} RunsInside(s: string, p: char -> bool)
    ensures forall x | x in Runs(s, p) :: Contains(s, x) && x != "" && forall c | c in x :: p(c)
    decreases |s|
  {
    if s == "" {
    } else if !p(s[0]) {
      RunsInside(s[1..], p);
      forall x | x in Runs(s, p)
        ensures Contains(s, x)
      {
        ContainsFrom(s, x, 1);
      }
    } else {
      var n := PrefixLength(s, p);
      RunsInside(s[n..], p);
      forall x | x in Runs(s, p)
        ensures Contains(s, x) && x != "" && forall c | c in x :: p(c)
      {
        if x in Runs(s[n..], p) {
          ContainsFrom(s, x, n);
        } else {
          ContainsSlice(s, 0, n);
        }
      }
    }
  }

  lemma {:induction false} InOneField(fields: seq<string>, x: string)
    requires x != "" && ' ' !in x && Contains(Hay(fields), x)
    ensures exists f :: f in fields && Contains(f, x)
  {
    if fields == [] {
      assert false;
    } else if fields[0] == "" {
      InOneField(fields[1..], x);
    } else {
      var head, rest := fields[0], Hay(fields[1..]);
      var hay := Hay(fields);
      assert Present(fields)[1..] == Present(fields[1..]);
      var at: nat :| at <= |hay| && OccursAt(hay, x, at);
      if at + |x| <= |head| {
        assert head <= hay;
        assert OccursAt(head, x, at);
        assert head in fields && Contains(head, x);
      } else {
        assert Present(fields[1..]) != [];
        assert hay == head + " " + rest;
        forall i | at <= i < at + |x|
          ensures hay[i] != ' '
        {
          assert hay[at + (i - at)] == x[i - at];
        }
        assert hay[|head|] == ' ';
        var from := at - |head| - 1;
        forall i | 0 <= i < |x|
          ensures rest[from + i] == x[i]
        {
          assert rest[from + i] == hay[at + i];
        }
        assert OccursAt(rest, x, from);
        InOneField(fields[1..], x);
      }
    }
  }
}

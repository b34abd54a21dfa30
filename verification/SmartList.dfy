/**
 * The search box of every list endpoint (smart_list.py): SQL narrows on one word or on pieces of it, every word is then
 * checked, and a page of what is kept is returned. The point is that narrowing loses nothing.
 */
module SmartList {
  import opened Text
  import opened OneTypo
  import opened Search

  datatype Row = Row(name: string, cells: map<string, string>) {
    /** r.get(f); a missing cell and an empty one are the same to the search. */
    function Get(f: string): string {
      if f in cells then cells[f] else ""
    }
  }

  datatype Listing = Listing(searchFields: seq<string>, titleField: string, digitsField: Option<string>)

  const WINDOW: nat := 5

  function Select(rows: seq<Row>, p: Row -> bool): (kept: seq<Row>)
    ensures forall r :: r in kept <==> r in rows && p(r)
    ensures |kept| <= |rows|
  {
    if rows == [] then [] else (if p(rows[0]) then [rows[0]] else []) + Select(rows[1..], p)
  }

  function Cells(r: Row, names: seq<string>): (vs: seq<string>)
    ensures |vs| == |names| && forall i | 0 <= i < |names| :: vs[i] == r.Get(names[i])
  {
    seq(|names|, i requires 0 <= i < |names| => r.Get(names[i]))
  }

  /** The text of a row that is searched. */
  function Values(cfg: Listing, r: Row): seq<string> {
    Cells(r, cfg.searchFields) + (match cfg.digitsField case None => [] case Some(f) => [r.Get(f)])
  }

  /** The or-filters of one SQL query: a search field like %term%, the phone like %digits%, the title like prefix%. */
  predicate Fits(cfg: Listing, digits: string, term: string, prefix: Option<string>, r: Row) {
    || (exists f | f in cfg.searchFields :: Contains(r.Get(f), term))
    || (prefix.Some? && prefix.value <= r.Get(cfg.titleField))
    || (cfg.digitsField.Some? && digits != "" && Contains(r.Get(cfg.digitsField.value), digits))
  }

  function Fetch(cfg: Listing, digits: string, table: seq<Row>, term: string, limit: nat,
                 prefix: Option<string>): seq<Row> {
    var hits := Select(table, r => Fits(cfg, digits, term, prefix, r));
    if |hits| <= limit then hits else hits[..limit]
  }

  ghost predicate Passes(cls: Classes, cfg: Listing, q: string, typos: bool, r: Row) {
    Kept(cls, Values(cfg, r), q, typos)
  }

  /** search_logic.refine before its sort. */
  ghost function Refined(cls: Classes, cfg: Listing, rows: seq<Row>, q: string, typos: bool): seq<Row> {
    Select(rows, r => Passes(cls, cfg, q, typos, r))
  }

  method Refine(cls: Classes, cfg: Listing, rows: seq<Row>, q: string, typos: bool) returns (kept: seq<Row>)
    ensures kept == Refined(cls, cfg, rows, q, typos)
  {
    kept := [];
    for i := |rows| downto 0
      invariant kept == Refined(cls, cfg, rows[i..], q, typos)
    {
      var yes := Matches(cls, Values(cfg, rows[i]), q, typos);
      assert rows[i..][1..] == rows[i + 1..];
      if yes { kept := [rows[i]] + kept; }
    }
  }

  function Names(rows: seq<Row>): set<string> {
    set r | r in rows :: r.name
  }

  /** Rows not yet seen, added at the end. */
  function AddNew(candidates: seq<Row>, rows: seq<Row>): seq<Row>
    decreases |rows|
  {
    if rows == [] then candidates
    else AddNew(if rows[0].name in Names(candidates) then candidates else candidates + [rows[0]], rows[1..])
  }

  function Candidates(cfg: Listing, digits: string, table: seq<Row>, fragments: seq<string>, limit: nat,
                      letter: string): seq<Row> {
    if fragments == [] then []
    else
      var n := |fragments| - 1;
      AddNew(Candidates(cfg, digits, table, fragments[..n], limit, letter),
             Fetch(cfg, digits, table, fragments[n], limit, if n == 0 then Some(letter) else None))
  }

  ghost function Found(cls: Classes, cfg: Listing, table: seq<Row>, q: string, window: nat): seq<Row> {
    var t := SqlTerm(cls, q);
    var exact := Refined(cls, cfg, Fetch(cfg, Digits(cls, q), table, t, window, None), q, false);
    if exact != [] || FuzzyFragments(cls, q) == [] then exact
    else Refined(cls, cfg, Candidates(cfg, Digits(cls, q), table, FuzzyFragments(cls, q), window * 2, t[..1]), q, true)
  }

  ghost predicate Reorders(sort: seq<Row> -> seq<Row>) {
    forall rows :: multiset(sort(rows)) == multiset(rows)
  }

  method AddUnseen(candidates: seq<Row>, seen: set<string>, rows: seq<Row>) returns (candidates': seq<Row>,
                   seen': set<string>)
    requires seen == Names(candidates)
    ensures candidates' == AddNew(candidates, rows) && seen' == Names(candidates')
  {
    candidates', seen' := candidates, seen;
    for j := 0 to |rows|
      invariant seen' == Names(candidates')
      invariant AddNew(candidates', rows[j..]) == AddNew(candidates, rows)
    {
      assert rows[j..][1..] == rows[j + 1..];
      if rows[j].name !in seen' {
        seen' := seen' + {rows[j].name};
        candidates' := candidates' + [rows[j]];
      }
    }
  }

  lemma CandidatesMore(cfg: Listing, digits: string, table: seq<Row>, fragments: seq<string>, i: nat, limit: nat,
                       letter: string)
    requires i < |fragments|
    ensures Candidates(cfg, digits, table, fragments[..i + 1], limit, letter)
            == AddNew(Candidates(cfg, digits, table, fragments[..i], limit, letter),
                      Fetch(cfg, digits, table, fragments[i], limit, if i == 0 then Some(letter) else None))
  {
    assert fragments[..i + 1][..i] == fragments[..i] && fragments[..i + 1][i] == fragments[i];
  }

  /** The typo retry: rows sharing any piece of the word, or whose title starts with its first letter. */
  method Retry(cfg: Listing, digits: string, table: seq<Row>, fragments: seq<string>, limit: nat,
               letter: string) returns (candidates: seq<Row>)
    ensures candidates == Candidates(cfg, digits, table, fragments, limit, letter)
  {
    var seen: set<string> := {};
    candidates := [];
    for i := 0 to |fragments|
      invariant seen == Names(candidates)
      invariant candidates == Candidates(cfg, digits, table, fragments[..i], limit, letter)
    {
      CandidatesMore(cfg, digits, table, fragments, i, limit, letter);
      candidates, seen := AddUnseen(candidates, seen,
                                    Fetch(cfg, digits, table, fragments[i], limit, if i == 0 then Some(letter)
                                        else None));
    }
    assert fragments[..|fragments|] == fragments;
  }

  /** The exact matches or, when there are none, those of the typo retry; ranked. */
  method Ranked(cls: Classes, cfg: Listing, table: seq<Row>, q: string, window: nat, sort: seq<Row> -> seq<Row>)
    returns (ranked: seq<Row>)
    requires Reorders(sort) && Terms(cls, q) != []
    ensures ranked == sort(Found(cls, cfg, table, q, window))
  {
    var d, t := Digits(cls, q), SqlTerm(cls, q);
    var kept := Refine(cls, cfg, Fetch(cfg, d, table, t, window, None), q, false);
    ranked := sort(kept);
    assert |multiset(ranked)| == |ranked| && |multiset(kept)| == |kept|;
    var fragments := FuzzyFragments(cls, q);
    if ranked == [] && fragments != [] {
      var candidates := Retry(cfg, d, table, fragments, window * 2, t[..1]);
      kept := Refine(cls, cfg, candidates, q, true);
      ranked := sort(kept);
    }
  }

  /** rows[start:start + length] */
  method Slice(rows: seq<Row>, start: nat, length: nat) returns (page: seq<Row>)
    ensures |page| == (if |rows| <= start then 0 else if |rows| - start <= length then |rows| - start else length)
    ensures forall i | 0 <= i < |page| :: page[i] == rows[start + i]
  {
    if start >= |rows| {
      return [];
    }
    return rows[start..if start + length <= |rows| then start + length else |rows|];
  }

  /**
   * smart_list.smart_get_all; `sort` is the ranking, of which only that it reorders rows is used. Row i of the page is
   * row start + i of the table or, with a query, of the ranked result, as far as there is one.
   */
  method SmartGetAll(cls: Classes, cfg: Listing, table: seq<Row>, q: string, start: nat, length: nat,
                     sort: seq<Row> -> seq<Row>)
    returns (page: seq<Row>, more: bool)
    requires Reorders(sort)
    requires length >= 1
    ensures Terms(cls, q) == [] ==>
              && |page| == (if |table| <= start then 0 else if |table| - start <= length then |table| - start
                  else length)
              && (forall i | 0 <= i < |page| :: page[i] == table[start + i])
              && more == (|page| == length)
    ensures Terms(cls, q) != [] ==>
              var ranked := sort(Found(cls, cfg, table, q, 5 * (start + length)));
              && |page| == (if |ranked| <= start then 0 else if |ranked| - start <= length then |ranked| - start
                  else length)
              && (forall i | 0 <= i < |page| :: page[i] == ranked[start + i])
              && more == (|ranked| > start + length)
  {
    if Terms(cls, q) == [] {
      page := Slice(table, start, length);
      return page, |page| == length;
    }
    var window := (start + length) * WINDOW;
    assert window == 5 * (start + length);
    var ranked := Ranked(cls, cfg, table, q, window, sort);
    page := Slice(ranked, start, length);
    return page, |ranked| > start + length;
  }

  function Joined(pages: seq<seq<Row>>): seq<Row> {
    if pages == [] then [] else Joined(pages[..|pages| - 1]) + pages[|pages| - 1]
  }

  /** Where page n starts, counted from 0. */
  function PageStart(n: nat, length: nat): nat {
    if n == 0 then 0 else PageStart(n - 1, length) + length
  }

  /** Page n is what there is of the rows from its start on, up to a page's length. */
  ghost predicate Pages(rows: seq<Row>, length: nat, pages: seq<seq<Row>>) {
    forall n | 0 <= n < |pages| ::
      && |pages[n]| == (if |rows| <= PageStart(n, length) then 0
                        else if |rows| - PageStart(n, length) <= length then |rows| - PageStart(n, length)
                        else length)
      && forall i | 0 <= i < |pages[n]| :: pages[n][i] == rows[PageStart(n, length) + i]
  }

  lemma FewerPages(rows: seq<Row>, length: nat, pages: seq<seq<Row>>)
    requires Pages(rows, length, pages) && pages != []
    ensures Pages(rows, length, pages[..|pages| - 1])
  {
  }

  /** Pages of one length put behind each other, from the first to one past the end, are the whole result. */
  lemma {:induction false} PagesJoin(rows: seq<Row>, length: nat, pages: seq<seq<Row>>)
    requires Pages(rows, length, pages)
    ensures Joined(pages)
         == if |rows| <= PageStart(|pages|, length) then rows else rows[..PageStart(|pages|, length)]
  {
    if pages != [] {
      var m := |pages| - 1;
      FewerPages(rows, length, pages);
      PagesJoin(rows, length, pages[..m]);
      OnePageMore(rows, PageStart(m, length), length, Joined(pages[..m]), pages[m]);
    }
  }

  lemma OnePageMore(rows: seq<Row>, start: nat, length: nat, before: seq<Row>, page: seq<Row>)
    requires before == if |rows| <= start then rows else rows[..start]
    requires |page| == if |rows| <= start then 0 else if |rows| - start <= length then |rows| - start else length
    requires forall i | 0 <= i < |page| :: page[i] == rows[start + i]
    ensures before + page == if |rows| <= start + length then rows else rows[..start + length]
  {
  }

  // ---- what SQL returns ----

  function Later(at: seq<nat>): (later: seq<nat>)
    ensures |later| == |at| && forall i | 0 <= i < |at| :: later[i] == at[i] + 1
  {
    seq(|at|, i requires 0 <= i < |at| => at[i] + 1)
  }

  /** The places of the rows that pass. */
  function Places(rows: seq<Row>, p: Row -> bool): seq<nat> {
    if rows == [] then [] else (if p(rows[0]) then [0] else []) + Later(Places(rows[1..], p))
  }

  lemma {:induction false} PlacesPass(rows: seq<Row>, p: Row -> bool)
    ensures forall k :: k in Places(rows, p) <==> 0 <= k < |rows| && p(rows[k])
  {
    if rows != [] {
      var rest := Places(rows[1..], p);
      PlacesPass(rows[1..], p);
      forall k
        ensures k in Places(rows, p) <==> 0 <= k < |rows| && p(rows[k])
      {
        InLater(rest, k);
        if 0 < k < |rows| { assert rows[1..][k - 1] == rows[k]; }
      }
    }
  }

  lemma InLater(at: seq<nat>, k: int)
    ensures k in Later(at) <==> k > 0 && k - 1 in at
  {
    if k > 0 && k - 1 in at {
      var i :| 0 <= i < |at| && at[i] == k - 1;
      assert Later(at)[i] == k;
    }
  }

  lemma {:induction false} PlacesAscend(rows: seq<Row>, p: Row -> bool)
    ensures forall i, j | 0 <= i < j < |Places(rows, p)| :: Places(rows, p)[i] < Places(rows, p)[j]
  {
    if rows != [] { PlacesAscend(rows[1..], p); }
  }

  /** These rows are at these places. */
  ghost predicate AtPlaces(kept: seq<Row>, rows: seq<Row>, at: seq<nat>) {
    |kept| == |at| && forall i | 0 <= i < |at| :: at[i] < |rows| && kept[i] == rows[at[i]]
  }

  lemma AtLater(kept: seq<Row>, rows: seq<Row>, at: seq<nat>)
    requires rows != [] && AtPlaces(kept, rows[1..], at)
    ensures AtPlaces(kept, rows, Later(at)) && AtPlaces([rows[0]] + kept, rows, [0] + Later(at))
  {
    forall i | 0 <= i < |at|
      ensures at[i] + 1 < |rows| && kept[i] == rows[at[i] + 1]
    {
      assert rows[1..][at[i]] == rows[at[i] + 1];
    }
  }

  lemma {:induction false} SelectAtPlaces(rows: seq<Row>, p: Row -> bool)
    ensures AtPlaces(Select(rows, p), rows, Places(rows, p))
  {
    if rows != [] {
      SelectAtPlaces(rows[1..], p);
      AtLater(Select(rows[1..], p), rows, Places(rows[1..], p));
      assert [] + Later(Places(rows[1..], p)) == Later(Places(rows[1..], p));
      assert [] + Select(rows[1..], p) == Select(rows[1..], p);
    }
  }

  /** The rows kept, in their order: at increasing places, exactly those that pass. */
  lemma SelectInOrder(rows: seq<Row>, p: Row -> bool) returns (at: seq<nat>)
    ensures |at| == |Select(rows, p)| && forall i, j | 0 <= i < j < |at| :: at[i] < at[j]
    ensures forall k :: k in at <==> 0 <= k < |rows| && p(rows[k])
    ensures forall i | 0 <= i < |at| :: at[i] < |rows| && Select(rows, p)[i] == rows[at[i]]
  {
    at := Places(rows, p);
    PlacesPass(rows, p);
    PlacesAscend(rows, p);
    SelectAtPlaces(rows, p);
  }

  /**
   * One query, row limits apart, returns the rows in which a search field holds the text, the title starts with the
   * prefix, or the phone holds all the digits typed, when those are four or more.
   */
  lemma FetchedExactly(cls: Classes, cfg: Listing, q: string, table: seq<Row>, term: string, limit: nat,
                       prefix: Option<string>, r: Row)
    requires |table| <= limit
    ensures r in Fetch(cfg, Digits(cls, q), table, term, limit, prefix) <==>
              r in table
              && ((exists f :: f in cfg.searchFields && Contains(r.Get(f), term))
                  || (prefix.Some? && prefix.value <= r.Get(cfg.titleField))
                  || (cfg.digitsField.Some? && |Filter(q, cls.digit)| >= 4
                      && Contains(r.Get(cfg.digitsField.value), Filter(q, cls.digit))))
  {
  }

  /** A row limit cuts off the last rows that fit. */
  lemma FetchedFirst(cfg: Listing, digits: string, table: seq<Row>, term: string, limit: nat, prefix: Option<string>)
    ensures var all := Fetch(cfg, digits, table, term, |table|, prefix);
            var some := Fetch(cfg, digits, table, term, limit, prefix);
            some <= all && |some| == if |all| <= limit then |all| else limit
  {
  }

  // ---- narrowing loses nothing ----

  predicate DistinctNames(rows: seq<Row>) {
    forall i, j | 0 <= i < j < |rows| :: rows[i].name != rows[j].name
  }

  /** A listing that also checks a phone column it does not search. */
  predicate PhoneListing(cfg: Listing) {
    cfg.digitsField.Some? && cfg.digitsField.value !in cfg.searchFields
  }

  /** What a caller can check: names are keys, and a phone column that is not searched holds no letters. */
  predicate Searchable(cls: Classes, cfg: Listing, table: seq<Row>) {
    && DistinctNames(table)
    && (PhoneListing(cfg) ==> forall r | r in table :: forall c | c in r.Get(cfg.digitsField.value) :: !cls.Letter(c))
  }

  /** The word is no phone number: SQL does not narrow by its digits, nor are rows checked by them. */
  predicate FewDigits(cls: Classes, t: string) {
    |Filter(t, cls.digit)| < 4
  }

  predicate HasLetter(cls: Classes, t: string) {
    exists c | c in t :: cls.Letter(c)
  }

  /** A word of which a typo can leave a word without letters: it has none, or only the one mistaken. */
  predicate DropsLetters(cls: Classes, t: string) {
    exists k | 0 <= k < |t| :: WordBut(cls, t, k) && forall i | 0 <= i < |t| && i != k :: !cls.Letter(t[i])
  }

  /** A longest word by which narrowing keeps every exact match. */
  predicate NarrowsExact(cls: Classes, cfg: Listing, t: string) {
    FewDigits(cls, t) && (PhoneListing(cfg) ==> HasLetter(cls, t))
  }

  /** A longest word whose pieces keep every match with a typo; a word of fewer than four letters allows none. */
  predicate NarrowsTypos(cls: Classes, cfg: Listing, t: string) {
    |t| < 4 || (!BreaksPieces(cls, t) && (PhoneListing(cfg) ==> !DropsLetters(cls, t)))
  }

  lemma EditKeepsLetter(cls: Classes, t: string, x: string)
    requires OneEdit(t, x) && HasLetter(cls, t) && (t == x || (AllWord(cls, x) && !DropsLetters(cls, t)))
    ensures HasLetter(cls, x)
  {
    if !HasLetter(cls, x) {
      var p := c => cls.word(c) && !cls.Letter(c);
      if k: nat :| SubstituteAt(t, x, k) {
        WhatIsLeft(t, x, k, k + 1, k + 1, p);
        assert WordBut(cls, t, k);
      } else if k: nat :| InsertAt(t, x, k) {
        WhatIsLeft(t, x, k, k, k + 1, p);
      } else if k: nat :| InsertAt(x, t, k) {
        WhatIsLeft(t, x, k, k + 1, k, p);
        assert WordBut(cls, t, k);
      } else {
        var k: nat :| SwapAt(t, x, k);
        SwapLeavesAll(t, x, k, p);
      }
      assert false;
    }
  }

  lemma LetterOfSlice(s: string, x: string, c: char)
    requires Contains(s, x) && c in x
    ensures c in s
  {
    var at: nat :| at <= |s| && OccursAt(s, x, at);
    var i :| 0 <= i < |x| && x[i] == c;
    assert s[at + i] == c;
  }

  lemma TermIsPlain(cls: Classes, q: string, w: string)
    requires cls.Valid() && w in Terms(cls, q)
    ensures w != "" && ' ' !in w
  {
    RunsInside(q, c => !cls.space(c));
    assert w in Runs(q, c => !cls.space(c));
  }

  /**
   * A text without spaces in a row's values lies in one of its search fields; beside a phone column it takes a letter.
   */
  lemma InSearchField(cls: Classes, cfg: Listing, table: seq<Row>, r: Row, x: string)
    requires cls.Valid() && Searchable(cls, cfg, table) && r in table
    requires x != "" && ' ' !in x && Contains(Hay(Values(cfg, r)), x)
    requires PhoneListing(cfg) ==> HasLetter(cls, x)
    ensures exists f :: f in cfg.searchFields && Contains(r.Get(f), x)
  {
    InOneField(Values(cfg, r), x);
    var v :| v in Values(cfg, r) && Contains(v, x);
    if v in Cells(r, cfg.searchFields) {
      var i :| 0 <= i < |cfg.searchFields| && v == Cells(r, cfg.searchFields)[i];
      assert cfg.searchFields[i] in cfg.searchFields;
    } else if PhoneListing(cfg) {
      var c :| c in x && cls.Letter(c);
      LetterOfSlice(v, x, c);
    }
  }

  /** A row that passes exactly holds the longest word in a search field. */
  lemma ExactFits(cls: Classes, cfg: Listing, table: seq<Row>, q: string, r: Row)
    requires cls.Valid() && Searchable(cls, cfg, table) && r in table
    requires Terms(cls, q) != [] && NarrowsExact(cls, cfg, SqlTerm(cls, q))
    requires Passes(cls, cfg, q, false, r)
    ensures Fits(cfg, Digits(cls, q), SqlTerm(cls, q), None, r)
  {
    var t := SqlTerm(cls, q);
    TermIsPlain(cls, q, t);
    assert WordFound(cls, Hay(Values(cfg, r)), t, false);
    InSearchField(cls, cfg, table, r, t);
  }

  /** A row that passes with a typo holds a piece of the longest word in a search field. */
  lemma TypoHasPiece(cls: Classes, cfg: Listing, table: seq<Row>, q: string, r: Row) returns (piece: string)
    requires cls.Valid() && Searchable(cls, cfg, table) && r in table
    requires Terms(cls, q) != [] && |SqlTerm(cls, q)| >= 4
    requires NarrowsExact(cls, cfg, SqlTerm(cls, q)) && NarrowsTypos(cls, cfg, SqlTerm(cls, q))
    requires Passes(cls, cfg, q, true, r)
    ensures piece in FuzzyFragments(cls, q) && Fits(cfg, Digits(cls, q), piece, None, r)
  {
    var t := SqlTerm(cls, q);
    TermIsPlain(cls, q, t);
    var hay := Hay(Values(cfg, r));
    assert WordFound(cls, hay, t, true);
    var x := t;
    if !Contains(hay, t) {
      x :| x in Runs(hay, cls.word) && OneEdit(t, x);
      RunsInside(hay, cls.word);
    }
    assert OneEdit(t, x) && Contains(hay, x) && ' ' !in x;
    if PhoneListing(cfg) { EditKeepsLetter(cls, t, x); }
    InSearchField(cls, cfg, table, r, x);
    EditLeavesPiece(cls, t, x);
    piece :| piece in Pieces(t) && Contains(x, piece);
    var f :| f in cfg.searchFields && Contains(r.Get(f), x);
    ContainsTransitive(r.Get(f), x, piece);
    DistinctKeeps(Pieces(t));
  }

  lemma {:induction false} DistinctKeeps(words: seq<string>)
    ensures forall w :: w in Distinct(words) <==> w in words
  {
    if words != [] {
      var n := |words| - 1;
      DistinctKeeps(words[..n]);
      assert words == words[..n] + [words[n]];
    }
  }

  /** Words of fewer than four letters allow no typo, so a retry could find nothing more. */
  lemma ShortWordsAllowNoTypo(cls: Classes, cfg: Listing, q: string, r: Row)
    requires Terms(cls, q) != [] && |SqlTerm(cls, q)| < 4
    ensures Passes(cls, cfg, q, true, r) <==> Passes(cls, cfg, q, false, r)
  {
    forall w | w in Terms(cls, q)
      ensures WordFound(cls, Hay(Values(cfg, r)), w, true) == WordFound(cls, Hay(Values(cfg, r)), w, false)
    {
      assert |w| < 4;
    }
  }

  lemma {:induction false} SelectSelect(rows: seq<Row>, p: Row -> bool, k: Row -> bool)
    requires forall r | r in rows && k(r) :: p(r)
    ensures Select(Select(rows, p), k) == Select(rows, k)
  {
    if rows != [] {
      SelectSelect(rows[1..], p, k);
      var tail := Select(rows[1..], p);
      if p(rows[0]) {
        assert ([rows[0]] + tail)[1..] == tail;
      } else {
        assert [] + tail == tail;
      }
    }
  }

  lemma {:induction false} SelectDistinct(rows: seq<Row>, p: Row -> bool)
    requires DistinctNames(rows)
    ensures DistinctNames(Select(rows, p))
  {
    if rows != [] {
      SelectDistinct(rows[1..], p);
      var tail := Select(rows[1..], p);
      forall r | r in tail
        ensures r.name != rows[0].name
      {
        assert r in rows[1..];
      }
    }
  }

  lemma AddOne(table: seq<Row>, candidates: seq<Row>, row: Row)
    requires DistinctNames(table) && DistinctNames(candidates) && row in table
             && forall r | r in candidates :: r in table
    ensures var next := if row.name in Names(candidates) then candidates else candidates + [row];
            DistinctNames(next) && forall r :: r in next <==> r in candidates || r == row
  {
    if row.name in Names(candidates) {
      var r :| r in candidates && r.name == row.name;
      assert r in table;
    } else {
      forall r | r in candidates
        ensures r.name != row.name
      {
        assert r.name in Names(candidates);
      }
    }
  }

  lemma AddNewStep(candidates: seq<Row>, rows: seq<Row>)
    requires rows != []
    ensures AddNew(candidates, rows)
         == AddNew(if rows[0].name in Names(candidates) then candidates else candidates + [rows[0]], rows[1..])
  {
  }

  lemma FirstOrRest(rows: seq<Row>)
    requires rows != []
    ensures forall r :: r in rows <==> r == rows[0] || r in rows[1..]
  {
    assert rows == [rows[0]] + rows[1..];
  }

  /** AddNew keeps names distinct and, when both sides come from a table with distinct names, is their union. */
  lemma {:induction false} AddNewUnion(table: seq<Row>, candidates: seq<Row>, rows: seq<Row>)
    requires DistinctNames(table) && DistinctNames(candidates)
    requires (forall r | r in candidates :: r in table) && (forall r | r in rows :: r in table)
    ensures DistinctNames(AddNew(candidates, rows))
    ensures forall r :: r in AddNew(candidates, rows) <==> r in candidates || r in rows
    decreases |rows|
  {
    if rows != [] {
      var row, rest := rows[0], rows[1..];
      var next := if row.name in Names(candidates) then candidates else candidates + [row];
      AddOne(table, candidates, row);
      FirstOrRest(rows);
      AddNewUnion(table, next, rest);
      AddNewStep(candidates, rows);
    }
  }

  lemma FetchHasAll(cfg: Listing, digits: string, table: seq<Row>, term: string, limit: nat, prefix: Option<string>,
                    r: Row)
    requires |table| <= limit && r in table && Fits(cfg, digits, term, None, r)
    ensures r in Fetch(cfg, digits, table, term, limit, prefix)
  {
    assert Fits(cfg, digits, term, prefix, r);
  }

  lemma FetchFromTable(cfg: Listing, digits: string, table: seq<Row>, term: string, limit: nat, prefix: Option<string>)
    ensures forall r | r in Fetch(cfg, digits, table, term, limit, prefix) :: r in table
  {
  }

  /** Candidates from a table with distinct names, holding every row that fits one of the fragments. */
  ghost predicate Gathered(cfg: Listing, digits: string, table: seq<Row>, fragments: seq<string>, cs: seq<Row>) {
    && DistinctNames(cs)
    && (forall r | r in cs :: r in table)
    && forall r, f | r in table && f in fragments && Fits(cfg, digits, f, None, r) :: r in cs
  }

  lemma GatherMore(cfg: Listing, digits: string, table: seq<Row>, fragments: seq<string>, cs: seq<Row>, limit: nat,
                   prefix: Option<string>)
    requires DistinctNames(table) && |table| <= limit && fragments != []
    requires Gathered(cfg, digits, table, fragments[..|fragments| - 1], cs)
    ensures Gathered(cfg, digits, table, fragments,
                     AddNew(cs, Fetch(cfg, digits, table, fragments[|fragments| - 1], limit, prefix)))
  {
    var n := |fragments| - 1;
    var rows := Fetch(cfg, digits, table, fragments[n], limit, prefix);
    FetchFromTable(cfg, digits, table, fragments[n], limit, prefix);
    AddNewUnion(table, cs, rows);
    forall r, f | r in table && f in fragments && Fits(cfg, digits, f, None, r)
      ensures r in AddNew(cs, rows)
    {
      assert f in fragments[..n] || f == fragments[n];
      if f == fragments[n] { FetchHasAll(cfg, digits, table, f, limit, prefix, r); }
    }
  }

  lemma {:induction false} CandidatesUnion(cfg: Listing, digits: string, table: seq<Row>, fragments: seq<string>,
                                           limit: nat, letter: string)
    requires DistinctNames(table) && |table| <= limit
    ensures Gathered(cfg, digits, table, fragments, Candidates(cfg, digits, table, fragments, limit, letter))
  {
    if fragments != [] {
      var n := |fragments| - 1;
      CandidatesUnion(cfg, digits, table, fragments[..n], limit, letter);
      GatherMore(cfg, digits, table, fragments, Candidates(cfg, digits, table, fragments[..n], limit, letter), limit,
                 if n == 0 then Some(letter) else None);
    }
  }

  lemma {:induction false} CountDistinct(rows: seq<Row>, r: Row)
    requires DistinctNames(rows)
    ensures multiset(rows)[r] == if r in rows then 1 else 0
  {
    if rows != [] {
      CountDistinct(rows[1..], r);
      assert rows == [rows[0]] + rows[1..];
    }
  }

  lemma SameRows(a: seq<Row>, b: seq<Row>)
    requires DistinctNames(a) && DistinctNames(b) && forall r :: r in a <==> r in b
    ensures multiset(a) == multiset(b)
  {
    forall r
      ensures multiset(a)[r] == multiset(b)[r]
    {
      CountDistinct(a, r);
      CountDistinct(b, r);
    }
  }

  /** Each row comes after those before it, unless its name has come already. */
  lemma {:induction false} AddNewLast(candidates: seq<Row>, rows: seq<Row>, r: Row)
    ensures candidates <= AddNew(candidates, rows)
    ensures var before := AddNew(candidates, rows);
            AddNew(candidates, rows + [r]) == if (exists c :: c in before && c.name == r.name) then before
                else before + [r]
    decreases |rows|
  {
    if rows == [] {
      assert [] + [r] == [r] && [r][1..] == [];
      AddNewStep(candidates, [r]);
    } else {
      var next := if rows[0].name in Names(candidates) then candidates else candidates + [rows[0]];
      AddNewLast(next, rows[1..], r);
      AddNewStep(candidates, rows);
      assert (rows + [r])[1..] == rows[1..] + [r];
      AddNewStep(candidates, rows + [r]);
    }
  }

  /** A candidate was returned for one of the fragments, or with the first of them for its title. */
  lemma {:induction false} CandidateFits(cfg: Listing, digits: string, table: seq<Row>, fragments: seq<string>,
                                         limit: nat, letter: string, r: Row)
    requires r in Candidates(cfg, digits, table, fragments, limit, letter)
    ensures r in table && fragments != []
    ensures letter <= r.Get(cfg.titleField) || exists f :: f in fragments && Fits(cfg, digits, f, None, r)
  {
    var n := |fragments| - 1;
    var before := Candidates(cfg, digits, table, fragments[..n], limit, letter);
    if r in before {
      CandidateFits(cfg, digits, table, fragments[..n], limit, letter, r);
    } else {
      AddedFrom(before, Fetch(cfg, digits, table, fragments[n], limit, if n == 0 then Some(letter) else None), r);
      FetchFromTable(cfg, digits, table, fragments[n], limit, if n == 0 then Some(letter) else None);
      assert fragments[n] in fragments;
    }
  }

  lemma {:induction false} AddedFrom(candidates: seq<Row>, rows: seq<Row>, r: Row)
    requires r in AddNew(candidates, rows)
    ensures r in candidates || r in rows
    decreases |rows|
  {
    if rows != [] {
      var next := if rows[0].name in Names(candidates) then candidates else candidates + [rows[0]];
      AddedFrom(next, rows[1..], r);
    }
  }

  /** A row whose title starts with the letter is among the first rows fetched, and stays. */
  lemma {:induction false} TitleIsCandidate(cfg: Listing, digits: string, table: seq<Row>, fragments: seq<string>,
                                            limit: nat, letter: string, r: Row)
    requires DistinctNames(table) && |table| <= limit && r in table && fragments != []
    requires letter <= r.Get(cfg.titleField)
    ensures r in Candidates(cfg, digits, table, fragments, limit, letter)
  {
    var n := |fragments| - 1;
    var before := Candidates(cfg, digits, table, fragments[..n], limit, letter);
    var rows := Fetch(cfg, digits, table, fragments[n], limit, if n == 0 then Some(letter) else None);
    CandidatesUnion(cfg, digits, table, fragments[..n], limit, letter);
    FetchFromTable(cfg, digits, table, fragments[n], limit, if n == 0 then Some(letter) else None);
    AddNewUnion(table, before, rows);
    if n > 0 { TitleIsCandidate(cfg, digits, table, fragments[..n], limit, letter, r); }
  }

  lemma CandidatesAre(cfg: Listing, digits: string, table: seq<Row>, fragments: seq<string>, limit: nat,
                      letter: string, r: Row)
    requires DistinctNames(table) && |table| <= limit && fragments != []
    ensures r in Candidates(cfg, digits, table, fragments, limit, letter) <==>
              r in table
              && (letter <= r.Get(cfg.titleField) || exists f :: f in fragments && Fits(cfg, digits, f, None, r))
  {
    CandidatesUnion(cfg, digits, table, fragments, limit, letter);
    if r in Candidates(cfg, digits, table, fragments, limit, letter) {
      CandidateFits(cfg, digits, table, fragments, limit, letter, r);
    } else if r in table && letter <= r.Get(cfg.titleField) {
      TitleIsCandidate(cfg, digits, table, fragments, limit, letter, r);
    }
  }

  lemma FragmentsFit(cls: Classes, cfg: Listing, q: string, r: Row)
    requires Terms(cls, q) != [] && |SqlTerm(cls, q)| >= 4
    ensures FuzzyFragments(cls, q) != []
    ensures var t := SqlTerm(cls, q);
            (exists piece :: piece in FuzzyFragments(cls, q) && Fits(cfg, Digits(cls, q), piece, None, r)) <==>
              || (exists f :: f in cfg.searchFields
                    && (Contains(r.Get(f), t[..3]) || Contains(r.Get(f), t[|t| / 2 - 1..|t| / 2 + 2])
                        || Contains(r.Get(f), t[|t| - 3..])))
              || (cfg.digitsField.Some? && |Filter(q, cls.digit)| >= 4
                  && Contains(r.Get(cfg.digitsField.value), Filter(q, cls.digit)))
  {
    var t, pieces := SqlTerm(cls, q), Pieces(SqlTerm(cls, q));
    DistinctKeeps(pieces);
    assert pieces == [t[..3], t[|t| / 2 - 1..|t| / 2 + 2], t[|t| - 3..]];
    assert pieces[0] in FuzzyFragments(cls, q) && pieces[1] in FuzzyFragments(cls, q)
           && pieces[2] in FuzzyFragments(cls, q);
  }

  /**
   * The retry, row limits apart, looks at exactly the rows in which a search field holds the start, the middle or the
   * end of the longest word, three letters each, the title starts with its first letter, or the phone holds all the
   * digits typed.
   */
  lemma CandidatesExactly(cls: Classes, cfg: Listing, q: string, table: seq<Row>, limit: nat, r: Row)
    requires DistinctNames(table) && |table| <= limit && Terms(cls, q) != [] && |SqlTerm(cls, q)| >= 4
    ensures var t := SqlTerm(cls, q);
            r in Candidates(cfg, Digits(cls, q), table, FuzzyFragments(cls, q), limit, t[..1]) <==>
              r in table
              && ((exists f :: f in cfg.searchFields
                     && (Contains(r.Get(f), t[..3]) || Contains(r.Get(f), t[|t| / 2 - 1..|t| / 2 + 2])
                         || Contains(r.Get(f), t[|t| - 3..])))
                  || t[..1] <= r.Get(cfg.titleField)
                  || (cfg.digitsField.Some? && |Filter(q, cls.digit)| >= 4
                      && Contains(r.Get(cfg.digitsField.value), Filter(q, cls.digit))))
  {
    FragmentsFit(cls, cfg, q, r);
    CandidatesAre(cfg, Digits(cls, q), table, FuzzyFragments(cls, q), limit, SqlTerm(cls, q)[..1], r);
  }

  lemma ExactNarrowing(cls: Classes, cfg: Listing, table: seq<Row>, q: string, window: nat)
    requires cls.Valid() && Searchable(cls, cfg, table) && |table| <= window
    requires Terms(cls, q) != [] && NarrowsExact(cls, cfg, SqlTerm(cls, q))
    ensures Refined(cls, cfg, Fetch(cfg, Digits(cls, q), table, SqlTerm(cls, q), window, None), q, false)
            == Refined(cls, cfg, table, q, false)
  {
    var t, d := SqlTerm(cls, q), Digits(cls, q);
    forall r | r in table && Passes(cls, cfg, q, false, r)
      ensures Fits(cfg, d, t, None, r)
    {
      ExactFits(cls, cfg, table, q, r);
    }
    SelectSelect(table, r => Fits(cfg, d, t, None, r), r => Passes(cls, cfg, q, false, r));
  }

  lemma TypoNarrowing(cls: Classes, cfg: Listing, table: seq<Row>, q: string, limit: nat)
    requires cls.Valid() && Searchable(cls, cfg, table) && |table| <= limit
    requires Terms(cls, q) != [] && |SqlTerm(cls, q)| >= 4
    requires NarrowsExact(cls, cfg, SqlTerm(cls, q)) && NarrowsTypos(cls, cfg, SqlTerm(cls, q))
    ensures var cs := Candidates(cfg, Digits(cls, q), table, FuzzyFragments(cls, q), limit, SqlTerm(cls, q)[..1]);
            multiset(Refined(cls, cfg, cs, q, true)) == multiset(Refined(cls, cfg, table, q, true))
  {
    var cs := Candidates(cfg, Digits(cls, q), table, FuzzyFragments(cls, q), limit, SqlTerm(cls, q)[..1]);
    CandidatesUnion(cfg, Digits(cls, q), table, FuzzyFragments(cls, q), limit, SqlTerm(cls, q)[..1]);
    forall r | r in table && Passes(cls, cfg, q, true, r)
      ensures r in cs
    {
      var piece := TypoHasPiece(cls, cfg, table, q, r);
    }
    SelectDistinct(table, r => Passes(cls, cfg, q, true, r));
    SelectDistinct(cs, r => Passes(cls, cfg, q, true, r));
    SameRows(Refined(cls, cfg, cs, q, true), Refined(cls, cfg, table, q, true));
  }

  lemma NoTypoForShortWords(cls: Classes, cfg: Listing, table: seq<Row>, q: string)
    requires Terms(cls, q) != [] && |SqlTerm(cls, q)| < 4
    ensures Refined(cls, cfg, table, q, true) == [] <==> Refined(cls, cfg, table, q, false) == []
  {
    var a, b := Refined(cls, cfg, table, q, true), Refined(cls, cfg, table, q, false);
    forall r { ShortWordsAllowNoTypo(cls, cfg, q, r); }
    assert forall r :: r in a <==> r in b;
    assert a != [] ==> a[0] in b;
    assert b != [] ==> b[0] in a;
  }

  /** What checking every row would find: the exact matches or, when there are none, those with a typo. */
  ghost function Matching(cls: Classes, cfg: Listing, table: seq<Row>, q: string): seq<Row> {
    var exact := Refined(cls, cfg, table, q, false);
    if exact != [] then exact else Refined(cls, cfg, table, q, true)
  }

  /** What checking fetched rows keeps, checking all would. */
  lemma NoneFetched(cls: Classes, cfg: Listing, table: seq<Row>, q: string, window: nat)
    requires Refined(cls, cfg, table, q, false) == []
    ensures Refined(cls, cfg, Fetch(cfg, Digits(cls, q), table, SqlTerm(cls, q), window, None), q, false) == []
  {
    FetchFromTable(cfg, Digits(cls, q), table, SqlTerm(cls, q), window, None);
    assert forall r | r in table :: Passes(cls, cfg, q, false, r) ==> r in Refined(cls, cfg, table, q, false);
    NonePass(Fetch(cfg, Digits(cls, q), table, SqlTerm(cls, q), window, None), r => Passes(cls, cfg, q, false, r));
  }

  lemma {:induction false} NonePass(rows: seq<Row>, p: Row -> bool)
    requires forall r | r in rows :: !p(r)
    ensures Select(rows, p) == []
  {
    if rows != [] {
      assert rows[0] in rows;
      NonePass(rows[1..], p);
    }
  }

  /** When nothing matches exactly, the retry finds what matches with a typo in a table of up to twice the rows. */
  lemma RetryLosesNothing(cls: Classes, cfg: Listing, table: seq<Row>, q: string, window: nat)
    requires cls.Valid() && Searchable(cls, cfg, table) && |table| <= 2 * window
    requires Terms(cls, q) != [] && NarrowsExact(cls, cfg, SqlTerm(cls, q)) && NarrowsTypos(cls, cfg, SqlTerm(cls, q))
    requires Refined(cls, cfg, table, q, false) == []
    ensures multiset(Found(cls, cfg, table, q, window)) == multiset(Matching(cls, cfg, table, q))
  {
    NoneFetched(cls, cfg, table, q, window);
    if |SqlTerm(cls, q)| < 4 {
      NoTypoForShortWords(cls, cfg, table, q);
    } else {
      TypoNarrowing(cls, cfg, table, q, window * 2);
      DistinctKeeps(Pieces(SqlTerm(cls, q)));
      assert Pieces(SqlTerm(cls, q))[0] in FuzzyFragments(cls, q);
    }
  }

  /**
   * The search box finds what checking every row of the table would find. Row limits apart, it takes a longest word
   * with fewer than four digits and, beside a phone column, a letter; when nothing matches exactly, also one whose
   * pieces keep every typo.
   */
  lemma NarrowingLosesNothing(cls: Classes, cfg: Listing, table: seq<Row>, q: string, window: nat)
    requires cls.Valid() && Searchable(cls, cfg, table) && |table| <= window
    requires Terms(cls, q) != [] && NarrowsExact(cls, cfg, SqlTerm(cls, q))
    requires Refined(cls, cfg, table, q, false) != [] || NarrowsTypos(cls, cfg, SqlTerm(cls, q))
    ensures multiset(Found(cls, cfg, table, q, window)) == multiset(Matching(cls, cfg, table, q))
  {
    ExactNarrowing(cls, cfg, table, q, window);
    if Refined(cls, cfg, table, q, false) == [] { RetryLosesNothing(cls, cfg, table, q, window); }
  }
}

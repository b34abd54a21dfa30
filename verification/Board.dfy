/** A board's cards and the calls that place them (api/boards.py: move_card, save_card for a new card, delete_card). */
module Board {
  import opened Text
  import opened Cards

  /** A name given in a request: missing and empty are the same. */
  predicate Given(n: Option<string>) { n.Some? && n.value != "" }

  function PositionOf(deck: Deck, n: Option<string>): Option<real> {
    if Given(n) && n.value in deck then Some(deck[n.value].position) else None
  }

  /** select max(position) from the shown cards of a list */
  function Highest(deck: Deck, names: seq<string>): (p: Option<real>)
    requires forall m | m in names :: m in deck
    ensures p.None? <==> names == []
    ensures p.Some? ==> forall m | m in names :: deck[m].position <= p.value
  {
    if names == [] then None
    else
      var rest := Highest(deck, names[1..]);
      var p := deck[names[0]].position;
      if rest.Some? && rest.value >= p then rest else Some(p)
  }

  /** select min(position) from the shown cards of a list above `than`, `name` left out */
  function LowestAbove(deck: Deck, names: seq<string>, than: real, name: string): (p: Option<real>)
    requires forall m | m in names :: m in deck
    ensures p.None? ==> forall m | m in names && m != name :: deck[m].position <= than
    ensures p.Some? ==> exists m :: m in names && m != name && deck[m].position == p.value > than
    ensures p.Some? ==> forall m | m in names && m != name && deck[m].position > than :: p.value <= deck[m].position
  {
    if names == [] then None
    else
      var rest := LowestAbove(deck, names[1..], than, name);
      var p := deck[names[0]].position;
      if names[0] == name || p <= than || (rest.Some? && rest.value <= p) then rest else Some(p)
  }

  /** boards._end_position */
  function EndPosition(deck: Deck, list: string, scan: seq<string>): real {
    Between(Highest(deck, Listed(deck, list, scan)), None)
  }

  /** The position move_card computes. */
  function NewPosition(deck: Deck, scan: seq<string>, list: string, name: string, before: Option<string>,
                       after: Option<string>): real {
    if !Given(before) && !Given(after) then EndPosition(deck, list, scan)
    else
      var b := PositionOf(deck, before);
      var a := if Given(before) && after.None? && b.Some?
          then LowestAbove(deck, Listed(deck, list, scan), b.value, name)
               else PositionOf(deck, after);
      Between(b, a)
  }

  /**
   * The neighbours a request names are the ones at place k of the order `o`; no neighbour means the end, `after`
   * alone the start.
   */
  predicate Names(o: seq<string>, before: Option<string>, after: Option<string>, k: nat) {
    && k <= |o|
    && (Given(before) ==> k > 0 && o[k - 1] == before.value)
    && (Given(after) ==> k < |o| && o[k] == after.value && (Given(before) || k == 0))
    && (Given(before) && after.Some? ==> Given(after))
    && (!Given(before) && !Given(after) ==> k == |o|)
  }

  /** Where the card goes lies strictly between its new neighbours. */
  lemma NewPositionFits(deck: Deck, scan: seq<string>, list: string, name: string, before: Option<string>,
                        after: Option<string>,
                        o: seq<string>, k: nat)
    requires (forall n | n in deck :: n in scan) && Ordered(deck, list, o, GAP)
    requires Names(Without(o, name), before, after, k)
    ensures FitsAt(deck, Without(o, name), k, NewPosition(deck, scan, list, name, before, after))
  {
    var rest := Without(o, name);
    WithoutIncreasing(deck, o, name, GAP);
    var listed := Listed(deck, list, scan);
    if !Given(before) && !Given(after) {
      EndFits(deck, rest, listed);
    } else if Given(before) && after.None? {
      NextFits(deck, rest, listed, name, k);
    }
  }

  /**
   * The position itself: halfway between two neighbours, half the first's at the start, 1024 past the card before at
   * the end; without neighbours named, 1024 past the last card of the list, or 1024 in an empty one.
   */
  lemma NewPositionExactly(deck: Deck, scan: seq<string>, list: string, name: string, before: Option<string>,
                           after: Option<string>, o: seq<string>, k: nat)
    requires (forall n | n in deck :: n in scan) && Ordered(deck, list, o, GAP)
    requires Names(Without(o, name), before, after, k)
    ensures var rest, p := Without(o, name), NewPosition(deck, scan, list, name, before, after);
            if !Given(before) && !Given(after) then
              p == (if o == [] then 0.0 else deck[o[|o| - 1]].position) + 1024.0
            else if k == 0 then p == deck[rest[0]].position / 2.0
            else if k == |rest| then p == deck[rest[k - 1]].position + 1024.0
            else p == (deck[rest[k - 1]].position + deck[rest[k]].position) / 2.0
  {
    var rest, listed := Without(o, name), Listed(deck, list, scan);
    WithoutIncreasing(deck, o, name, GAP);
    if !Given(before) && !Given(after) {
      HighestIsLast(deck, listed, o);
    } else if Given(before) && after.None? {
      NextIs(deck, rest, listed, name, k);
    }
  }

  /**
   * Whatever the request names, adjacent or not, still there or not: with a card after (an empty name counts as given
   * here) only the cards named decide; a name that is no card's counts as none.
   */
  lemma NamedPosition(deck: Deck, scan: seq<string>, list: string, name: string, before: Option<string>,
                      after: Option<string>)
    requires (Given(before) && after.Some?) || (!Given(before) && Given(after))
    ensures var p := NewPosition(deck, scan, list, name, before, after);
            var left, right := Given(before) && before.value in deck, Given(after) && after.value in deck;
            if left && right then p == (deck[before.value].position + deck[after.value].position) / 2.0
            else if left then p == deck[before.value].position + 1024.0
            else if right then p == deck[after.value].position / 2.0
            else p == 1024.0
  {
  }

  lemma HighestIsLast(deck: Deck, listed: seq<string>, o: seq<string>)
    requires Increasing(deck, o, GAP) && forall n :: n in o <==> n in listed
    ensures (forall n | n in listed :: n in deck)
            && Highest(deck, listed) == if o == [] then None else Some(deck[o[|o| - 1]].position)
  {
    SameEmpty(o, listed);
    if o != [] {
      assert o[|o| - 1] in o;
      HighestIsOne(deck, listed);
    }
  }

  lemma SameEmpty(a: seq<string>, b: seq<string>)
    requires forall n :: n in a <==> n in b
    ensures a == [] <==> b == []
  {
    if a != [] { assert a[0] in a; }
    if b != [] { assert b[0] in b; }
  }

  lemma {:induction false} HighestIsOne(deck: Deck, names: seq<string>)
    requires (forall m | m in names :: m in deck) && names != []
    ensures exists m :: m in names && Highest(deck, names) == Some(deck[m].position)
  {
    if |names| > 1 && Highest(deck, names[1..]).value >= deck[names[0]].position {
      HighestIsOne(deck, names[1..]);
    } else {
      assert names[0] in names;
    }
  }

  lemma NextIs(deck: Deck, rest: seq<string>, listed: seq<string>, name: string, k: nat)
    requires Increasing(deck, rest, GAP) && 0 < k <= |rest|
    requires (forall n | n in listed :: n in deck) && forall n :: n in rest <==> n in listed && n != name
    ensures LowestAbove(deck, listed, deck[rest[k - 1]].position, name)
            == if k == |rest| then None else Some(deck[rest[k]].position)
  {
    var b := deck[rest[k - 1]].position;
    var a := LowestAbove(deck, listed, b, name);
    if k < |rest| { assert rest[k] in rest; }
    if a.Some? {
      var m :| m in listed && m != name && deck[m].position == a.value > b;
      var i :| 0 <= i < |rest| && rest[i] == m;
      assert i >= k;
    }
  }

  lemma EndFits(deck: Deck, rest: seq<string>, listed: seq<string>)
    requires Increasing(deck, rest, GAP) && forall n | n in rest :: n in listed
    requires forall n | n in listed :: n in deck && deck[n].position > 0.0
    ensures FitsAt(deck, rest, |rest|, Between(Highest(deck, listed), None))
  {
    if rest != [] { assert rest[|rest| - 1] in rest; }
    if listed != [] { assert listed[0] in listed; }
  }

  lemma NextFits(deck: Deck, rest: seq<string>, listed: seq<string>, name: string, k: nat)
    requires Increasing(deck, rest, GAP) && 0 < k <= |rest|
    requires (forall n | n in listed :: n in deck) && forall n :: n in rest <==> n in listed && n != name
    ensures var b := deck[rest[k - 1]].position;
            FitsAt(deck, rest, k, Between(Some(b), LowestAbove(deck, listed, b, name)))
  {
    var b := deck[rest[k - 1]].position;
    var a := LowestAbove(deck, listed, b, name);
    assert rest[k - 1] in rest;
    if k < |rest| {
      assert rest[k] in rest;
      if a.Some? {
        var m :| m in listed && m != name && deck[m].position == a.value > b;
        var i :| 0 <= i < |rest| && rest[i] == m;
        assert i >= k;
      }
    }
  }

  /**
   * The card as move_card saves it: in its list, at its position, done when it comes to the done list and open when
   * it leaves it.
   */
  function Moved(c: Card, list: string, position: real, doneList: string): Card {
    Card(list, position, c.archived, if doneList == "" then c.done else list == doneList)
  }

  /** Every list has an order with proper gaps. */
  ghost predicate AllArranged(deck: Deck) {
    forall list :: HasOrder(deck, list)
  }

  ghost predicate HasOrder(deck: Deck, list: string) {
    exists o :: Arranged(deck, list, o)
  }

  lemma ListLoses(deck: Deck, deck': Deck, list: string, o: seq<string>, name: string)
    requires Arranged(deck, list, o)
    requires forall n :: Shown(deck', list, n) <==> Shown(deck, list, n) && n != name
    requires forall n | Shown(deck', list, n) :: deck'[n].position == deck[n].position
    ensures Arranged(deck', list, Without(o, name))
  {
    WithoutIncreasing(deck, o, name, GAP);
  }

  /** Scanning a table whose names are all different lists different positions, when the list has an order. */
  lemma {:induction false} ListedDistinct(deck: Deck, list: string, scan: seq<string>, o: seq<string>)
    requires Ordered(deck, list, o, 0.0) && forall i, j | 0 <= i < j < |scan| :: scan[i] != scan[j]
    ensures DistinctPositions(deck, Listed(deck, list, scan))
  {
    if scan != [] {
      ListedDistinct(deck, list, scan[1..], o);
      var rest := Listed(deck, list, scan[1..]);
      if Shown(deck, list, scan[0]) {
        forall j | 0 <= j < |rest|
          ensures deck[rest[j]].position != deck[scan[0]].position
        {
          assert rest[j] in rest;
          var k :| 0 <= k < |scan[1..]| && scan[1..][k] == rest[j];
          assert scan[k + 1] != scan[0];
          PositionsTell(deck, o, scan[0], rest[j]);
        }
      }
    }
  }

  lemma PositionsTell(deck: Deck, o: seq<string>, m: string, n: string)
    requires Increasing(deck, o, 0.0) && m in o && n in o && m != n
    ensures deck[m].position != deck[n].position
  {
    var i :| 0 <= i < |o| && o[i] == m;
    var j :| 0 <= j < |o| && o[j] == n;
    if i < j { assert deck[o[j]].position > deck[o[i]].position; }
        else { assert deck[o[i]].position > deck[o[j]].position; }
  }

  lemma SortedIsOrder(deck: Deck, list: string, scan: seq<string>, o: seq<string>)
    requires Ordered(deck, list, o, 0.0) && (forall n | n in deck :: n in scan)
    requires forall i, j | 0 <= i < j < |scan| :: scan[i] != scan[j]
    ensures Sorted(deck, Listed(deck, list, scan)) == o
  {
    ListedDistinct(deck, list, scan, o);
    SortedIncreasing(deck, Listed(deck, list, scan));
    OrderUnique(deck, Sorted(deck, Listed(deck, list, scan)), o);
  }

  /** What a move leaves alone: the other cards but for positions on the list, and everything off the list. */
  ghost predicate MovedOnly(was: Deck, now: Deck, name: string, list: string, doneList: string, o: seq<string>) {
    && now.Keys == was.Keys && name in was && now[name].list == list && now[name].archived == was[name].archived
    && now[name].done == (if doneList == "" then was[name].done else list == doneList)
    && (forall n | n in was && n != name :: now[n] == was[n].(position := now[n].position))
    && (forall n | n in was && n != name && n !in o :: now[n] == was[n])
  }

  /** The first `i` cards of an order at positions 1024, 2048, … */
  function Numbered(deck: Deck, o: seq<string>, i: nat): (out: Deck)
    requires i <= |o| && forall n | n in o :: n in deck
    ensures out.Keys == deck.Keys
  {
    if i == 0 then deck
    else
      var d := Numbered(deck, o, i - 1);
      d[o[i - 1] := d[o[i - 1]].(position := STEP * i as real)]
  }

  ghost predicate Different(o: seq<string>) {
    forall i, j | 0 <= i < j < |o| :: o[i] != o[j]
  }

  lemma IncreasingDifferent(deck: Deck, o: seq<string>)
    requires Increasing(deck, o, 0.0)
    ensures Different(o)
  {
    assert forall i, j | 0 <= i < j < |o| :: deck[o[j]].position > deck[o[i]].position;
  }

  lemma {:induction false} NumberedElsewhere(deck: Deck, o: seq<string>, i: nat)
    requires i <= |o| && forall n | n in o :: n in deck
    ensures var d := Numbered(deck, o, i);
            && (forall n | n in deck :: d[n] == deck[n].(position := d[n].position))
            && (forall n | n in deck && n !in o :: d[n] == deck[n])
  {
    if i > 0 { NumberedElsewhere(deck, o, i - 1); }
  }

  lemma {:induction false} NumberedPositions(deck: Deck, o: seq<string>, i: nat, j: nat)
    requires Different(o) && j < i <= |o| && forall n | n in o :: n in deck
    ensures Numbered(deck, o, i)[o[j]].position == STEP * (j + 1) as real
  {
    if j < i - 1 { NumberedPositions(deck, o, i - 1, j); }
  }

  lemma NumberedArranged(deck: Deck, list: string, o: seq<string>)
    requires Ordered(deck, list, o, 0.0)
    ensures Arranged(Numbered(deck, o, |o|), list, o)
  {
    var d := Numbered(deck, o, |o|);
    IncreasingDifferent(deck, o);
    NumberedElsewhere(deck, o, |o|);
    forall j | 0 <= j < |o|
      ensures d[o[j]].position == STEP * (j + 1) as real
    {
      NumberedPositions(deck, o, |o|, j);
    }
    EvenlySpaced(d, o);
    forall n
      ensures n in o <==> Shown(d, list, n)
    {
      assert n in deck ==> Shown(d, list, n) == Shown(deck, list, n);
    }
  }

  lemma EvenlySpaced(deck: Deck, o: seq<string>)
    requires forall n | n in o :: n in deck
    requires forall j | 0 <= j < |o| :: deck[o[j]].position == STEP * (j + 1) as real
    ensures Increasing(deck, o, GAP)
  {
    forall i, j | 0 <= i < j < |o|
      ensures deck[o[j]].position - deck[o[i]].position >= STEP
    {
      assert (j + 1) as real >= (i + 2) as real;
    }
  }

  function AfterRenumber(deck: Deck, o: seq<string>): Deck
    requires forall n | n in o :: n in deck
  {
    if NeedsRenumber(Positions(deck, o)) then Numbered(deck, o, |o|) else deck
  }

  lemma RenumberedArranged(deck: Deck, list: string, o: seq<string>)
    requires Ordered(deck, list, o, 0.0)
    ensures Arranged(AfterRenumber(deck, o), list, o)
  {
    if NeedsRenumber(Positions(deck, o)) {
      NumberedArranged(deck, list, o);
    } else {
      GapsEverywhere(deck, o);
    }
  }

  lemma CardPut(deck: Deck, list: string, o: seq<string>, name: string, c: Card, k: nat)
    requires Arranged(deck, list, o) && FitsAt(deck, Without(o, name), k, c.position)
    requires c.list == list && !c.archived
    ensures Ordered(deck[name := c], list, PutAt(Without(o, name), name, k), 0.0)
  {
    var rest := Without(o, name);
    WithoutIncreasing(deck, o, name, GAP);
    PutKeepsIncreasing(deck, rest, k, name, c);
    forall n
      ensures n in PutAt(rest, name, k) <==> Shown(deck[name := c], list, n)
    {
      assert n != name ==> Shown(deck[name := c], list, n) == Shown(deck, list, n);
    }
  }

  lemma OnlyMoved(was: Deck, placed: Deck, now: Deck, name: string, list: string, doneList: string, o: seq<string>,
                  to: seq<string>)
    requires name in was && name in placed && placed
             == was[name := Moved(was[name], list, placed[name].position, doneList)]
    requires Increasing(placed, to, 0.0) && forall n :: n in to <==> n in o || n == name
    requires now == AfterRenumber(placed, to)
    ensures MovedOnly(was, now, name, list, doneList, o)
  {
    NumberedElsewhere(placed, to, |to|);
  }

  lemma EndIsFarEnough(deck: Deck, o: seq<string>, listed: seq<string>)
    requires (forall n | n in listed :: n in deck) && forall n | n in o :: n in listed
    ensures forall n | n in o :: Between(Highest(deck, listed), None) - deck[n].position >= STEP
  {
  }

  lemma AppendArranged(deck: Deck, list: string, o: seq<string>, name: string, c: Card)
    requires Arranged(deck, list, o) && name !in deck && c.list == list && !c.archived && c.position > 0.0
    requires forall n | n in o :: c.position - deck[n].position >= STEP
    ensures Arranged(deck[name := c], list, o + [name])
  {
    assert forall i | 0 <= i < |o| :: o[i] in o;
  }

  lemma {:induction false} WithoutDistinct(o: seq<string>, n: string)
    requires forall i, j | 0 <= i < j < |o| :: o[i] != o[j]
    ensures forall i, j | 0 <= i < j < |Without(o, n)| :: Without(o, n)[i] != Without(o, n)[j]
  {
    if o != [] {
      WithoutDistinct(o[1..], n);
      var rest := Without(o[1..], n);
      forall j | 0 <= j < |rest|
        ensures rest[j] != o[0]
      {
        assert rest[j] in o[1..];
      }
    }
  }

  /** The two steps of move_card together: the card put in place, then the renumbering. */
  lemma MoveResult(was: Deck, scan: seq<string>, name: string, list: string, p: real, doneList: string,
                   o: seq<string>, k: nat)
    requires name in was && !was[name].archived && Arranged(was, list, o) && FitsAt(was, Without(o, name), k, p)
    requires (forall n | n in was :: n in scan) && Different(scan)
    ensures var placed := was[name := Moved(was[name], list, p, doneList)];
            var now := AfterRenumber(placed, Sorted(placed, Listed(placed, list, scan)));
            Arranged(now, list, PutAt(Without(o, name), name, k)) && MovedOnly(was, now, name, list, doneList, o)
  {
    var placed := was[name := Moved(was[name], list, p, doneList)];
    var to := PutAt(Without(o, name), name, k);
    CardPut(was, list, o, name, placed[name], k);
    SortedIsOrder(placed, list, scan, to);
    RenumberedArranged(placed, list, to);
    OnlyMoved(was, placed, AfterRenumber(placed, to), name, list, doneList, o, to);
  }

  // ---- the calls as functions of the table ----

  /** The rows of the card table: by name, and the order they are scanned in. */
  datatype Table = Table(deck: Deck, scan: seq<string>) {
    ghost predicate Valid() {
      (forall n :: n in scan <==> n in deck) && Different(scan)
    }
  }

  /** The columns of a board, and which of them means done. */
  datatype Columns = Columns(lists: seq<string>, doneList: string)

  /** boards.move_card; None when the list is not on the board. */
  function CardMoved(t: Table, cols: Columns, name: string, list: string, before: Option<string>,
                     after: Option<string>): Option<Table>
    requires name in t.deck
  {
    if list !in cols.lists then None
    else
      var placed := t.deck[name :=
          Moved(t.deck[name], list, NewPosition(t.deck, t.scan, list, name, before, after), cols.doneList)];
      Some(t.(deck := AfterRenumber(placed, Sorted(placed, Listed(placed, list, t.scan)))))
  }

  /** The list a new card goes to: the one asked for, or the first. */
  function NewList(cols: Columns, wanted: Option<string>): Option<string> {
    if wanted.Some? && wanted.value in cols.lists then wanted
    else if cols.lists == [] then None else Some(cols.lists[0])
  }

  /** boards.save_card for a new card; None when the board has no list. */
  function CardAdded(t: Table, cols: Columns, name: string, wanted: Option<string>, done: Option<bool>): Option<Table> {
    var list := NewList(cols, wanted);
    if list.None? then None
    else
      var c := Card(list.value, EndPosition(t.deck, list.value, t.scan), false,
                    if done.Some? then done.value else list.value == cols.doneList);
      Some(Table(t.deck[name := c], t.scan + [name]))
  }

  /** boards.delete_card: archived cards stay, out of the list. */
  function CardDeleted(t: Table, name: string, archive: bool): Table
    requires name in t.deck
  {
    if archive then t.(deck := t.deck[name := t.deck[name].(archived := true)])
    else Table(t.deck - {name}, Without(t.scan, name))
  }

  /**
   * A card moved to the neighbours named stands between them: the list's new order is its old one without the card,
   * with the card at place k; nothing but positions changes on the list's other cards, and nothing at all off the
   * list.
   */
  lemma MoveRealised(t: Table, cols: Columns, name: string, list: string, before: Option<string>,
                     after: Option<string>, o: seq<string>, k: nat)
    requires t.Valid() && name in t.deck && !t.deck[name].archived && list in cols.lists
    requires Arranged(t.deck, list, o) && Names(Without(o, name), before, after, k)
    ensures var now := CardMoved(t, cols, name, list, before, after).value.deck;
            Arranged(now, list, PutAt(Without(o, name), name, k))
                && MovedOnly(t.deck, now, name, list, cols.doneList, o)
  {
    NewPositionFits(t.deck, t.scan, list, name, before, after, o, k);
    MoveResult(t.deck, t.scan, name, list, NewPosition(t.deck, t.scan, list, name, before, after), cols.doneList, o, k);
  }

  /**
   * A new card comes last in the list asked for, or in the first when that is not on the board, done when it is the
   * done list unless the request says; the other lists keep their orders, and no other card changes.
   */
  lemma AddRealised(t: Table, cols: Columns, name: string, wanted: Option<string>, done: Option<bool>, list: string,
                    o: seq<string>)
    requires t.Valid() && name !in t.deck && cols.lists != [] && Arranged(t.deck, list, o)
    ensures CardAdded(t, cols, name, wanted, done).Some?
    ensures var now := CardAdded(t, cols, name, wanted, done).value.deck;
            var to := if wanted.Some? && wanted.value in cols.lists then wanted.value else cols.lists[0];
            && now.Keys == t.deck.Keys + {name} && (forall n | n in t.deck :: now[n] == t.deck[n])
            && now[name].list == to && !now[name].archived
            && now[name].done == (if done.Some? then done.value else to == cols.doneList)
            && Arranged(now, list, if list == to then o + [name] else o)
  {
    var to := if wanted.Some? && wanted.value in cols.lists then wanted.value else cols.lists[0];
    var c := CardAdded(t, cols, name, wanted, done).value.deck[name];
    AddedArranged(t, name, c, to, list, o);
  }

  lemma AddedArranged(t: Table, name: string, c: Card, to: string, list: string, o: seq<string>)
    requires t.Valid() && name !in t.deck && Arranged(t.deck, list, o)
    requires c.list == to && !c.archived && c.position == EndPosition(t.deck, to, t.scan)
    ensures Arranged(t.deck[name := c], list, if list == to then o + [name] else o)
  {
    if list == to {
      EndFits(t.deck, o, Listed(t.deck, list, t.scan));
      EndIsFarEnough(t.deck, o, Listed(t.deck, list, t.scan));
      AppendArranged(t.deck, list, o, name, c);
    } else {
      SameList(t.deck, t.deck[name := c], list, o);
    }
  }

  lemma SameList(was: Deck, now: Deck, list: string, o: seq<string>)
    requires Arranged(was, list, o) && forall n :: Shown(now, list, n) <==> Shown(was, list, n)
    requires forall n | Shown(was, list, n) :: n in now && now[n].position == was[n].position
    ensures Arranged(now, list, o)
  {
  }

  /** A deleted or archived card leaves its list, and no other card changes its place. */
  lemma DeleteRealised(t: Table, name: string, archive: bool, list: string, o: seq<string>)
    requires name in t.deck && Arranged(t.deck, list, o)
    ensures var now := CardDeleted(t, name, archive).deck;
            && Arranged(now, list, Without(o, name))
            && (forall n | n in t.deck && n != name :: n in now && now[n] == t.deck[n])
            && (archive ==> now.Keys == t.deck.Keys && now[name] == t.deck[name].(archived := true))
            && (!archive ==> now.Keys == t.deck.Keys - {name})
  {
    ListLoses(t.deck, CardDeleted(t, name, archive).deck, list, o, name);
  }

  // ---- after any request, adjacent neighbours or not ----

  ghost predicate AllPositive(deck: Deck) {
    forall n | n in deck :: deck[n].position > 0.0
  }

  /** A list sorted with ties still in it. */
  ghost predicate Rising(deck: Deck, o: seq<string>) {
    && (forall n | n in o :: n in deck && deck[n].position > 0.0)
    && forall i, j | 0 <= i < j < |o| :: deck[o[i]].position <= deck[o[j]].position
  }

  lemma FirstNotAbove(deck: Deck, first: string, rest: seq<string>)
    requires Rising(deck, rest) && first in deck && deck[first].position > 0.0
    requires forall m | m in rest :: deck[first].position <= deck[m].position
    ensures Rising(deck, [first] + rest)
  {
    var all := [first] + rest;
    forall i, j | 0 <= i < j < |all|
      ensures deck[all[i]].position <= deck[all[j]].position
    {
      assert all[j] == rest[j - 1] && rest[j - 1] in rest;
      if i > 0 { assert all[i] == rest[i - 1]; }
    }
  }

  lemma RisingAfter(deck: Deck, names: seq<string>, m: string)
    requires Rising(deck, names) && m in names
    ensures deck[names[0]].position <= deck[m].position
  {
    var k :| 0 <= k < |names| && names[k] == m;
  }

  lemma {:induction false} InsertRising(deck: Deck, n: string, names: seq<string>)
    requires Rising(deck, names) && n in deck && deck[n].position > 0.0
    ensures Rising(deck, Insert(deck, n, names))
  {
    if names == [] {
    } else if deck[n].position <= deck[names[0]].position {
      forall m | m in names
        ensures deck[n].position <= deck[m].position
      {
        RisingAfter(deck, names, m);
      }
      FirstNotAbove(deck, n, names);
    } else {
      TailRising(deck, names);
      InsertRising(deck, n, names[1..]);
      forall m | m in Insert(deck, n, names[1..])
        ensures deck[names[0]].position <= deck[m].position
      {
        if m != n { RisingAfter(deck, names, m); }
      }
      FirstNotAbove(deck, names[0], Insert(deck, n, names[1..]));
    }
  }

  lemma TailRising(deck: Deck, names: seq<string>)
    requires Rising(deck, names) && names != []
    ensures Rising(deck, names[1..])
  {
  }

  lemma {:induction false} SortedRising(deck: Deck, names: seq<string>)
    requires forall m | m in names :: m in deck && deck[m].position > 0.0
    ensures Rising(deck, Sorted(deck, names))
  {
    if names != [] {
      SortedRising(deck, names[1..]);
      InsertRising(deck, names[0], Sorted(deck, names[1..]));
    }
  }

  lemma FirstDifferent(first: string, rest: seq<string>)
    requires Different(rest) && first !in rest
    ensures Different([first] + rest)
  {
    var all := [first] + rest;
    forall i, j | 0 <= i < j < |all|
      ensures all[i] != all[j]
    {
      assert all[j] == rest[j - 1] && rest[j - 1] in rest;
      if i > 0 { assert all[i] == rest[i - 1]; }
    }
  }

  lemma TailDifferent(names: seq<string>)
    requires Different(names) && names != []
    ensures Different(names[1..]) && names[0] !in names[1..]
  {
  }

  lemma {:induction false} InsertDifferent(deck: Deck, n: string, names: seq<string>)
    requires Different(names) && n !in names && n in deck && forall m | m in names :: m in deck
    ensures Different(Insert(deck, n, names))
  {
    if names == [] || deck[n].position <= deck[names[0]].position {
      FirstDifferent(n, names);
    } else {
      TailDifferent(names);
      InsertDifferent(deck, n, names[1..]);
      FirstDifferent(names[0], Insert(deck, n, names[1..]));
    }
  }

  lemma {:induction false} SortedDifferent(deck: Deck, names: seq<string>)
    requires Different(names) && forall m | m in names :: m in deck
    ensures Different(Sorted(deck, names))
  {
    if names != [] {
      TailDifferent(names);
      SortedDifferent(deck, names[1..]);
      InsertDifferent(deck, names[0], Sorted(deck, names[1..]));
    }
  }

  lemma {:induction false} ListedDifferent(deck: Deck, list: string, scan: seq<string>)
    requires Different(scan)
    ensures Different(Listed(deck, list, scan))
  {
    if scan != [] {
      TailDifferent(scan);
      ListedDifferent(deck, list, scan[1..]);
      if Shown(deck, list, scan[0]) { FirstDifferent(scan[0], Listed(deck, list, scan[1..])); }
    }
  }

  /** Gaps between neighbours leave no ties. */
  lemma GapsLeaveNoTies(deck: Deck, o: seq<string>)
    requires Rising(deck, o) && !NeedsRenumber(Positions(deck, o))
    ensures Increasing(deck, o, GAP)
  {
    var ps := Positions(deck, o);
    forall i, j | 0 <= i < j < |o|
      ensures deck[o[j]].position - deck[o[i]].position >= GAP
    {
      assert ps[j - 1 + 1] - ps[j - 1] >= GAP;
      if i < j - 1 { assert deck[o[i]].position <= deck[o[j - 1]].position; }
    }
  }

  lemma NumberedShown(deck: Deck, list: string, o: seq<string>)
    requires (forall n | n in o :: n in deck) && forall n :: n in o <==> Shown(deck, list, n)
    ensures forall n :: n in o <==> Shown(Numbered(deck, o, |o|), list, n)
  {
    NumberedElsewhere(deck, o, |o|);
    forall n
      ensures Shown(Numbered(deck, o, |o|), list, n) == Shown(deck, list, n)
    {
    }
  }

  /** Renumbering when it is needed arranges a list whatever ties it had. */
  lemma TiesGone(deck: Deck, list: string, o: seq<string>)
    requires Rising(deck, o) && Different(o) && forall n :: n in o <==> Shown(deck, list, n)
    ensures Arranged(AfterRenumber(deck, o), list, o)
  {
    if NeedsRenumber(Positions(deck, o)) {
      var d := Numbered(deck, o, |o|);
      forall j | 0 <= j < |o|
        ensures d[o[j]].position == STEP * (j + 1) as real
      {
        NumberedPositions(deck, o, |o|, j);
      }
      EvenlySpaced(d, o);
      NumberedShown(deck, list, o);
    } else {
      GapsLeaveNoTies(deck, o);
    }
  }

  lemma NewPositionPositive(t: Table, name: string, list: string, before: Option<string>, after: Option<string>)
    requires AllPositive(t.deck)
    ensures NewPosition(t.deck, t.scan, list, name, before, after) > 0.0
  {
    var listed := Listed(t.deck, list, t.scan);
    assert listed != [] ==> listed[0] in listed;
  }

  lemma {:induction false} NumberedPositive(deck: Deck, o: seq<string>, i: nat)
    requires AllPositive(deck) && i <= |o| && forall n | n in o :: n in deck
    ensures AllPositive(Numbered(deck, o, i))
  {
    if i > 0 { NumberedPositive(deck, o, i - 1); }
  }

  /**
   * Whatever neighbours a request names, the list the card goes to is arranged afterwards: ties are renumbered away.
   */
  lemma AnyMoveArranges(t: Table, cols: Columns, name: string, list: string, before: Option<string>,
                        after: Option<string>)
    requires t.Valid() && AllPositive(t.deck) && name in t.deck && list in cols.lists
    ensures var now := CardMoved(t, cols, name, list, before, after).value.deck;
            HasOrder(now, list) && AllPositive(now)
  {
    NewPositionPositive(t, name, list, before, after);
    var placed := t.deck[name :=
        Moved(t.deck[name], list, NewPosition(t.deck, t.scan, list, name, before, after), cols.doneList)];
    var listed := Listed(placed, list, t.scan);
    var to := Sorted(placed, listed);
    ListedDifferent(placed, list, t.scan);
    SortedDifferent(placed, listed);
    SortedRising(placed, listed);
    assert forall n :: n in to <==> Shown(placed, list, n);
    TiesGone(placed, list, to);
    NumberedPositive(placed, to, |to|);
  }

  /**
   * The card is on that list, done exactly when that is the done list (as before where there is none); of the list's
   * other cards only positions change, and off it nothing does.
   */
  lemma AnyMoveElsewhere(t: Table, cols: Columns, name: string, list: string, before: Option<string>,
                         after: Option<string>)
    requires t.Valid() && name in t.deck && list in cols.lists
    ensures var now := CardMoved(t, cols, name, list, before, after).value.deck;
            && now.Keys == t.deck.Keys && now[name].list == list && now[name].archived == t.deck[name].archived
            && now[name].done == (if cols.doneList == "" then t.deck[name].done else list == cols.doneList)
            && forall n | n in t.deck && n != name :: now[n] == t.deck[n].(position := now[n].position)
                && (t.deck[n].list != list ==> now[n] == t.deck[n])
  {
    var p := NewPosition(t.deck, t.scan, list, name, before, after);
    var placed := t.deck[name := Moved(t.deck[name], list, p, cols.doneList)];
    RenumberElsewhere(placed, list, t.scan);
  }

  lemma RenumberElsewhere(deck: Deck, list: string, scan: seq<string>)
    ensures var now := AfterRenumber(deck, Sorted(deck, Listed(deck, list, scan)));
            now.Keys == deck.Keys && forall n | n in deck ::
              now[n] == deck[n].(position := now[n].position) && (deck[n].list != list ==> now[n] == deck[n])
  {
    var to := Sorted(deck, Listed(deck, list, scan));
    NumberedElsewhere(deck, to, |to|);
  }

  /** And every other list keeps its order, without the card if it was there. */
  lemma AnyMoveKeepsOthers(t: Table, cols: Columns, name: string, list: string, before: Option<string>,
                           after: Option<string>,
                           l: string, p: seq<string>)
    requires t.Valid() && name in t.deck && list in cols.lists && l != list && Arranged(t.deck, l, p)
    ensures Arranged(CardMoved(t, cols, name, list, before, after).value.deck, l, Without(p, name))
  {
    AnyMoveElsewhere(t, cols, name, list, before, after);
    OtherListLoses(t.deck, CardMoved(t, cols, name, list, before, after).value.deck, name, list, l, p);
  }

  lemma OtherListLoses(was: Deck, now: Deck, name: string, list: string, l: string, p: seq<string>)
    requires Arranged(was, l, p) && l != list && name in was && now.Keys == was.Keys && now[name].list == list
    requires forall n | n in was && n != name ::
               now[n].list == was[n].list && (was[n].list != list ==> now[n] == was[n])
    ensures Arranged(now, l, Without(p, name))
  {
    forall n
      ensures Shown(now, l, n) <==> Shown(was, l, n) && n != name
    {
      assert n in now.Keys <==> n in was.Keys;
    }
    ListLoses(was, now, l, p, name);
  }

  // ---- over every run ----

  datatype Event =
    | Move(name: string, list: string, before: Option<string>, after: Option<string>)
    | Add(name: string, wanted: Option<string>, done: Option<bool>)
    | Delete(name: string, archive: bool)

  /** Any request is possible: a card moved is one of the table's, a new card has a new name. */
  predicate Possible(t: Table, cols: Columns, e: Event) {
    match e
    case Move(name, _, _, _) => name in t.deck
    case Add(name, _, _) => name !in t.deck
    case Delete(name, _) => name in t.deck
  }

  function Step(t: Table, cols: Columns, e: Event): Table
    requires match e case Move(name, _, _, _) => name in t.deck case Delete(name, _) => name in t.deck case Add(_, _,
             _) => true
  {
    match e
    case Move(name, list, before, after) => Or(CardMoved(t, cols, name, list, before, after), t)
    case Add(name, wanted, done) => Or(CardAdded(t, cols, name, wanted, done), t)
    case Delete(name, archive) => CardDeleted(t, name, archive)
  }

  function Or(o: Option<Table>, t: Table): Table {
    if o.Some? then o.value else t
  }

  ghost predicate Run(start: Table, cols: Columns, events: seq<Event>, end: Table)
    decreases |events|
  {
    if events == [] then start == end
    else Possible(start, cols, events[0]) && Run(Step(start, cols, events[0]), cols, events[1..], end)
  }

  lemma StepValid(t: Table, cols: Columns, e: Event)
    requires t.Valid() && Possible(t, cols, e)
    ensures Step(t, cols, e).Valid()
  {
    match e
    case Delete(name, archive) => WithoutDistinct(t.scan, name);
    case Add(name, wanted, done) =>
    case Move(name, list, before, after) =>
      if list in cols.lists { MoveKeepsNames(t, cols, name, list, before, after); }
  }

  lemma MoveKeepsNames(t: Table, cols: Columns, name: string, list: string, before: Option<string>,
                       after: Option<string>)
    requires name in t.deck && CardMoved(t, cols, name, list, before, after).Some?
    ensures var now := CardMoved(t, cols, name, list, before, after).value;
            now.deck.Keys == t.deck.Keys && now.scan == t.scan
  {
  }

  lemma StepArranged(t: Table, cols: Columns, e: Event)
    requires t.Valid() && AllPositive(t.deck) && AllArranged(t.deck) && Possible(t, cols, e)
    ensures AllPositive(Step(t, cols, e).deck) && AllArranged(Step(t, cols, e).deck)
  {
    match e
    case Move(name, list, before, after) => if list in cols.lists { MoveArranged(t, cols, name, list, before, after); }
    case Add(name, wanted, done) => if NewList(cols, wanted).Some? { AddArranged(t, cols, name, wanted, done); }
    case Delete(name, archive) => DeleteArranged(t, name, archive);
  }

  lemma MoveArranged(t: Table, cols: Columns, name: string, list: string, before: Option<string>, after: Option<string>)
    requires t.Valid() && AllPositive(t.deck) && AllArranged(t.deck) && name in t.deck && list in cols.lists
    ensures var now := CardMoved(t, cols, name, list, before, after).value.deck; AllPositive(now) && AllArranged(now)
  {
    var now := CardMoved(t, cols, name, list, before, after).value.deck;
    AnyMoveArranges(t, cols, name, list, before, after);
    forall l
      ensures HasOrder(now, l)
    {
      if l != list {
        assert HasOrder(t.deck, l);
        var p :| Arranged(t.deck, l, p);
        AnyMoveKeepsOthers(t, cols, name, list, before, after, l, p);
      }
    }
  }

  lemma AddArranged(t: Table, cols: Columns, name: string, wanted: Option<string>, done: Option<bool>)
    requires t.Valid() && AllPositive(t.deck) && AllArranged(t.deck)
    requires name !in t.deck && CardAdded(t, cols, name, wanted, done).Some?
    ensures var now := CardAdded(t, cols, name, wanted, done).value.deck; AllPositive(now) && AllArranged(now)
  {
    var now := CardAdded(t, cols, name, wanted, done).value.deck;
    forall l
      ensures HasOrder(now, l)
    {
      assert HasOrder(t.deck, l);
      var o :| Arranged(t.deck, l, o);
      AddRealised(t, cols, name, wanted, done, l, o);
    }
  }

  lemma DeleteArranged(t: Table, name: string, archive: bool)
    requires AllPositive(t.deck) && AllArranged(t.deck) && name in t.deck
    ensures AllPositive(CardDeleted(t, name, archive).deck) && AllArranged(CardDeleted(t, name, archive).deck)
  {
    var now := CardDeleted(t, name, archive).deck;
    forall l
      ensures HasOrder(now, l)
    {
      assert HasOrder(t.deck, l);
      var o :| Arranged(t.deck, l, o);
      DeleteRealised(t, name, archive, l, o);
    }
  }

  /**
   * Over every run of moves, new cards and deletions, whatever the requests, every list keeps one order with proper
   * gaps.
   */
  lemma {:induction false} RunArranged(start: Table, cols: Columns, events: seq<Event>, end: Table)
    requires start.Valid() && AllPositive(start.deck) && AllArranged(start.deck) && Run(start, cols, events, end)
    ensures end.Valid() && AllPositive(end.deck) && AllArranged(end.deck)
    decreases |events|
  {
    if events != [] {
      StepValid(start, cols, events[0]);
      StepArranged(start, cols, events[0]);
      RunArranged(Step(start, cols, events[0]), cols, events[1..], end);
    }
  }

  // ---- the calls as they change the table ----

  /**
   * When two neighbours are less than 0.000001 apart the list's positions become 1024, 2048, …; otherwise nothing
   * changes.
   */
  lemma RenumberExactly(deck: Deck, list: string, scan: seq<string>)
    requires Different(scan) && forall n | n in deck :: n in scan
    ensures var ps := Sorted(deck, Listed(deck, list, scan));
            var now := AfterRenumber(deck, ps);
            if forall i | 0 <= i < |ps| - 1 :: deck[ps[i + 1]].position - deck[ps[i]].position >= 0.000001
            then now == deck
            else forall i | 0 <= i < |ps| :: now[ps[i]].position == 1024.0 * (i + 1) as real
  {
    var ps := Sorted(deck, Listed(deck, list, scan));
    ListedDifferent(deck, list, scan);
    SortedDifferent(deck, Listed(deck, list, scan));
    if NeedsRenumber(Positions(deck, ps)) {
      forall i | 0 <= i < |ps|
        ensures Numbered(deck, ps, |ps|)[ps[i]].position == 1024.0 * (i + 1) as real
      {
        NumberedPositions(deck, ps, |ps|, i);
      }
    }
  }

  class BoardCards {
    var deck: Deck
    /** The names in the order the table is scanned. */
    var scan: seq<string>
    const cols: Columns

    ghost function State(): Table
      reads this
    {
      Table(deck, scan)
    }

    constructor (cols: Columns)
      ensures State() == Table(map[], []) && this.cols == cols && State().Valid() && AllPositive(deck)
              && AllArranged(deck)
    {
      deck, scan := map[], [];
      this.cols := cols;
      new;
      forall list
        ensures HasOrder(deck, list)
      {
        assert Arranged(deck, list, []);
      }
    }

    method SetPositions(ps: seq<string>)
      requires forall n | n in ps :: n in deck
      modifies `deck
      ensures deck == Numbered(old(deck), ps, |ps|)
    {
      for i := 0 to |ps|
        invariant deck == Numbered(old(deck), ps, i)
      {
        deck := deck[ps[i] := deck[ps[i]].(position := STEP * (i + 1) as real)];
      }
    }

    /** The end of move_card: when two neighbours got too close, positions 1024, 2048, … in the same order. */
    method Renumber(list: string)
      modifies `deck
      ensures deck == AfterRenumber(old(deck), Sorted(old(deck), Listed(old(deck), list, scan)))
    {
      var ps := Sorted(deck, Listed(deck, list, scan));
      if NeedsRenumber(Positions(deck, ps)) {
        SetPositions(ps);
      }
    }

    /** boards.move_card */
    method MoveCard(name: string, list: string, before: Option<string>, after: Option<string>) returns (ok: bool)
      requires name in deck
      modifies `deck
      ensures ok <==> list in cols.lists
      ensures ok == CardMoved(old(State()), cols, name, list, before, after).Some?
      ensures State() == Or(CardMoved(old(State()), cols, name, list, before, after), old(State()))
    {
      if list !in cols.lists {
        return false;
      }
      var p := NewPosition(deck, scan, list, name, before, after);
      var c := deck[name];
      var done := c.done;
      if cols.doneList != "" {
        if list == cols.doneList && !c.done {
          done := true;
        } else if list != cols.doneList && c.done {
          done := false;
        }
      }
      deck := deck[name := Card(list, p, c.archived, done)];
      Renumber(list);
      return true;
    }

    /** boards.save_card for a new card. */
    method SaveNewCard(name: string, wanted: Option<string>, done: Option<bool>) returns (ok: bool)
      modifies this
      ensures ok <==> cols.lists != []
      ensures ok == CardAdded(old(State()), cols, name, wanted, done).Some?
      ensures State() == Or(CardAdded(old(State()), cols, name, wanted, done), old(State()))
    {
      var list := NewList(cols, wanted);
      if list.None? {
        return false;
      }
      var isDone := list.value == cols.doneList;
      if done.Some? {
        isDone := done.value;
      }
      deck := deck[name := Card(list.value, EndPosition(deck, list.value, scan), false, isDone)];
      scan := scan + [name];
      return true;
    }

    /** boards.delete_card */
    method DeleteCard(name: string, archive: bool)
      requires name in deck
      modifies this
      ensures State() == CardDeleted(old(State()), name, archive)
    {
      if archive {
        deck := deck[name := deck[name].(archived := true)];
      } else {
        deck := deck - {name};
        scan := Without(scan, name);
      }
    }
  }
}

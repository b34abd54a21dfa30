/** Card positions (planning_rules.between, needs_renumber, renumber) and the order they give a list. */
module Cards {
  import opened Text

  datatype Card = Card(list: string, position: real, archived: bool, done: bool)

  type Deck = map<string, Card>

  const GAP := 0.000001
  const STEP := 1024.0

  /** planning_rules.between */
  function Between(before: Option<real>, after: Option<real>): real {
    match (before, after)
    case (None, None) => STEP
    case (None, Some(a)) => a / 2.0
    case (Some(b), None) => b + STEP
    case (Some(b), Some(a)) => (b + a) / 2.0
  }

  predicate Shown(deck: Deck, list: string, n: string) {
    n in deck && deck[n].list == list && !deck[n].archived
  }

  /** The names of a list's cards, in the order of a table scan. */
  function Listed(deck: Deck, list: string, scan: seq<string>): (names: seq<string>)
    ensures forall n :: n in names <==> n in scan && Shown(deck, list, n)
  {
    if scan == [] then []
    else (if Shown(deck, list, scan[0]) then [scan[0]] else []) + Listed(deck, list, scan[1..])
  }

  function Insert(deck: Deck, n: string, names: seq<string>): (out: seq<string>)
    requires n in deck && forall m | m in names :: m in deck
    ensures forall m :: m in out <==> m == n || m in names
    ensures |out| == |names| + 1
  {
    if names == [] || deck[n].position <= deck[names[0]].position then [n] + names
    else [names[0]] + Insert(deck, n, names[1..])
  }

  /** order by position asc */
  function Sorted(deck: Deck, names: seq<string>): (out: seq<string>)
    requires forall m | m in names :: m in deck
    ensures forall m :: m in out <==> m in names
    ensures |out| == |names|
  {
    if names == [] then [] else Insert(deck, names[0], Sorted(deck, names[1..]))
  }

  /** planning_rules.needs_renumber on positions already sorted. */
  predicate NeedsRenumber(ps: seq<real>) {
    exists i | 0 <= i < |ps| - 1 :: ps[i + 1] - ps[i] < GAP
  }

  function Positions(deck: Deck, names: seq<string>): (ps: seq<real>)
    requires forall m | m in names :: m in deck
    ensures |ps| == |names| && forall i | 0 <= i < |ps| :: ps[i] == deck[names[i]].position
  {
    seq(|names|, i requires 0 <= i < |names| => deck[names[i]].position)
  }

  // ---- the order of a list ----

  ghost predicate Increasing(deck: Deck, o: seq<string>, gap: real) {
    && (forall n | n in o :: n in deck && deck[n].position > 0.0)
    && forall i, j | 0 <= i < j < |o| :: deck[o[j]].position > deck[o[i]].position
        && deck[o[j]].position - deck[o[i]].position >= gap
  }

  /** `o` is what a list shows: its cards, all of them, at increasing positive positions. */
  ghost predicate Ordered(deck: Deck, list: string, o: seq<string>, gap: real) {
    Increasing(deck, o, gap) && forall n :: n in o <==> Shown(deck, list, n)
  }

  /** Ordered with the gaps a list is kept at. */
  ghost predicate Arranged(deck: Deck, list: string, o: seq<string>) {
    Ordered(deck, list, o, GAP)
  }

  lemma LaterHigher(deck: Deck, names: seq<string>, m: string, gap: real)
    requires Increasing(deck, names, gap) && names != [] && m in names[1..]
    ensures deck[m].position > deck[names[0]].position && deck[m].position - deck[names[0]].position >= gap
  {
    var k :| 0 <= k < |names[1..]| && names[1..][k] == m;
    assert names[k + 1] == m;
  }

  lemma TailIncreasing(deck: Deck, names: seq<string>, gap: real)
    requires Increasing(deck, names, gap) && names != []
    ensures Increasing(deck, names[1..], gap)
  {
  }

  lemma FirstLowest(deck: Deck, first: string, rest: seq<string>, gap: real)
    requires Increasing(deck, rest, gap) && first in deck && deck[first].position > 0.0
    requires forall m | m in rest ::
               deck[m].position > deck[first].position && deck[m].position - deck[first].position >= gap
    ensures Increasing(deck, [first] + rest, gap)
  {
    var all := [first] + rest;
    assert forall i | 0 < i < |all| :: all[i] == rest[i - 1] && rest[i - 1] in rest;
  }

  lemma {:induction false} InsertIncreasing(deck: Deck, n: string, names: seq<string>)
    requires Increasing(deck, names, 0.0) && n in deck && deck[n].position > 0.0
    requires forall m | m in names :: deck[m].position != deck[n].position
    ensures Increasing(deck, Insert(deck, n, names), 0.0)
  {
    if names != [] && deck[n].position > deck[names[0]].position {
      InsertIncreasing(deck, n, names[1..]);
      var rest := Insert(deck, n, names[1..]);
      forall m | m in rest
        ensures deck[m].position > deck[names[0]].position
      {
        if m != n { LaterHigher(deck, names, m, 0.0); }
      }
      FirstLowest(deck, names[0], rest, 0.0);
    }
  }

  predicate DistinctPositions(deck: Deck, names: seq<string>)
    requires forall m | m in names :: m in deck
  {
    forall i, j | 0 <= i < j < |names| :: deck[names[i]].position != deck[names[j]].position
  }

  lemma {:induction false} SortedIncreasing(deck: Deck, names: seq<string>)
    requires forall m | m in names :: m in deck && deck[m].position > 0.0
    requires DistinctPositions(deck, names)
    ensures Increasing(deck, Sorted(deck, names), 0.0)
  {
    if names != [] {
      SortedIncreasing(deck, names[1..]);
      forall m | m in Sorted(deck, names[1..])
        ensures deck[m].position != deck[names[0]].position
      {
        var k :| 0 <= k < |names[1..]| && names[1..][k] == m;
        assert names[k + 1] == m;
      }
      InsertIncreasing(deck, names[0], Sorted(deck, names[1..]));
    }
  }

  lemma HasMember(names: seq<string>)
    ensures names != [] ==> exists n :: n in names
  {
    if names != [] { assert names[0] in names; }
  }

  /** The first card of an order is the lowest of its cards. */
  lemma FirstIsLowest(deck: Deck, a: seq<string>, n: string)
    requires Increasing(deck, a, 0.0) && n in a
    ensures deck[a[0]].position < deck[n].position || a[0] == n
  {
    var i :| 0 <= i < |a| && a[i] == n;
  }

  lemma SameFirst(deck: Deck, a: seq<string>, b: seq<string>)
    requires Increasing(deck, a, 0.0) && Increasing(deck, b, 0.0) && (forall n :: n in a <==> n in b) && a != []
             && b != []
    ensures a[0] == b[0]
  {
    assert a[0] in a && b[0] in b;
    FirstIsLowest(deck, a, b[0]);
    FirstIsLowest(deck, b, a[0]);
  }

  /** Two increasing orders of the same cards are the same order. */
  lemma {:induction false} OrderUnique(deck: Deck, a: seq<string>, b: seq<string>)
    requires Increasing(deck, a, 0.0) && Increasing(deck, b, 0.0) && forall n :: n in a <==> n in b
    ensures a == b
  {
    HasMember(a);
    HasMember(b);
    if a != [] {
      SameFirst(deck, a, b);
      SameTails(deck, a, b);
      OrderUnique(deck, a[1..], b[1..]);
      assert a == [a[0]] + a[1..] && b == [b[0]] + b[1..];
    }
  }

  lemma SameTails(deck: Deck, a: seq<string>, b: seq<string>)
    requires Increasing(deck, a, 0.0) && Increasing(deck, b, 0.0) && forall n :: n in a <==> n in b
    requires a != [] && b != [] && a[0] == b[0]
    ensures Increasing(deck, a[1..], 0.0) && Increasing(deck, b[1..], 0.0) && forall n :: n in a[1..] <==> n in b[1..]
  {
    TailIncreasing(deck, a, 0.0);
    TailIncreasing(deck, b, 0.0);
    forall n
      ensures n in a[1..] <==> n in b[1..]
    {
      TailMembers(deck, a, n);
      TailMembers(deck, b, n);
    }
  }

  lemma TailMembers(deck: Deck, a: seq<string>, n: string)
    requires Increasing(deck, a, 0.0) && a != []
    ensures n in a[1..] <==> n in a && n != a[0]
  {
    if n in a[1..] {
      var i :| 0 <= i < |a[1..]| && a[1..][i] == n;
      assert a[i + 1] == n;
    }
    if n in a && n != a[0] {
      var i :| 0 <= i < |a| && a[i] == n;
      assert a[1..][i - 1] == n;
    }
  }

  // ---- putting a card between two others ----

  function Without(o: seq<string>, n: string): (out: seq<string>)
    ensures forall m :: m in out <==> m in o && m != n
    ensures |out| <= |o|
  {
    if o == [] then [] else (if o[0] == n then [] else [o[0]]) + Without(o[1..], n)
  }

  function PutAt(o: seq<string>, n: string, k: nat): (out: seq<string>)
    requires k <= |o|
    ensures |out| == |o| + 1 && forall m :: m in out <==> m == n || m in o
  {
    o[..k] + [n] + o[k..]
  }

  lemma {:induction false} WithoutIncreasing(deck: Deck, o: seq<string>, n: string, gap: real)
    requires Increasing(deck, o, gap)
    ensures Increasing(deck, Without(o, n), gap)
  {
    if o != [] {
      TailIncreasing(deck, o, gap);
      WithoutIncreasing(deck, o[1..], n, gap);
      var rest := Without(o[1..], n);
      forall m | m in rest
        ensures deck[m].position > deck[o[0]].position && deck[m].position - deck[o[0]].position >= gap
      {
        LaterHigher(deck, o, m, gap);
      }
      FirstLowest(deck, o[0], rest, gap);
    }
  }

  /** `p` fits at place k of an order: above the card before it, below the card after it, and positive. */
  ghost predicate FitsAt(deck: Deck, o: seq<string>, k: nat, p: real)
    requires forall n | n in o :: n in deck
  {
    k <= |o| && p > 0.0 && (k > 0 ==> deck[o[k - 1]].position < p) && (k < |o| ==> p < deck[o[k]].position)
  }

  lemma AroundPlace(deck: Deck, o: seq<string>, k: nat, p: real, i: nat)
    requires Increasing(deck, o, 0.0) && FitsAt(deck, o, k, p) && i < |o|
    ensures i < k ==> deck[o[i]].position < p
    ensures i >= k ==> deck[o[i]].position > p
  {
    if i < k - 1 { assert deck[o[i]].position < deck[o[k - 1]].position; }
    if i > k { assert deck[o[k]].position < deck[o[i]].position; }
  }

  /** The position at place i once a card at p is put at place k. */
  function PositionAt(deck: Deck, o: seq<string>, k: nat, p: real, i: nat): real
    requires k <= |o| && i <= |o| && forall n | n in o :: n in deck
  {
    if i < k then deck[o[i]].position else if i == k then p else deck[o[i - 1]].position
  }

  lemma PutAscends(deck: Deck, o: seq<string>, k: nat, p: real, i: nat, j: nat)
    requires Increasing(deck, o, 0.0) && FitsAt(deck, o, k, p) && i < j <= |o|
    ensures PositionAt(deck, o, k, p, i) < PositionAt(deck, o, k, p, j)
  {
    if i < |o| { AroundPlace(deck, o, k, p, i); }
    AroundPlace(deck, o, k, p, j - 1);
    if j < k {
      assert deck[o[i]].position < deck[o[j]].position;
    } else if i > k {
      assert deck[o[i - 1]].position < deck[o[j - 1]].position;
    } else if i < k < j && i < j - 1 {
      assert deck[o[i]].position < deck[o[j - 1]].position;
    }
  }

  lemma PutPosition(deck: Deck, o: seq<string>, k: nat, n: string, c: Card, i: nat)
    requires (forall m | m in o :: m in deck) && n !in o && k <= |o| && i <= |o|
    ensures PutAt(o, n, k)[i] in deck[n := c] && deck[n := c][PutAt(o, n, k)[i]].position
            == PositionAt(deck, o, k, c.position, i)
  {
    assert PutAt(o, n, k)[i] == if i < k then o[i] else if i == k then n else o[i - 1];
  }

  lemma PutMembers(deck: Deck, o: seq<string>, k: nat, n: string, c: Card)
    requires Increasing(deck, o, 0.0) && k <= |o| && c.position > 0.0
    ensures forall m | m in PutAt(o, n, k) :: m in deck[n := c] && deck[n := c][m].position > 0.0
  {
  }

  lemma PutKeepsIncreasing(deck: Deck, o: seq<string>, k: nat, n: string, c: Card)
    requires Increasing(deck, o, 0.0) && n !in o && FitsAt(deck, o, k, c.position)
    ensures Increasing(deck[n := c], PutAt(o, n, k), 0.0)
  {
    var out := PutAt(o, n, k);
    PutMembers(deck, o, k, n, c);
    forall i, j | 0 <= i < j < |out|
      ensures deck[n := c][out[j]].position > deck[n := c][out[i]].position
    {
      PutPosition(deck, o, k, n, c, i);
      PutPosition(deck, o, k, n, c, j);
      PutAscends(deck, o, k, c.position, i, j);
    }
  }

  /** Gaps between neighbours give gaps everywhere. */
  lemma GapsEverywhere(deck: Deck, o: seq<string>)
    requires Increasing(deck, o, 0.0) && !NeedsRenumber(Positions(deck, o))
    ensures Increasing(deck, o, GAP)
  {
    var ps := Positions(deck, o);
    forall i, j | 0 <= i < j < |o|
      ensures deck[o[j]].position - deck[o[i]].position >= GAP
    {
      assert ps[j - 1 + 1] - ps[j - 1] >= GAP;
      if i < j - 1 { assert deck[o[i]].position < deck[o[j - 1]].position; }
    }
  }
}

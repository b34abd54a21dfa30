/** The typo rule of search_logic.py: one wrong, missing, extra or swapped letter. */
module OneTypo {
  import opened Text

  function Min(x: nat, y: nat): nat { if x <= y then x else y }

  predicate SwapEnds(a: string, b: string, i: nat, j: nat)
    requires i <= |a| && j <= |b|
  {
    i > 1 && j > 1 && a[i - 1] == b[j - 2] && a[i - 2] == b[j - 1]
  }

  /** A cell from the ones above, to the left and across, and for swapped ends the one before those. */
  function Cell(up: nat, left: nat, across: nat, differ: bool, swap: Option<nat>): nat {
    var d := Min(Min(up + 1, left + 1), across + if differ then 1 else 0);
    if swap.Some? then Min(d, swap.value + 1) else d
  }

  /** The edit distance with neighbour swaps between the first `i` letters of `a` and the first `j` of `b`. */
  function Distance(a: string, b: string, i: nat, j: nat): nat
    requires i <= |a| && j <= |b|
    decreases i + j
  {
    if i == 0 then j
    else if j == 0 then i
    else
      Cell(Distance(a, b, i - 1, j), Distance(a, b, i, j - 1), Distance(a, b, i - 1, j - 1), a[i - 1] != b[j - 1],
           if SwapEnds(a, b, i, j) then Some(Distance(a, b, i - 2, j - 2)) else None)
  }

  // ---- what one edit is ----

  predicate SubstituteAt(a: string, b: string, k: nat) {
    |a| == |b| && k < |a| && a[..k] == b[..k] && a[k + 1..] == b[k + 1..]
  }

  predicate InsertAt(a: string, b: string, k: nat) {
    |b| == |a| + 1 && k <= |a| && a[..k] == b[..k] && a[k..] == b[k + 1..]
  }

  predicate SwapAt(a: string, b: string, k: nat) {
    |a| == |b| && k + 1 < |a| && a[..k] == b[..k] && a[k] == b[k + 1] && a[k + 1] == b[k] && a[k + 2..] == b[k + 2..]
  }

  /** `b` is `a`, or `a` with one letter replaced, added or dropped, or two neighbours swapped. */
  ghost predicate OneEdit(a: string, b: string) {
    || a == b
    || (exists k: nat :: SubstituteAt(a, b, k))
    || (exists k: nat :: InsertAt(a, b, k))
    || (exists k: nat :: InsertAt(b, a, k))
    || (exists k: nat :: SwapAt(a, b, k))
  }

  // ---- distance at most one means one edit ----

  lemma SameStarts(a: string, b: string, i: nat, j: nat)
    requires 0 < i <= |a| && 0 < j <= |b|
    ensures a[..i] == b[..j] <==> a[..i - 1] == b[..j - 1] && a[i - 1] == b[j - 1]
  {
    assert a[..i] == a[..i - 1] + [a[i - 1]];
    assert b[..j] == b[..j - 1] + [b[j - 1]];
  }

  lemma {:induction false} DistanceZero(a: string, b: string, i: nat, j: nat)
    requires i <= |a| && j <= |b|
    ensures Distance(a, b, i, j) == 0 <==> a[..i] == b[..j]
    decreases i + j
  {
    if i > 0 && j > 0 {
      DistanceZero(a, b, i - 1, j - 1);
      SameStarts(a, b, i, j);
    }
  }

  lemma OneEditSnoc(a: string, b: string, c: char)
    requires OneEdit(a, b)
    ensures OneEdit(a + [c], b + [c])
  {
    var a', b' := a + [c], b + [c];
    if k: nat :| SubstituteAt(a, b, k) {
      assert a'[k + 1..] == a[k + 1..] + [c] && b'[k + 1..] == b[k + 1..] + [c] && a'[..k] == a[..k]
             && b'[..k] == b[..k];
      assert SubstituteAt(a', b', k);
    } else if k: nat :| InsertAt(a, b, k) {
      assert a'[k..] == a[k..] + [c] && b'[k + 1..] == b[k + 1..] + [c] && a'[..k] == a[..k] && b'[..k] == b[..k];
      assert InsertAt(a', b', k);
    } else if k: nat :| InsertAt(b, a, k) {
      assert b'[k..] == b[k..] + [c] && a'[k + 1..] == a[k + 1..] + [c] && a'[..k] == a[..k] && b'[..k] == b[..k];
      assert InsertAt(b', a', k);
    } else if k: nat :| SwapAt(a, b, k) {
      assert a'[k + 2..] == a[k + 2..] + [c] && b'[k + 2..] == b[k + 2..] + [c] && a'[..k] == a[..k]
             && b'[..k] == b[..k];
      assert SwapAt(a', b', k);
    }
  }

  /** One edit either touches the last letters, or both end in the same letter and the edit is before it. */
  ghost predicate AtEnd(a: string, b: string)
    requires a != "" && b != ""
  {
    || a[..|a| - 1] == b
    || a == b[..|b| - 1]
    || a[..|a| - 1] == b[..|b| - 1]
    || (a[|a| - 1] == b[|b| - 1] && OneEdit(a[..|a| - 1], b[..|b| - 1]))
    || (SwapEnds(a, b, |a|, |b|) && a[..|a| - 2] == b[..|b| - 2])
  }

  lemma OneEditUnsnoc(a: string, b: string)
    requires OneEdit(a, b) && a != "" && b != ""
    ensures AtEnd(a, b)
  {
    var m, n := |a| - 1, |b| - 1;
    if k: nat :| SubstituteAt(a, b, k) {
      if k < m {
        assert a[m] == a[k + 1..][m - k - 1] && a[..m][k + 1..] == a[k + 1..][..m - k - 1]
               && b[..m][k + 1..] == b[k + 1..][..m - k - 1];
        assert a[..m][..k] == a[..k] && b[..m][..k] == b[..k];
        assert SubstituteAt(a[..m], b[..n], k);
      }
    } else if k: nat :| InsertAt(a, b, k) {
      InsertUnsnoc(a, b, k);
    } else if k: nat :| InsertAt(b, a, k) {
      InsertUnsnoc(b, a, k);
    } else if k: nat :| SwapAt(a, b, k) {
      if k + 1 < m {
        assert a[m] == a[k + 2..][m - k - 2] && a[..m][k + 2..] == a[k + 2..][..m - k - 2]
               && b[..m][k + 2..] == b[k + 2..][..m - k - 2];
        assert a[..m][..k] == a[..k] && b[..m][..k] == b[..k];
        assert SwapAt(a[..m], b[..n], k);
      }
    }
  }

  lemma InsertUnsnoc(a: string, b: string, k: nat)
    requires InsertAt(a, b, k) && a != ""
    ensures a == b[..|b| - 1] || (a[|a| - 1] == b[|b| - 1] && InsertAt(a[..|a| - 1], b[..|b| - 1], k))
  {
    var m := |a| - 1;
    if k <= m {
      assert a[m] == a[k..][m - k] && b[m + 1] == b[k + 1..][m - k];
      assert a[..m][k..] == a[k..][..m - k] && b[..m + 1][k + 1..] == b[k + 1..][..m - k];
      assert a[..m][..k] == a[..k] && b[..m + 1][..k] == b[..k];
    }
  }

  lemma CellAtMostOne(up: nat, left: nat, across: nat, differ: bool, swap: Option<nat>)
    ensures Cell(up, left, across, differ, swap) <= 1
       <==> up == 0 || left == 0 || across == 0 || (!differ && across <= 1) || swap == Some(0)
  {
  }

  lemma LastStep(a: string, b: string, i: nat, j: nat) returns (up: nat, left: nat, across: nat, swap: Option<nat>)
    requires 0 < i <= |a| && 0 < j <= |b|
    ensures Distance(a, b, i, j) == Cell(up, left, across, a[i - 1] != b[j - 1], swap)
    ensures across == Distance(a, b, i - 1, j - 1)
    ensures up == Distance(a, b, i - 1, j) && left == Distance(a, b, i, j - 1)
    ensures swap.Some? <==> SwapEnds(a, b, i, j)
    ensures swap.Some? ==> swap.value == Distance(a, b, i - 2, j - 2)
  {
    up, left, across := Distance(a, b, i - 1, j), Distance(a, b, i, j - 1), Distance(a, b, i - 1, j - 1);
    swap := if SwapEnds(a, b, i, j) then Some(Distance(a, b, i - 2, j - 2)) else None;
  }

  lemma Zero(a: string, b: string, i: nat, j: nat, n: nat)
    requires i <= |a| && j <= |b| && n == Distance(a, b, i, j)
    ensures n == 0 <==> a[..i] == b[..j]
  {
    DistanceZero(a, b, i, j);
  }

  /** The cells around, when they are zero. */
  lemma LastZeros(a: string, b: string, i: nat, j: nat) returns (up: nat, left: nat, across: nat, swap: Option<nat>)
    requires 0 < i <= |a| && 0 < j <= |b|
    ensures Distance(a, b, i, j) == Cell(up, left, across, a[i - 1] != b[j - 1], swap)
    ensures across == Distance(a, b, i - 1, j - 1)
    ensures up == 0 <==> a[..i - 1] == b[..j]
    ensures left == 0 <==> a[..i] == b[..j - 1]
    ensures across == 0 <==> a[..i - 1] == b[..j - 1]
    ensures swap == Some(0) <==> SwapEnds(a, b, i, j) && a[..i - 2] == b[..j - 2]
  {
    up, left, across, swap := LastStep(a, b, i, j);
    Zero(a, b, i - 1, j, up);
    Zero(a, b, i, j - 1, left);
    Zero(a, b, i - 1, j - 1, across);
    if swap.Some? { Zero(a, b, i - 2, j - 2, swap.value); }
  }

  /** The last step of the recursion, when it comes to at most one. */
  lemma DistanceOneCases(a: string, b: string, i: nat, j: nat)
    requires 0 < i <= |a| && 0 < j <= |b|
    ensures Distance(a, b, i, j) <= 1
       <==> || a[..i - 1] == b[..j]
            || a[..i] == b[..j - 1]
            || a[..i - 1] == b[..j - 1]
            || (a[i - 1] == b[j - 1] && Distance(a, b, i - 1, j - 1) <= 1)
            || (SwapEnds(a, b, i, j) && a[..i - 2] == b[..j - 2])
  {
    var up, left, across, swap := LastZeros(a, b, i, j);
    CellAtMostOne(up, left, across, a[i - 1] != b[j - 1], swap);
  }

  lemma OneEditBuilt(a: string, b: string)
    requires a != "" && b != "" && AtEnd(a, b)
    ensures OneEdit(a, b)
  {
    var m, n := |a| - 1, |b| - 1;
    if a[..m] == b {
      assert InsertAt(b, a, m);
    } else if a == b[..n] {
      assert InsertAt(a, b, n);
    } else if a[..m] == b[..n] {
      assert SubstituteAt(a, b, m);
    } else if a[m] == b[n] && OneEdit(a[..m], b[..n]) {
      OneEditSnoc(a[..m], b[..n], a[m]);
      assert a == a[..m] + [a[m]] && b == b[..n] + [a[m]];
    } else {
      assert SwapAt(a, b, m - 1);
    }
  }

  /** The same five cases for one edit of two words given by their starts and last letters. */
  lemma OneEditCases(a: string, b: string)
    requires a != "" && b != ""
    ensures OneEdit(a, b) <==> AtEnd(a, b)
  {
    if OneEdit(a, b) { OneEditUnsnoc(a, b); }
    if AtEnd(a, b) { OneEditBuilt(a, b); }
  }

  lemma {:induction false} DistanceAtMostOne(a: string, b: string, i: nat, j: nat)
    requires i <= |a| && j <= |b|
    ensures Distance(a, b, i, j) <= 1 <==> OneEdit(a[..i], b[..j])
    decreases i + j
  {
    if i == 0 || j == 0 {
      OneEditFromNothing(a[..i], b[..j]);
    } else {
      DistanceAtMostOne(a, b, i - 1, j - 1);
      DistanceStep(a, b, i, j);
    }
  }

  lemma OneEditFromNothing(x: string, y: string)
    requires x == "" || y == ""
    ensures OneEdit(x, y) <==> |x| + |y| <= 1
  {
    if |y| == 1 { assert InsertAt(x, y, 0); }
    if |x| == 1 { assert InsertAt(y, x, 0); }
  }

  lemma TakeTake(a: string, i: nat, k: nat)
    requires k <= i <= |a|
    ensures a[..i][..k] == a[..k]
  {
  }

  lemma DistanceStep(a: string, b: string, i: nat, j: nat)
    requires 0 < i <= |a| && 0 < j <= |b|
    requires Distance(a, b, i - 1, j - 1) <= 1 <==> OneEdit(a[..i - 1], b[..j - 1])
    ensures Distance(a, b, i, j) <= 1 <==> OneEdit(a[..i], b[..j])
  {
    DistanceOneCases(a, b, i, j);
    OneEditCases(a[..i], b[..j]);
    SameEnds(a, b, i, j);
  }

  /** The five cases of a pair of prefixes, in terms of the whole words. */
  lemma SameEnds(a: string, b: string, i: nat, j: nat)
    requires 0 < i <= |a| && 0 < j <= |b|
    ensures AtEnd(a[..i], b[..j])
       <==> || a[..i - 1] == b[..j]
            || a[..i] == b[..j - 1]
            || a[..i - 1] == b[..j - 1]
            || (a[i - 1] == b[j - 1] && OneEdit(a[..i - 1], b[..j - 1]))
            || (SwapEnds(a, b, i, j) && a[..i - 2] == b[..j - 2])
  {
    TakeTake(a, i, i - 1);
    TakeTake(b, j, j - 1);
    assert SwapEnds(a, b, i, j) == SwapEnds(a[..i], b[..j], i, j);
    if SwapEnds(a, b, i, j) {
      TakeTake(a, i, i - 2);
      TakeTake(b, j, j - 2);
    }
  }

  // ---- the code: a table filled row by row ----

  /** The body of the inner loop: one cell from the ones above, to the left and across. */
  method PutCell(d: array2<nat>, a: string, b: string, i: nat, j: nat)
    requires d.Length0 == |a| + 1 && d.Length1 == |b| + 1
    requires 0 < i <= |a| && 0 < j <= |b|
    modifies d
    ensures d[i, j] == Cell(old(d[i - 1, j]), old(d[i, j - 1]), old(d[i - 1, j - 1]), a[i - 1] != b[j - 1],
                            if SwapEnds(a, b, i, j) then Some(old(d[i - 2, j - 2])) else None)
    ensures forall h: nat, l: nat {:trigger d[h, l]} | h <= |a| && l <= |b|
            && !(h == i && l == j) :: d[h, l] == old(d[h, l])
  {
    var cost := if a[i - 1] != b[j - 1] then 1 else 0;
    d[i, j] := Min(Min(d[i - 1, j] + 1, d[i, j - 1] + 1), d[i - 1, j - 1] + cost);
    if SwapEnds(a, b, i, j) {
      d[i, j] := Min(d[i, j], d[i - 2, j - 2] + 1);
    }
  }

  /** It holds the distance when the cells around hold theirs. */
  method FillCell(d: array2<nat>, a: string, b: string, i: nat, j: nat)
    requires d.Length0 == |a| + 1 && d.Length1 == |b| + 1
    requires 0 < i <= |a| && 0 < j <= |b|
    requires d[i - 1, j] == Distance(a, b, i - 1, j)
    requires d[i, j - 1] == Distance(a, b, i, j - 1)
    requires d[i - 1, j - 1] == Distance(a, b, i - 1, j - 1)
    requires i > 1 && j > 1 ==> d[i - 2, j - 2] == Distance(a, b, i - 2, j - 2)
    modifies d
    ensures d[i, j] == Distance(a, b, i, j)
    ensures forall h: nat, l: nat {:trigger d[h, l]} | h <= |a| && l <= |b|
            && !(h == i && l == j) :: d[h, l] == old(d[h, l])
  {
    ghost var up, left, across, swap := LastStep(a, b, i, j);
    PutCell(d, a, b, i, j);
  }

  /** The first `rows` rows of the table are filled. */
  ghost predicate Filled(d: array2<nat>, a: string, b: string, rows: nat)
    requires d.Length0 == |a| + 1 && d.Length1 == |b| + 1
    reads d
  {
    forall h: nat, l: nat {:trigger d[h, l]} | h < rows && h <= |a| && l <= |b| :: d[h, l] == Distance(a, b, h, l)
  }

  /** The two outer loops before the table is filled: the first column and the first row. */
  method FillEdges(d: array2<nat>, a: string, b: string)
    requires d.Length0 == |a| + 1 && d.Length1 == |b| + 1
    modifies d
    ensures forall h: nat | h <= |a| :: d[h, 0] == h
    ensures Filled(d, a, b, 1)
  {
    for i := 0 to |a| + 1
      invariant forall h: nat | h < i :: d[h, 0] == h
    {
      d[i, 0] := i;
    }
    for j := 0 to |b| + 1
      invariant forall h: nat | h <= |a| :: d[h, 0] == h
      invariant forall h: nat | h < j :: d[0, h] == h
    {
      d[0, j] := j;
    }
  }

  /** One turn of the outer loop. */
  method FillRow(d: array2<nat>, a: string, b: string, i: nat)
    requires d.Length0 == |a| + 1 && d.Length1 == |b| + 1 && 0 < i <= |a|
    requires (forall h: nat | h <= |a| :: d[h, 0] == h) && Filled(d, a, b, i)
    modifies d
    ensures (forall h: nat | h <= |a| :: d[h, 0] == h) && Filled(d, a, b, i + 1)
  {
    for j := 1 to |b| + 1
      invariant forall h: nat | h <= |a| :: d[h, 0] == h
      invariant Filled(d, a, b, i)
      invariant forall l: nat {:trigger d[i, l]} | l < j :: d[i, l] == Distance(a, b, i, l)
    {
      FillCell(d, a, b, i, j);
    }
  }

  /** search_logic._one_typo: true exactly for words of four letters or more that one edit makes equal. */
  method OneTypo(a: string, b: string) returns (yes: bool)
    ensures yes <==> |a| >= 4 && OneEdit(a, b)
  {
    if |a| < 4 || |a| > |b| + 1 || |b| > |a| + 1 {
      return false;
    }
    var d := new nat[|a| + 1, |b| + 1]((i, j) => 0);
    FillEdges(d, a, b);
    for i := 1 to |a| + 1
      invariant forall h: nat | h <= |a| :: d[h, 0] == h
      invariant Filled(d, a, b, i)
    {
      FillRow(d, a, b, i);
    }
    DistanceAtMostOne(a, b, |a|, |b|);
    assert a[..|a|] == a && b[..|b|] == b;
    return d[|a|, |b|] <= 1;
  }
}

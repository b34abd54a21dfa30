/** Text helpers shared by the rule modules. */
module Text {
  datatype Option<+T> = None | Some(value: T)

  /** `t` occurs in `s` at position `at`. */
  predicate OccursAt(s: string, t: string, at: nat) {
    at + |t| <= |s| && forall k | 0 <= k < |t| :: s[at + k] == t[k]
  }

  /** Python's `t in s` and SQL's `like '%t%'`. */
  predicate Contains(s: string, t: string) {
    exists at: nat | at <= |s| :: OccursAt(s, t, at)
  }

  /** Python's sep.join(parts). */
  function Join(parts: seq<string>, sep: string): string {
    if parts == [] then ""
    else if |parts| == 1 then parts[0]
    else parts[0] + sep + Join(parts[1..], sep)
  }

  /** How many leading characters satisfy `p`. */
  function PrefixLength(s: string, p: char -> bool): (n: nat)
    ensures n <= |s|
    ensures forall i | 0 <= i < n :: p(s[i])
    ensures n < |s| ==> !p(s[n])
  {
    if s == "" || !p(s[0]) then 0 else 1 + PrefixLength(s[1..], p)
  }

  lemma ContainsTransitive(a: string, b: string, c: string)
    requires Contains(a, b) && Contains(b, c)
    ensures Contains(a, c)
  {
    var i: nat :| i <= |a| && OccursAt(a, b, i);
    var j: nat :| j <= |b| && OccursAt(b, c, j);
    assert forall k | 0 <= k < |c| :: a[i + j + k] == b[j + k] == c[k];
    assert OccursAt(a, c, i + j);
  }

  lemma ContainsFrom(s: string, t: string, at: nat)
    requires at <= |s| && Contains(s[at..], t)
    ensures Contains(s, t)
  {
    assert OccursAt(s, s[at..], at);
    ContainsTransitive(s, s[at..], t);
  }

  lemma ContainsSlice(s: string, lo: nat, hi: nat)
    requires lo <= hi <= |s|
    ensures Contains(s, s[lo..hi])
  {
    assert OccursAt(s, s[lo..hi], lo);
  }

  /** The parts with a before the first. */
  function Glue(a: string, parts: seq<string>): seq<string>
    requires parts != []
  {
    [a + parts[0]] + parts[1..]
  }

  lemma GlueTwice(a: string, b: string, parts: seq<string>)
    requires parts != []
    ensures Glue(a, Glue(b, parts)) == Glue(a + b, parts)
  {
    assert a + (b + parts[0]) == (a + b) + parts[0];
  }

  lemma GlueNothing(parts: seq<string>)
    requires parts != []
    ensures Glue("", parts) == parts
  {
    assert "" + parts[0] == parts[0];
  }

  lemma Regrouped<T>(a: seq<T>, b: seq<T>, c: seq<T>)
    ensures a + b + c == a + (b + c)
  {
  }

  lemma SubsetSize<T>(a: set<T>, b: set<T>)
    requires a <= b
    ensures |a| <= |b|
  {
    assert b == a + (b - a);
  }
}

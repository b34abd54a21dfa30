/**
 * Values of vCard properties: contacts_rules._esc, ._unesc, and the split at the semicolons no backslash stands
 * before.
 */
module Escapes {
  import opened Text

  /** The characters str.strip takes off. */
  predicate Space(c: char) {
    || '\t' <= c <= '\r' || '\U{1c}' <= c <= ' ' || c == '\U{85}' || c == '\U{a0}' || c == '\U{1680}'
    || '\U{2000}' <= c <= '\U{200a}' || c == '\U{2028}' || c == '\U{2029}' || c == '\U{202f}' || c == '\U{205f}'
        || c == '\U{3000}'
  }

  function TrimRight(s: string): string {
    if s != "" && Space(s[|s| - 1]) then TrimRight(s[..|s| - 1]) else s
  }

  /** s.strip() */
  function Trim(s: string): string {
    if s != "" && Space(s[0]) then Trim(s[1..]) else TrimRight(s)
  }

  predicate Trimmed(s: string) {
    s != "" ==> !Space(s[0]) && !Space(s[|s| - 1])
  }

  lemma {:induction false} TrimRightKeeps(s: string, k: nat)
    requires k < |s| && !Space(s[k])
    ensures s[..k + 1] <= TrimRight(s)
    decreases |s|
  {
    if Space(s[|s| - 1]) {
      TrimRightKeeps(s[..|s| - 1], k);
      assert s[..|s| - 1][..k + 1] == s[..k + 1];
    }
  }

  /** What stands between two characters that are not spaces stays. */
  lemma TrimKeeps(s: string, k: nat)
    requires k < |s| && !Space(s[0]) && !Space(s[k])
    ensures s[..k + 1] <= Trim(s)
  {
    TrimRightKeeps(s, k);
  }

  function EscChar(c: char): (e: string)
    ensures 1 <= |e| <= 2 && '\r' !in e[1..] && '\n' !in e
    ensures e[|e| - 1] == '\\' <==> c == '\\'
  {
    if c == ',' || c == ';' || c == '\\' then ['\\', c]
    else if c == '\n' then ['\\', 'n']
    else [c]
  }

  /** contacts_rules._esc */
  function Esc(s: string): string {
    if s == "" then "" else EscChar(s[0]) + Esc(s[1..])
  }

  predicate Escaping(s: string) {
    |s| >= 2 && s[0] == '\\' && (s[1] == ',' || s[1] == ';' || s[1] == '\\' || s[1] == 'n' || s[1] == 'N')
  }

  /** contacts_rules._unesc */
  function Unesc(s: string): string {
    if s == "" then ""
    else if Escaping(s) then [if s[1] == 'n' || s[1] == 'N' then '\n' else s[1]] + Unesc(s[2..])
    else [s[0]] + Unesc(s[1..])
  }

  /** re.split(r"(?<!\\);", s); `after` says that a backslash stands before s. */
  function Split(s: string, after: bool): (parts: seq<string>)
    ensures |parts| >= 1
  {
    if s == "" then [""]
    else
      var rest := Split(s[1..], s[0] == '\\');
      if s[0] == ';' && !after then [""] + rest else [[s[0]] + rest[0]] + rest[1..]
  }

  lemma UnescStep(c: char, t: string)
    ensures Unesc(EscChar(c) + t) == [c] + Unesc(t)
  {
    var e := EscChar(c) + t;
    if |EscChar(c)| == 2 {
      assert e[2..] == t;
    } else {
      assert e[1..] == t;
    }
  }

  /** Unescaping reads back an escaped value, whatever follows it. */
  lemma {:induction false} UnescEsc(s: string, t: string)
    ensures Unesc(Esc(s) + t) == s + Unesc(t)
  {
    if s == "" {
      assert Esc(s) + t == t && s + Unesc(t) == Unesc(t);
    } else {
      var c, u := s[0], s[1..];
      UnescEsc(u, t);
      UnescStep(c, Esc(u) + t);
      Regrouped(EscChar(c), Esc(u), t);
      Regrouped([c], u, Unesc(t));
      assert [c] + u == s;
    }
  }

  lemma UnescIsEsc(s: string)
    ensures Unesc(Esc(s)) == s
  {
    UnescEsc(s, "");
    assert Esc(s) + "" == Esc(s);
  }

  /** No backslash stands before a character it would escape. */
  predicate NoEscape(s: string) {
    s != "" ==> !Escaping(s) && NoEscape(s[1..])
  }

  /** A text not meant to be unescaped is read back exactly when nothing in it looks escaped. */
  lemma {:induction false} UnescLength(s: string)
    ensures |Unesc(s)| <= |s|
    ensures Unesc(s) == s <==> NoEscape(s)
    ensures |Unesc(s)| == |s| <==> NoEscape(s)
  {
    if s == "" {
    } else if Escaping(s) {
      UnescLength(s[2..]);
    } else {
      UnescLength(s[1..]);
      assert [s[0]] + s[1..] == s;
    }
  }

  lemma {:induction false} TrimLength(s: string)
    ensures |Trim(s)| <= |s|
  {
    if s != "" && Space(s[0]) { TrimLength(s[1..]); } else { TrimRightLength(s); }
  }

  lemma {:induction false} TrimRightLength(s: string)
    ensures |TrimRight(s)| <= |s|
  {
    if s != "" && Space(s[|s| - 1]) { TrimRightLength(s[..|s| - 1]); }
  }

  lemma {:induction false} EscEnds(s: string)
    ensures (Esc(s) == "") == (s == "")
    ensures s != "" && Trimmed(s) ==> !Space(Esc(s)[0])
    ensures s != "" && !Space(s[|s| - 1]) ==> !Space(Esc(s)[|Esc(s)| - 1])
  {
    if |s| > 1 {
      EscEnds(s[1..]);
    } else if s != "" {
      assert Esc(s[1..]) == "" && Esc(s) == EscChar(s[0]) + "";
    }
  }

  lemma EscTrimmed(s: string)
    requires Trimmed(s)
    ensures Trimmed(Esc(s))
  {
    EscEnds(s);
  }

  lemma {:induction false} EscUnbroken(s: string)
    requires '\r' !in s
    ensures '\r' !in Esc(s) && '\n' !in Esc(s)
  {
    if s != "" {
      assert s[0] in s;
      EscUnbroken(s[1..]);
    }
  }

  lemma SplitStep(c: char, t: string, after: bool)
    ensures Split(EscChar(c) + t, after) == Glue(EscChar(c), Split(t, c == '\\'))
  {
    var e, rest := EscChar(c) + t, Split(t, c == '\\');
    if |EscChar(c)| == 2 {
      var d := EscChar(c)[1];
      assert e[1..] == [d] + t && ([d] + t)[1..] == t && (d == '\\' <==> c == '\\');
      assert Split([d] + t, true) == [[d] + rest[0]] + rest[1..];
      assert [e[0]] + ([d] + rest[0]) == EscChar(c) + rest[0];
    } else {
      assert e[1..] == t && [c] + rest[0] == EscChar(c) + rest[0];
    }
  }

  predicate EndsInBackslash(s: string) {
    s != "" && s[|s| - 1] == '\\'
  }

  /** Whether a backslash stands before what follows s. */
  predicate BackslashAfter(s: string, after: bool) {
    if s == "" then after else EndsInBackslash(s)
  }

  /** No split falls inside an escaped value; the one right after it is lost when the value ends in a backslash. */
  lemma {:induction false} SplitEsc(s: string, t: string, after: bool)
    ensures Split(Esc(s) + t, after) == Glue(Esc(s), Split(t, BackslashAfter(s, after)))
  {
    if s == "" {
      assert Esc(s) + t == t;
      GlueNothing(Split(t, after));
    } else {
      var c, u := s[0], s[1..];
      SplitEsc(u, t, c == '\\');
      SplitStep(c, Esc(u) + t, after);
      assert Esc(s) + t == EscChar(c) + (Esc(u) + t);
      assert BackslashAfter(s, after) == BackslashAfter(u, c == '\\');
      GlueTwice(EscChar(c), Esc(u), Split(t, BackslashAfter(s, after)));
    }
  }

  /** A structured value: its parts escaped, a semicolon between any two. */
  function Chain(parts: seq<string>): string {
    if parts == [] then ""
    else if |parts| == 1 then Esc(parts[0])
    else Esc(parts[0]) + (";" + Chain(parts[1..]))
  }

  function Escaped(parts: seq<string>): seq<string> {
    seq(|parts|, i requires 0 <= i < |parts| => Esc(parts[i]))
  }

  lemma Semicolon(u: string)
    ensures Split(";" + u, false) == [""] + Split(u, false)
    ensures Split(";" + u, true) == Glue(";", Split(u, false))
  {
    assert (";" + u)[1..] == u;
  }

  lemma StuckFirst(a: string, parts: seq<string>)
    requires parts != []
    ensures a + ";" <= Glue(a, Glue(";", parts))[0]
  {
    assert a + (";" + parts[0]) == (a + ";") + parts[0];
  }

  lemma OwnFirst(a: string, parts: seq<string>)
    ensures Glue(a, [""] + parts) == [a] + parts
  {
    assert a + "" == a;
  }

  /** One part and what its separator does. */
  lemma PartThenRest(a: string, u: string)
    ensures !EndsInBackslash(a) ==> Split(Esc(a) + (";" + u), false) == [Esc(a)] + Split(u, false)
    ensures EndsInBackslash(a) ==> Esc(a) + ";" <= Split(Esc(a) + (";" + u), false)[0]
  {
    SplitEsc(a, ";" + u, false);
    Semicolon(u);
    if EndsInBackslash(a) {
      StuckFirst(Esc(a), Split(u, false));
    } else {
      OwnFirst(Esc(a), Split(u, false));
    }
  }

  lemma ChainStep(parts: seq<string>)
    requires |parts| >= 2
    ensures !EndsInBackslash(parts[0]) ==>
              Split(Chain(parts), false) == [Esc(parts[0])] + Split(Chain(parts[1..]), false)
    ensures EndsInBackslash(parts[0]) ==> Esc(parts[0]) + ";" <= Split(Chain(parts), false)[0]
  {
    PartThenRest(parts[0], Chain(parts[1..]));
  }

  lemma ChainOne(a: string)
    ensures Split(Esc(a), false) == [Esc(a)]
  {
    SplitEsc(a, "", false);
    assert Esc(a) + "" == Esc(a);
  }

  /** The parts come apart as they were put together, when none that a separator follows ends in a backslash. */
  lemma {:induction false} ChainSplits(parts: seq<string>)
    requires parts != [] && forall i | 0 <= i < |parts| - 1 :: !EndsInBackslash(parts[i])
    ensures Split(Chain(parts), false) == Escaped(parts)
  {
    if |parts| == 1 {
      ChainOne(parts[0]);
    } else {
      assert !EndsInBackslash(parts[0]);
      ChainSplits(parts[1..]);
      ChainStep(parts);
      assert Escaped(parts) == [Esc(parts[0])] + Escaped(parts[1..]);
    }
  }

  /** The first part that ends in a backslash takes its separator along. */
  lemma {:induction false} ChainSticks(parts: seq<string>, i: nat)
    requires i < |parts| - 1 && EndsInBackslash(parts[i])
    requires forall j | 0 <= j < i :: !EndsInBackslash(parts[j])
    ensures i < |Split(Chain(parts), false)| && Esc(parts[i]) + ";" <= Split(Chain(parts), false)[i]
  {
    ChainStep(parts);
    if i > 0 {
      ChainSticks(parts[1..], i - 1);
      assert parts[1..][i - 1] == parts[i];
    }
  }

  /** What the reader takes for a part: `Unesc(x).strip()`, and nothing where there is no such part. */
  function Part(value: string, i: nat): string {
    var parts := Split(value, false);
    if i < |parts| then Trim(Unesc(parts[i])) else ""
  }

  lemma PartRead(parts: seq<string>, i: nat)
    requires i < |parts| && (forall j | 0 <= j < |parts| - 1 :: !EndsInBackslash(parts[j])) && Trimmed(parts[i])
    ensures Part(Chain(parts), i) == parts[i]
  {
    ChainSplits(parts);
    UnescIsEsc(parts[i]);
  }

  /** A value read from more than an escaped one begins with that one. */
  lemma ReadBegins(s: string, piece: string)
    requires Esc(s) <= piece
    ensures s <= Unesc(piece)
  {
    UnescEsc(s, piece[|Esc(s)|..]);
    assert piece == Esc(s) + piece[|Esc(s)|..];
  }

  lemma PartStuck(parts: seq<string>, i: nat)
    requires i < |parts| - 1 && EndsInBackslash(parts[i]) && Trimmed(parts[i])
    requires forall j | 0 <= j < i :: !EndsInBackslash(parts[j])
    ensures Part(Chain(parts), i) != parts[i]
  {
    ChainSticks(parts, i);
    var a, piece := parts[i], Split(Chain(parts), false)[i];
    var t := piece[|Esc(a)|..];
    assert piece == Esc(a) + t && t[0] == ';';
    UnescEsc(a, t);
    assert Unesc(t)[0] == ';';
    var u := Unesc(piece);
    assert u[0] == a[0] && u[|a|] == ';';
    TrimKeeps(u, |a|);
  }

  /**
   * All parts up to `last` are read back exactly when none of them that a separator follows ends in a backslash: the
   * split takes the second half of the escaped backslash for an escape of the separator.
   */
  lemma PartsReadExactly(parts: seq<string>, last: nat)
    requires last + 2 == |parts| && forall i | 0 <= i < |parts| :: Trimmed(parts[i])
    ensures (forall i | 0 <= i <= last :: Part(Chain(parts), i) == parts[i])
       <==> (forall i | 0 <= i <= last :: !EndsInBackslash(parts[i]))
  {
    if i :| 0 <= i <= last && EndsInBackslash(parts[i]) {
      var k := FirstBackslash(parts, i);
      PartStuck(parts, k);
    } else {
      forall i | 0 <= i <= last
        ensures Part(Chain(parts), i) == parts[i]
      {
        PartRead(parts, i);
      }
    }
  }

  lemma {:induction false} FirstBackslash(parts: seq<string>, i: nat) returns (k: nat)
    requires i < |parts| && EndsInBackslash(parts[i])
    ensures k <= i && EndsInBackslash(parts[k]) && forall j | 0 <= j < k :: !EndsInBackslash(parts[j])
  {
    k := 0;
    while !EndsInBackslash(parts[k])
      invariant k <= i && forall j | 0 <= j < k :: !EndsInBackslash(parts[j])
      decreases i - k
    {
      k := k + 1;
    }
  }
}

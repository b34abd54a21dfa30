/** Content lines of vCards and calendars: contacts_rules._unfold takes a file apart into its lines. */
module Lines {
  import opened Text

  predicate Blank(c: char) { c == ' ' || c == '\t' }

  /** text.replace("\r\n", "\n") */
  function PlainBreaks(s: string): string {
    if s == "" then ""
    else if |s| >= 2 && s[0] == '\r' && s[1] == '\n' then "\n" + PlainBreaks(s[2..])
    else [s[0]] + PlainBreaks(s[1..])
  }

  /** How many characters a fold takes at the start of s: a line break and one space or tab. */
  function FoldLength(s: string): (n: nat)
    ensures n <= |s|
  {
    if |s| >= 3 && s[0] == '\r' && s[1] == '\n' && Blank(s[2]) then 3
    else if |s| >= 2 && s[0] == '\n' && Blank(s[1]) then 2
    else 0
  }

  /** re.sub(r"\r?\n[ \t]", "", s) */
  function JoinFolds(s: string): string {
    if s == "" then ""
    else if FoldLength(s) > 0 then JoinFolds(s[FoldLength(s)..])
    else [s[0]] + JoinFolds(s[1..])
  }

  /** s.split("\n") */
  function SplitLines(s: string): (lines: seq<string>)
    ensures |lines| >= 1
  {
    if s == "" then [""]
    else
      var rest := SplitLines(s[1..]);
      if s[0] == '\n' then [""] + rest else [[s[0]] + rest[0]] + rest[1..]
  }

  /** contacts_rules._unfold */
  function Unfold(text: string): seq<string> {
    SplitLines(JoinFolds(PlainBreaks(text)))
  }

  /** A line's text holds no line break of its own. */
  predicate Unbroken(s: string) {
    '\r' !in s && '\n' !in s
  }

  lemma PlainStep(c: char, t: string)
    requires c != '\r'
    ensures PlainBreaks([c] + t) == [c] + PlainBreaks(t)
  {
    assert ([c] + t)[1..] == t;
  }

  lemma FoldStep(c: char, t: string)
    requires c != '\r' && c != '\n'
    ensures JoinFolds([c] + t) == [c] + JoinFolds(t)
  {
    assert FoldLength([c] + t) == 0;
    assert ([c] + t)[1..] == t;
  }

  lemma {:induction false} PlainAfter(a: string, t: string)
    requires Unbroken(a)
    ensures PlainBreaks(a + t) == a + PlainBreaks(t)
  {
    if a == "" {
      assert a + t == t && a + PlainBreaks(t) == PlainBreaks(t);
    } else {
      var c, rest := a[0], a[1..];
      assert c in a && a == [c] + rest;
      PlainAfter(rest, t);
      PlainStep(c, rest + t);
      Regrouped([c], rest, t);
      Regrouped([c], rest, PlainBreaks(t));
    }
  }

  lemma {:induction false} FoldsAfter(a: string, t: string)
    requires Unbroken(a)
    ensures JoinFolds(a + t) == a + JoinFolds(t)
  {
    if a == "" {
      assert a + t == t && a + JoinFolds(t) == JoinFolds(t);
    } else {
      var c, rest := a[0], a[1..];
      assert c in a && a == [c] + rest;
      FoldsAfter(rest, t);
      FoldStep(c, rest + t);
      Regrouped([c], rest, t);
      Regrouped([c], rest, JoinFolds(t));
    }
  }

  lemma SplitOne(c: char, t: string)
    requires c != '\n'
    ensures SplitLines([c] + t) == Glue([c], SplitLines(t))
  {
    assert ([c] + t)[1..] == t;
  }

  lemma {:induction false} SplitAfter(a: string, t: string)
    requires Unbroken(a)
    ensures SplitLines(a + t) == Glue(a, SplitLines(t))
  {
    if a == "" {
      assert a + t == t;
      GlueNothing(SplitLines(t));
    } else {
      var c, u := a[0], a[1..];
      assert c in a && [c] + u == a;
      SplitAfter(u, t);
      SplitOne(c, u + t);
      GlueTwice([c], u, SplitLines(t));
      Regrouped([c], u, t);
    }
  }

  // ---- files written line by line ----

  /** A line as written: its pieces, each but the first after a line break and a space. */
  function Written(pieces: seq<string>): string {
    if pieces == [] then ""
    else if |pieces| == 1 then pieces[0]
    else pieces[0] + "\r\n " + Written(pieces[1..])
  }

  /** The same with plain line breaks. */
  function Soft(pieces: seq<string>): string {
    if pieces == [] then ""
    else if |pieces| == 1 then pieces[0]
    else pieces[0] + "\n " + Soft(pieces[1..])
  }

  function Whole(pieces: seq<string>): string {
    if pieces == [] then "" else pieces[0] + Whole(pieces[1..])
  }

  predicate AllUnbroken(pieces: seq<string>) {
    forall p | p in pieces :: Unbroken(p)
  }

  lemma BreakPlain(t: string)
    ensures PlainBreaks("\r\n" + t) == "\n" + PlainBreaks(t)
  {
    assert ("\r\n" + t)[2..] == t;
  }

  lemma FoldDropped(t: string)
    ensures JoinFolds("\n " + t) == JoinFolds(t)
  {
    assert FoldLength("\n " + t) == 2;
    assert ("\n " + t)[2..] == t;
  }

  lemma PieceThenFold(p: string, rest: string)
    requires Unbroken(p)
    ensures PlainBreaks(p + "\r\n " + rest) == p + "\n " + PlainBreaks(rest)
  {
    FoldPlain(rest);
    PlainAfter(p, "\r\n " + rest);
    assert p + "\r\n " + rest == p + ("\r\n " + rest);
    assert p + ("\n " + PlainBreaks(rest)) == p + "\n " + PlainBreaks(rest);
  }

  lemma FoldPlain(rest: string)
    ensures PlainBreaks("\r\n " + rest) == "\n " + PlainBreaks(rest)
  {
    PlainStep(' ', rest);
    BreakPlain(" " + rest);
    assert "\r\n " + rest == "\r\n" + (" " + rest) && "\n" + (" " + PlainBreaks(rest)) == "\n " + PlainBreaks(rest);
  }

  lemma {:induction false} WrittenPlain(pieces: seq<string>, t: string)
    requires AllUnbroken(pieces)
    ensures PlainBreaks(Written(pieces) + t) == Soft(pieces) + PlainBreaks(t)
  {
    if |pieces| <= 1 {
      assert |pieces| == 1 ==> pieces[0] in pieces;
      PlainAfter(Written(pieces), t);
    } else {
      assert pieces[0] in pieces;
      WrittenPlain(pieces[1..], t);
      PieceThenFold(pieces[0], Written(pieces[1..]) + t);
      Regrouped(pieces[0] + "\r\n ", Written(pieces[1..]), t);
      Regrouped(pieces[0] + "\n ", Soft(pieces[1..]), PlainBreaks(t));
    }
  }

  lemma PieceThenSoft(p: string, rest: string)
    requires Unbroken(p)
    ensures JoinFolds(p + "\n " + rest) == p + JoinFolds(rest)
  {
    FoldDropped(rest);
    FoldsAfter(p, "\n " + rest);
    assert p + "\n " + rest == p + ("\n " + rest);
  }

  lemma {:induction false} SoftJoins(pieces: seq<string>, t: string)
    requires AllUnbroken(pieces)
    ensures JoinFolds(Soft(pieces) + t) == Whole(pieces) + JoinFolds(t)
  {
    if |pieces| <= 1 {
      assert |pieces| == 1 ==> pieces[0] in pieces && Whole(pieces) == pieces[0];
      FoldsAfter(Soft(pieces), t);
    } else {
      assert pieces[0] in pieces;
      SoftJoins(pieces[1..], t);
      PieceThenSoft(pieces[0], Soft(pieces[1..]) + t);
      Regrouped(pieces[0] + "\n ", Soft(pieces[1..]), t);
      Regrouped(pieces[0] + "", Whole(pieces[1..]), JoinFolds(t));
    }
  }

  /** A file: every line written, a line break after each. */
  function File(lines: seq<seq<string>>): string {
    if lines == [] then "" else Written(lines[0]) + "\r\n" + File(lines[1..])
  }

  function Wholes(lines: seq<seq<string>>): seq<string> {
    if lines == [] then [] else [Whole(lines[0])] + Wholes(lines[1..])
  }

  /** Lines that can be told apart: no break inside, and none but the first begins with a space or a tab. */
  predicate Separable(lines: seq<seq<string>>) {
    && (forall i | 0 <= i < |lines| :: AllUnbroken(lines[i]))
    && (forall i | 1 <= i < |lines| :: Whole(lines[i]) == "" || !Blank(Whole(lines[i])[0]))
  }

  lemma {:induction false} WholeUnbroken(pieces: seq<string>)
    requires AllUnbroken(pieces)
    ensures Unbroken(Whole(pieces))
  {
    if pieces != [] {
      WholeUnbroken(pieces[1..]);
      assert pieces[0] in pieces;
    }
  }

  /** The file with plain line breaks. */
  function SoftFile(lines: seq<seq<string>>): string {
    if lines == [] then "" else Soft(lines[0]) + "\n" + SoftFile(lines[1..])
  }

  lemma LineThenFile(pieces: seq<string>, rest: string)
    requires AllUnbroken(pieces)
    ensures PlainBreaks(Written(pieces) + "\r\n" + rest) == Soft(pieces) + "\n" + PlainBreaks(rest)
  {
    BreakPlain(rest);
    WrittenPlain(pieces, "\r\n" + rest);
    Regrouped(Written(pieces), "\r\n", rest);
    Regrouped(Soft(pieces), "\n", PlainBreaks(rest));
  }

  lemma {:induction false} FilePlain(lines: seq<seq<string>>)
    requires forall i | 0 <= i < |lines| :: AllUnbroken(lines[i])
    ensures PlainBreaks(File(lines)) == SoftFile(lines)
  {
    if lines != [] {
      FilePlain(lines[1..]);
      LineThenFile(lines[0], File(lines[1..]));
    }
  }

  lemma BreakKept(t: string)
    requires t == "" || !Blank(t[0])
    ensures JoinFolds("\n" + t) == "\n" + JoinFolds(t)
  {
    assert FoldLength("\n" + t) == 0;
    assert ("\n" + t)[1..] == t;
  }

  /** What follows a line break does not look like a fold. */
  lemma StartsUnfolded(lines: seq<seq<string>>)
    requires lines != [] ==> AllUnbroken(lines[0]) && (Whole(lines[0]) == "" || !Blank(Whole(lines[0])[0]))
    ensures var t := SoftFile(lines); t == "" || !Blank(t[0])
  {
    if lines != [] {
      var p := lines[0];
      assert SoftFile(lines) == Soft(p) + ("\n" + SoftFile(lines[1..]));
      if p != [] && p[0] != "" {
        assert Whole(p)[0] == p[0][0] && Soft(p)[0] == p[0][0];
      } else if |p| > 1 {
        assert Soft(p)[0] == '\n';
      }
    }
  }

  lemma NothingBefore(a: string, b: string)
    ensures "" + a == a && "" + b == b
  {
  }

  lemma LineThenSoft(pieces: seq<string>, rest: string)
    requires AllUnbroken(pieces) && (rest == "" || !Blank(rest[0]))
    ensures JoinFolds(Soft(pieces) + "\n" + rest) == Whole(pieces) + "\n" + JoinFolds(rest)
  {
    BreakKept(rest);
    SoftJoins(pieces, "\n" + rest);
    Regrouped("" + Soft(pieces), "\n", rest);
    Regrouped("" + Whole(pieces), "\n", JoinFolds(rest));
    NothingBefore(Soft(pieces), Whole(pieces));
  }

  lemma {:induction false} SoftFileJoins(lines: seq<seq<string>>)
    requires Separable(lines)
    ensures JoinFolds(SoftFile(lines)) == Lined(Wholes(lines))
  {
    if lines != [] {
      SoftFileJoins(lines[1..]);
      StartsUnfolded(lines[1..]);
      LineThenSoft(lines[0], SoftFile(lines[1..]));
      assert Wholes(lines)[1..] == Wholes(lines[1..]);
    }
  }

  function Lined(lines: seq<string>): string {
    if lines == [] then "" else lines[0] + "\n" + Lined(lines[1..])
  }

  lemma {:induction false} LinedSplits(lines: seq<string>)
    requires forall l | l in lines :: Unbroken(l)
    ensures SplitLines(Lined(lines)) == lines + [""]
  {
    if lines != [] {
      assert lines[0] in lines;
      var t := "\n" + Lined(lines[1..]);
      LinedSplits(lines[1..]);
      assert t[1..] == Lined(lines[1..]);
      assert SplitLines(t) == [""] + (lines[1..] + [""]);
      SplitAfter(lines[0], t);
      assert Lined(lines) == lines[0] + t;
      assert lines[0] + "" == lines[0];
    }
  }

  lemma {:induction false} WholesUnbroken(lines: seq<seq<string>>)
    requires forall i | 0 <= i < |lines| :: AllUnbroken(lines[i])
    ensures forall l | l in Wholes(lines) :: Unbroken(l)
  {
    if lines != [] {
      WholeUnbroken(lines[0]);
      WholesUnbroken(lines[1..]);
    }
  }

  /** A written file unfolds to its lines; the break after the last leaves an empty one. */
  lemma FileUnfolds(lines: seq<seq<string>>)
    requires Separable(lines)
    ensures Unfold(File(lines)) == Wholes(lines) + [""]
  {
    FilePlain(lines);
    SoftFileJoins(lines);
    WholesUnbroken(lines);
    LinedSplits(Wholes(lines));
  }

  lemma {:induction false} PlainAlready(s: string)
    requires '\r' !in s
    ensures PlainBreaks(s) == s
  {
    if s != "" {
      PlainAlready(s[1..]);
      assert [s[0]] + s[1..] == s;
    }
  }

  lemma {:induction false} SoftUnbroken(pieces: seq<string>)
    requires AllUnbroken(pieces)
    ensures '\r' !in Soft(pieces)
  {
    if pieces != [] {
      assert pieces[0] in pieces;
      SoftUnbroken(pieces[1..]);
    }
  }

  lemma {:induction false} SoftFilePlain(lines: seq<seq<string>>)
    requires forall i | 0 <= i < |lines| :: AllUnbroken(lines[i])
    ensures '\r' !in SoftFile(lines)
  {
    if lines != [] {
      SoftUnbroken(lines[0]);
      SoftFilePlain(lines[1..]);
    }
  }

  /** So does a file written with single line feeds. */
  lemma SoftFileUnfolds(lines: seq<seq<string>>)
    requires Separable(lines)
    ensures Unfold(SoftFile(lines)) == Wholes(lines) + [""]
  {
    SoftFilePlain(lines);
    PlainAlready(SoftFile(lines));
    SoftFileJoins(lines);
    WholesUnbroken(lines);
    LinedSplits(Wholes(lines));
  }

  /** A line break with a space or a tab after it is no break, whichever break it is. */
  lemma FoldTaken(a: string, c: char, t: string)
    requires Unbroken(a) && (c == ' ' || c == '\t')
    ensures Unfold(a + ("\n" + ([c] + t))) == Unfold(a + t) == Unfold(a + ("\r\n" + ([c] + t)))
  {
    PlainAfter(a, "\n" + ([c] + t));
    PlainAfter(a, "\r\n" + ([c] + t));
    PlainAfter(a, t);
    PlainStep('\n', [c] + t);
    BreakPlain([c] + t);
    PlainStep(c, t);
    FoldsAfter(a, "\n" + ([c] + PlainBreaks(t)));
    FoldsAfter(a, PlainBreaks(t));
    FoldSkipped(c, PlainBreaks(t));
  }

  lemma FoldSkipped(c: char, t: string)
    requires c == ' ' || c == '\t'
    ensures JoinFolds("\n" + ([c] + t)) == JoinFolds(t)
  {
    var s := "\n" + ([c] + t);
    assert s[1] == c && FoldLength(s) == 2 && s[2..] == t;
  }

  /** Any other line break, and only a line feed, ends a line. */
  lemma BreakTaken(a: string, t: string)
    requires Unbroken(a) && '\r' !in t && (t != "" ==> t[0] != ' ' && t[0] != '\t')
    ensures Unfold(a + ("\n" + t)) == [a] + Unfold(t)
  {
    PlainAfter(a, "\n" + t);
    PlainStep('\n', t);
    PlainAlready(t);
    FoldsAfter(a, "\n" + t);
    BreakKept(t);
    SplitAfter(a, "\n" + JoinFolds(t));
    assert ("\n" + JoinFolds(t))[1..] == JoinFolds(t);
    assert Glue(a, [""] + SplitLines(JoinFolds(t))) == [a] + SplitLines(JoinFolds(t)) by { assert a + "" == a; }
  }
}

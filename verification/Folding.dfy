/**
 * Folding calendar lines (calendar_rules._fold, section 3.1 of RFC 5545): lines of more than 74 octets are cut, never
 * inside a character, and every piece but the first begins with a space.
 */
module Folding {
  import opened Text
  import opened Utf8
  import opened Lines

  const LIMIT: nat := 74

  function Size(s: string): nat { |Encode(s)| }

  /** How many leading characters fit into `room` octets. */
  function Fit(s: string, room: nat): (k: nat)
    ensures k <= |s|
  {
    if s == "" || |EncodeChar(s[0])| > room then 0 else 1 + Fit(s[1..], room - |EncodeChar(s[0])|)
  }

  lemma EncodeFirst(c: char, t: string)
    ensures Encode([c] + t) == EncodeChar(c) + Encode(t)
  {
    assert ([c] + t)[1..] == t;
  }

  lemma {:induction false} FitIsLongest(s: string, room: nat)
    ensures var k := Fit(s, room);
            && Encode(s) == Encode(s[..k]) + Encode(s[k..]) && Size(s[..k]) <= room
            && (k < |s| ==> Size(s[..k]) + |EncodeChar(s[k])| > room)
  {
    var k := Fit(s, room);
    if k == 0 {
      assert s[..0] == "" && s[0..] == s;
      assert Encode(s[..0]) == [] && [] + Encode(s) == Encode(s);
    } else {
      var c, t := s[0], s[1..];
      FitIsLongest(t, room - |EncodeChar(c)|);
      assert s == [c] + t && s[..k] == [c] + t[..k - 1] && s[k..] == t[k - 1..];
      EncodeFirst(c, t);
      EncodeFirst(c, t[..k - 1]);
      Regrouped(EncodeChar(c), Encode(t[..k - 1]), Encode(t[k - 1..]));
    }
  }

  /** The pieces of a line: each the longest that fits, the rest going on after a space. */
  function Pieces(s: string): (pieces: seq<string>)
    ensures pieces != []
    decreases Size(s)
  {
    if Size(s) <= LIMIT then [s]
    else
      PieceShrinks(s);
      var k := Fit(s, LIMIT);
      [s[..k]] + Pieces(" " + s[k..])
  }

  lemma PieceShrinks(s: string)
    requires Size(s) > LIMIT
    ensures var k := Fit(s, LIMIT);
            k < |s| && Size(s[..k]) >= LIMIT - 3 && Size(" " + s[k..]) == 1 + Size(s) - Size(s[..k])
  {
    FitIsLongest(s, LIMIT);
    var k := Fit(s, LIMIT);
    assert |Encode(s[k..])| > 0;
    SpaceFirst(s[k..]);
  }

  lemma LongPieces(s: string)
    requires Size(s) > LIMIT
    ensures var k := Fit(s, LIMIT); Size(" " + s[k..]) < Size(s) && Pieces(s) == [s[..k]] + Pieces(" " + s[k..])
  {
    PieceShrinks(s);
  }

  lemma SpaceFirst(t: string)
    ensures Encode(" " + t) == [0x20] + Encode(t)
  {
    assert (" " + t)[1..] == t && EncodeChar(' ') == [0x20];
  }

  /**
   * Backing off from the 75th octet to the first octet of its character finds the longest piece, at most three octets
   * back.
   */
  lemma BackOff(s: string)
    requires Size(s) > LIMIT
    ensures var b, n := Encode(s), Size(s[..Fit(s, LIMIT)]);
            && LIMIT - 3 <= n <= LIMIT && !Continues(b[n]) && (forall i | n < i <= LIMIT :: Continues(b[i]))
            && b[..n] == Encode(s[..Fit(s, LIMIT)]) && [0x20] + b[n..] == Encode(" " + s[Fit(s, LIMIT)..])
  {
    var k := Fit(s, LIMIT);
    var b, n := Encode(s), Size(s[..k]);
    FitIsLongest(s, LIMIT);
    PieceShrinks(s);
    var c, rest := s[k], Encode(s[k..][1..]);
    assert Encode(s[k..]) == EncodeChar(c) + rest;
    FirstByte(c);
    assert b[n] == EncodeChar(c)[0];
    forall i | n < i <= LIMIT
      ensures Continues(b[i])
    {
      assert b[i] == EncodeChar(c)[i - n];
    }
    SpaceFirst(s[k..]);
  }

  /** calendar_rules._fold's loop: the pieces, each decoded from the octets cut off. */
  method FoldPieces(line: string) returns (out: seq<string>)
    ensures out == Pieces(line)
  {
    var b := Encode(line);
    ghost var rest := line;
    out := [];
    while |b| > LIMIT
      invariant b == Encode(rest) && out + Pieces(rest) == Pieces(line)
      decreases |b|
    {
      BackOff(rest);
      PieceShrinks(rest);
      ghost var k := Fit(rest, LIMIT);
      var cut := LIMIT;
      while cut > 0 && Continues(b[cut])
        invariant Size(rest[..k]) <= cut <= LIMIT
      {
        cut := cut - 1;
      }
      RoundTrip(rest[..k]);
      assert Decode(b[..cut]) == Some(rest[..k]);
      LongPieces(rest);
      Regrouped(out, [rest[..k]], Pieces(" " + rest[k..]));
      out := out + [Decode(b[..cut]).value];
      b := [0x20] + b[cut..];
      rest := " " + rest[k..];
    }
    RoundTrip(rest);
    out := out + [Decode(b).value];
  }

  /** calendar_rules._fold */
  method Fold(line: string) returns (folded: string)
    ensures folded == Join(Pieces(line), "\r\n")
  {
    var pieces := FoldPieces(line);
    folded := Join(pieces, "\r\n");
  }

  // ---- what folding promises ----

  /** No piece is longer than 74 octets, and all but the last are cut no more than three octets short of it. */
  lemma {:induction false} PiecesFit(s: string)
    ensures forall i | 0 <= i < |Pieces(s)| :: Size(Pieces(s)[i]) <= 74
    ensures forall i | 0 <= i < |Pieces(s)| - 1 :: Size(Pieces(s)[i]) >= 71
    ensures Size(s) <= 74 ==> Pieces(s) == [s]
    ensures forall i | 1 <= i < |Pieces(s)| :: Pieces(s)[i] != "" && Pieces(s)[i][0] == ' '
    decreases Size(s)
  {
    if Size(s) > LIMIT {
      FitIsLongest(s, LIMIT);
      PieceShrinks(s);
      var next := " " + s[Fit(s, LIMIT)..];
      PiecesFit(next);
      StartsWithSpace(next);
    }
  }

  lemma StartsWithSpace(s: string)
    requires s != "" && s[0] == ' '
    ensures Pieces(s)[0] != "" && Pieces(s)[0][0] == ' '
  {
    if Size(s) > LIMIT { PieceShrinks(s); }
  }

  /** What is written after the line breaks: the pieces without the space they begin with. */
  function Tails(pieces: seq<string>): (ts: seq<string>)
    ensures |ts| == |pieces|
  {
    seq(|pieces|, i requires 0 <= i < |pieces| => if i == 0 || pieces[i] == "" then pieces[i] else pieces[i][1..])
  }

  lemma {:induction false} JoinIsWritten(pieces: seq<string>)
    requires pieces != [] && forall i | 1 <= i < |pieces| :: pieces[i] != "" && pieces[i][0] == ' '
    ensures Join(pieces, "\r\n") == Written(Tails(pieces))
  {
    if |pieces| > 1 {
      var p, q := pieces[1..], Tails(pieces);
      JoinIsWritten(p);
      JoinFrom(p, q[1..]);
      assert pieces[0] + "\r\n" + (" " + Written(q[1..])) == pieces[0] + "\r\n " + Written(q[1..]);
    }
  }

  /** A first piece that begins with a space: the same text as a space and the piece without it. */
  lemma JoinFrom(p: seq<string>, q: seq<string>)
    requires p != [] && |q| == |p| && p[0] != "" && p[0][0] == ' ' && q[0] == p[0][1..]
    requires forall i | 1 <= i < |p| :: q[i] == Tails(p)[i]
    ensures Written(Tails(p)) == " " + Written(q)
  {
    assert Tails(p)[1..] == q[1..];
    assert p[0] == " " + q[0];
  }

  lemma ShortWhole(s: string)
    requires Size(s) <= LIMIT
    ensures Whole(Tails(Pieces(s))) == s
  {
    assert Tails([s]) == [s];
    assert Whole([s]) == s;
  }

  lemma {:induction false} TailsWhole(s: string)
    ensures Whole(Tails(Pieces(s))) == s
    decreases Size(s)
  {
    if Size(s) <= LIMIT {
      ShortWhole(s);
    } else {
      LongPieces(s);
      var k := Fit(s, LIMIT);
      var first, rest := s[..k], s[k..];
      TailsWhole(" " + rest);
      TailsOfNext(first, rest);
      assert first + rest == s;
    }
  }

  lemma TailsOfNext(first: string, rest: string)
    requires Whole(Tails(Pieces(" " + rest))) == " " + rest
    ensures Whole(Tails([first] + Pieces(" " + rest))) == first + rest
  {
    var next := " " + rest;
    StartsWithSpace(next);
    PiecesFit(next);
    TailsStep(first, Pieces(next), rest);
  }

  lemma TailsStep(first: string, p: seq<string>, rest: string)
    requires p != [] && (forall i | 0 <= i < |p| :: p[i] != "" && p[i][0] == ' ')
    requires Whole(Tails(p)) == " " + rest
    ensures Whole(Tails([first] + p)) == first + rest
  {
    var q := Tails([first] + p)[1..];
    assert Tails([first] + p)[0] == first;
    assert Tails(p)[1..] == q[1..] && q[0] == p[0][1..] && p[0] == " " + q[0];
    assert " " + Whole(q) == p[0] + Whole(q[1..]);
    SameAfterSpace(Whole(q), rest);
  }

  lemma SameAfterSpace(a: string, b: string)
    requires " " + a == " " + b
    ensures a == b
  {
    assert a == (" " + a)[1..] == (" " + b)[1..] == b;
  }

  /** Unfolding what _fold writes gives the line back. */
  lemma UnfoldFold(line: string)
    requires Unbroken(line)
    ensures Unfold(Join(Pieces(line), "\r\n")) == [line]
  {
    var ps := Tails(Pieces(line));
    PiecesFit(line);
    JoinIsWritten(Pieces(line));
    TailsWhole(line);
    UnbrokenParts(ps);
    WrittenPlain(ps, "");
    SoftJoins(ps, "");
    SplitAfter(line, "");
    assert Written(ps) + "" == Written(ps) && Soft(ps) + "" == Soft(ps) && line + "" == line;
  }

  /** A calendar: every line folded, a line break after each (calendar_rules.ics_calendar). */
  function Calendar(lines: seq<string>): string {
    if lines == [] then "" else Join(Pieces(lines[0]), "\r\n") + "\r\n" + Calendar(lines[1..])
  }

  function Parts(lines: seq<string>): (ps: seq<seq<string>>)
    ensures |ps| == |lines| && forall i | 0 <= i < |lines| :: ps[i] == Tails(Pieces(lines[i]))
  {
    if lines == [] then [] else [Tails(Pieces(lines[0]))] + Parts(lines[1..])
  }

  lemma FoldedLine(line: string)
    ensures Join(Pieces(line), "\r\n") == Written(Tails(Pieces(line))) && Whole(Tails(Pieces(line))) == line
  {
    PiecesFit(line);
    JoinIsWritten(Pieces(line));
    TailsWhole(line);
  }

  lemma {:induction false} CalendarIsFile(lines: seq<string>)
    ensures Calendar(lines) == File(Parts(lines)) && Wholes(Parts(lines)) == lines
  {
    if lines != [] {
      var first, rest := Tails(Pieces(lines[0])), lines[1..];
      FoldedLine(lines[0]);
      CalendarIsFile(rest);
      OneMoreLine(first, Parts(rest));
      assert Parts(lines) == [first] + Parts(rest) && lines == [lines[0]] + rest;
    }
  }

  lemma OneMoreLine(first: seq<string>, rest: seq<seq<string>>)
    ensures File([first] + rest) == Written(first) + "\r\n" + File(rest)
    ensures Wholes([first] + rest) == [Whole(first)] + Wholes(rest)
  {
    assert ([first] + rest)[1..] == rest;
  }

  lemma {:induction false} UnbrokenParts(pieces: seq<string>)
    requires Unbroken(Whole(pieces))
    ensures AllUnbroken(pieces)
  {
    if pieces != [] {
      assert forall c | c in pieces[0] :: c in Whole(pieces);
      assert forall c | c in Whole(pieces[1..]) :: c in Whole(pieces);
      UnbrokenParts(pieces[1..]);
      assert pieces == [pieces[0]] + pieces[1..];
    }
  }

  /** Unfolding a calendar gives back exactly the lines it was written from, whatever their length and characters. */
  lemma UnfoldCalendar(lines: seq<string>)
    requires forall l | l in lines :: Unbroken(l)
    requires forall i | 1 <= i < |lines| :: lines[i] == "" || !Blank(lines[i][0])
    ensures Unfold(Calendar(lines)) == lines + [""]
  {
    CalendarIsFile(lines);
    forall i | 0 <= i < |lines|
      ensures AllUnbroken(Parts(lines)[i]) && Whole(Parts(lines)[i]) == lines[i]
    {
      TailsWhole(lines[i]);
      UnbrokenParts(Parts(lines)[i]);
    }
    FileUnfolds(Parts(lines));
  }
}

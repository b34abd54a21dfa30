/**
 * What vCard lines look like and mean beyond the cards written here: escaped text letter by letter, the lines of a
 * written card, and cards of others, with any of the names, organisation, phone and e-mail missing.
 */
module VCardForms {
  import opened Text
  import opened Escapes
  import opened VCard

  // ---- escaped text ----

  /** Only comma, semicolon, backslash and line break are escaped; every text letter by letter. */
  lemma EscExactly(a: string, c: char)
    ensures Esc("") == "" && Esc(a + [c]) == Esc(a) + Esc([c])
    ensures Esc([c]) == if c == ',' then "\\," else if c == ';' then "\\;" else if c == '\\' then "\\\\"
                else if c == '\n' then "\\n" else [c]
  {
    assert [c][1..] == "" && EscChar(c) + "" == EscChar(c);
    EscAppend(a, [c]);
  }

  lemma {:induction false} EscAppend(a: string, b: string)
    ensures Esc(a + b) == Esc(a) + Esc(b)
  {
    if a == "" {
      assert a + b == b;
    } else {
      assert (a + b)[0] == a[0] && (a + b)[1..] == a[1..] + b;
      EscAppend(a[1..], b);
      Regrouped(EscChar(a[0]), Esc(a[1..]), Esc(b));
    }
  }

  /** What a backslash makes of the next letter; any other text stands for itself. */
  lemma UnescExactly(c: char, t: string)
    ensures Unesc("") == "" && (c != '\\' ==> Unesc([c] + t) == [c] + Unesc(t))
    ensures c == 'n' || c == 'N' ==> Unesc(['\\', c] + t) == ['\n'] + Unesc(t)
    ensures c == ',' || c == ';' || c == '\\' ==> Unesc(['\\', c] + t) == [c] + Unesc(t)
    ensures c != 'n' && c != 'N' && c != ',' && c != ';' && c != '\\' ==>
              Unesc(['\\', c] + t) == ['\\', c] + Unesc(t)
    ensures Unesc("\\") == "\\"
  {
    var s := ['\\', c] + t;
    assert ([c] + t)[1..] == t && s[2..] == t && s[1..] == [c] + t;
    if !Escaping(s) { assert ['\\'] + ([c] + Unesc(t)) == ['\\', c] + Unesc(t); }
  }

  /** What is stripped off is space, and all the space at the ends. */
  lemma {:induction false} TrimExactly(s: string) returns (i: nat, j: nat)
    ensures Trimmed(Trim(s)) && i <= j <= |s| && Trim(s) == s[i..j] && AllSpace(s[..i]) && AllSpace(s[j..])
  {
    if s != "" && Space(s[0]) {
      i, j := TrimExactly(s[1..]);
      OneSpaceMore(s, i, j);
      i, j := i + 1, j + 1;
    } else {
      i := 0;
      j := TrimRightExactly(s);
      assert s[0..j] == s[..j] && s[..0] == "";
    }
  }

  lemma OneSpaceMore(s: string, i: nat, j: nat)
    requires s != "" && Space(s[0]) && i <= j < |s| && AllSpace(s[1..][..i])
    ensures s[1..][i..j] == s[i + 1..j + 1] && s[j + 1..] == s[1..][j..] && AllSpace(s[..i + 1])
  {
    assert s[..i + 1] == [s[0]] + s[1..][..i];
  }

  lemma {:induction false} TrimRightExactly(s: string) returns (j: nat)
    ensures j <= |s| && TrimRight(s) == s[..j] && AllSpace(s[j..]) && (j > 0 ==> !Space(s[j - 1]))
  {
    if s != "" && Space(s[|s| - 1]) {
      var n := |s| - 1;
      j := TrimRightExactly(s[..n]);
      assert s[..n][..j] == s[..j] && s[j..] == s[..n][j..] + [s[n]];
    } else {
      j := |s|;
    }
  }

  /** The parts with a semicolon between any two are the text again; none has a semicolon no backslash stands before. */
  lemma {:induction false} SplitExactly(s: string, after: bool)
    ensures Join(Split(s, after), ";") == s
  {
    if s != "" {
      var rest := Split(s[1..], s[0] == '\\');
      SplitExactly(s[1..], s[0] == '\\');
      if s[0] == ';' && !after {
        JoinCons("", rest);
        assert "" + ";" + s[1..] == s;
      } else {
        JoinGlue([s[0]], rest);
      }
    }
  }

  lemma JoinCons(a: string, parts: seq<string>)
    requires parts != []
    ensures Join([a] + parts, ";") == a + ";" + Join(parts, ";")
  {
    assert ([a] + parts)[1..] == parts;
  }

  lemma JoinGlue(a: string, parts: seq<string>)
    requires parts != []
    ensures Join([a + parts[0]] + parts[1..], ";") == a + Join(parts, ";")
  {
    var glued := [a + parts[0]] + parts[1..];
    assert glued[1..] == parts[1..];
    if |parts| > 1 {
      assert a + parts[0] + ";" + Join(parts[1..], ";") == a + (parts[0] + ";" + Join(parts[1..], ";"));
    }
  }

  // ---- the lines of a written card ----

  /** A card's first four lines and its last. */
  lemma CardFrame(r: Contact)
    ensures var lines := CardLines(r);
            && |lines| >= 5 && lines[0] == "BEGIN:VCARD" && lines[1] == "VERSION:3.0" && lines[2] == "FN:" + Esc(r.name)
            && lines[3] == "N:" + (";" + Esc(r.name) + ";;;") && lines[|lines| - 1] == "END:VCARD"
            && lines[4..|lines| - 1] == Optional(r)
  {
    OptionalLines(r);
    assert "VERSION" + ":" + "3.0" == "VERSION:3.0" && "FN" + ":" == "FN:" && "N" + ":" == "N:";
  }

  /** The lines between are these, each as the field it is for asks. */
  lemma CardLinesExactly(r: Contact, line: string)
    ensures |CardLines(r)| >= 5
    ensures line in CardLines(r)[4..|CardLines(r)| - 1] <==>
              || (r.company != "" && line == "ORG:" + Esc(r.company))
              || (r.phone != "" && line == "TEL;TYPE=CELL:" + r.phone)
              || (r.whatsapp != "" && r.whatsapp != r.phone && line == "TEL;TYPE=CELL:" + r.whatsapp)
              || (r.email != "" && line == "EMAIL;TYPE=INTERNET:" + r.email)
              || ((r.street != "" || r.city != "" || r.state != "" || r.pin != "")
                  && line == "ADR;TYPE=WORK:" + (";;" + Esc(r.street) + ";" + Esc(r.city) + ";" + Esc(r.state) + ";"
                                                 + Esc(r.pin) + ";" + Esc(r.country)))
              || (r.kind != "" && line == "CATEGORIES:" + Esc(r.kind))
              || (r.notes != "" && line == "NOTE:" + Esc(r.notes))
  {
    CardFrame(r);
    OptionalExactly(r, line);
    KeysWritten();
  }

  lemma KeysWritten()
    ensures "ORG" + ":" == "ORG:" && "TEL;TYPE=CELL" + ":" == "TEL;TYPE=CELL:"
    ensures "EMAIL;TYPE=INTERNET" + ":" == "EMAIL;TYPE=INTERNET:" && "ADR;TYPE=WORK" + ":" == "ADR;TYPE=WORK:"
    ensures "CATEGORIES" + ":" == "CATEGORIES:" && "NOTE" + ":" == "NOTE:"
  {
  }

  lemma InWith(lines: seq<string>, c: bool, line: string, x: string)
    ensures x in With(lines, c, line) <==> x in lines || (c && x == line)
  {
  }

  lemma OptionalExactly(r: Contact, x: string)
    ensures x in Optional(r) <==>
              || (r.company != "" && x == Line("ORG", Esc(r.company)))
              || (r.phone != "" && x == Line("TEL;TYPE=CELL", r.phone))
              || (r.whatsapp != "" && r.whatsapp != r.phone && x == Line("TEL;TYPE=CELL", r.whatsapp))
              || (r.email != "" && x == Line("EMAIL;TYPE=INTERNET", r.email))
              || (HasAddress(r) && x == Line("ADR;TYPE=WORK", AddressText(r)))
              || (r.kind != "" && x == Line("CATEGORIES", Esc(r.kind)))
              || (r.notes != "" && x == Line("NOTE", Esc(r.notes)))
  {
    var o1 := With([], r.company != "", Line("ORG", Esc(r.company)));
    var o2 := With(o1, r.phone != "", Line("TEL;TYPE=CELL", r.phone));
    var o3 := With(o2, r.whatsapp != "" && r.whatsapp != r.phone, Line("TEL;TYPE=CELL", r.whatsapp));
    var o4 := With(o3, r.email != "", Line("EMAIL;TYPE=INTERNET", r.email));
    var o5 := With(o4, HasAddress(r), Line("ADR;TYPE=WORK", AddressText(r)));
    var o6 := With(o5, r.kind != "", Line("CATEGORIES", Esc(r.kind)));
    InWith([], r.company != "", Line("ORG", Esc(r.company)), x);
    InWith(o1, r.phone != "", Line("TEL;TYPE=CELL", r.phone), x);
    InWith(o2, r.whatsapp != "" && r.whatsapp != r.phone, Line("TEL;TYPE=CELL", r.whatsapp), x);
    InWith(o3, r.email != "", Line("EMAIL;TYPE=INTERNET", r.email), x);
    InWith(o4, HasAddress(r), Line("ADR;TYPE=WORK", AddressText(r)), x);
    InWith(o5, r.kind != "", Line("CATEGORIES", Esc(r.kind)), x);
    InWith(o6, r.notes != "", Line("NOTE", Esc(r.notes)), x);
  }

  /** The lines between the first four and the last. */
  function Optional(r: Contact): seq<string> {
    With(With(With(With(With(With(With([], r.company != "", Line("ORG", Esc(r.company))),
                                  r.phone != "", Line("TEL;TYPE=CELL", r.phone)),
                             r.whatsapp != "" && r.whatsapp != r.phone, Line("TEL;TYPE=CELL", r.whatsapp)),
                        r.email != "", Line("EMAIL;TYPE=INTERNET", r.email)),
                   HasAddress(r), Line("ADR;TYPE=WORK", AddressText(r))),
              r.kind != "", Line("CATEGORIES", Esc(r.kind))),
         r.notes != "", Line("NOTE", Esc(r.notes)))
  }

  lemma WithAfter(a: seq<string>, lines: seq<string>, c: bool, line: string)
    ensures With(a + lines, c, line) == a + With(lines, c, line)
  {
    assert a + lines + [line] == a + (lines + [line]);
  }

  lemma OptionalLines(r: Contact)
    ensures CardLines(r) == NameLines(r) + Optional(r) + ["END:VCARD"]
  {
    var a := NameLines(r);
    var o1 := With([], r.company != "", Line("ORG", Esc(r.company)));
    var o2 := With(o1, r.phone != "", Line("TEL;TYPE=CELL", r.phone));
    var o3 := With(o2, r.whatsapp != "" && r.whatsapp != r.phone, Line("TEL;TYPE=CELL", r.whatsapp));
    var o4 := With(o3, r.email != "", Line("EMAIL;TYPE=INTERNET", r.email));
    var o5 := With(o4, HasAddress(r), Line("ADR;TYPE=WORK", AddressText(r)));
    var o6 := With(o5, r.kind != "", Line("CATEGORIES", Esc(r.kind)));
    assert a + [] == a;
    WithAfter(a, [], r.company != "", Line("ORG", Esc(r.company)));
    WithAfter(a, o1, r.phone != "", Line("TEL;TYPE=CELL", r.phone));
    WithAfter(a, o2, r.whatsapp != "" && r.whatsapp != r.phone, Line("TEL;TYPE=CELL", r.whatsapp));
    WithAfter(a, o3, r.email != "", Line("EMAIL;TYPE=INTERNET", r.email));
    WithAfter(a, o4, HasAddress(r), Line("ADR;TYPE=WORK", AddressText(r)));
    WithAfter(a, o5, r.kind != "", Line("CATEGORIES", Esc(r.kind)));
    WithAfter(a, o6, r.notes != "", Line("NOTE", Esc(r.notes)));
  }

  // ---- cards of others ----

  /** A property's name may have a group before it and parameters after it, in capitals or not. */
  lemma PropertyNamed(group: string, name: string, rest: string)
    requires ';' !in group && '.' !in name && ';' !in name
    ensures PropertyOf(group + "." + name + ";" + rest) == Named(Upper(name))
    ensures PropertyOf(group + "." + name) == Named(Upper(name))
    ensures PropertyOf(name + ";" + rest) == Named(Upper(name)) == PropertyOf(name)
  {
    var key := group + "." + name;
    UntilThere(key, ';', rest);
    UntilEnd(key, ';');
    assert (key + ";" + rest)[..|key|] == key && key[..|key|] == key;
    LastName(group, name);
    PropertyPlain(name);
    PropertyTyped(name, rest);
  }

  lemma {:induction false} LastName(group: string, name: string)
    requires '.' !in name
    ensures AfterDots(group + "." + name) == name
    decreases |group|
  {
    var s := group + "." + name;
    var n := Until(s, '.');
    FirstDot(group, name);
    assert s[|group|] == '.';
    if n < |group| {
      assert s[n + 1..] == group[n + 1..] + "." + name;
      LastName(group[n + 1..], name);
    } else {
      assert s[n + 1..] == name;
    }
  }

  lemma {:induction false} FirstDot(group: string, name: string)
    ensures Until(group + "." + name, '.') <= |group|
  {
    var s := group + "." + name;
    if group != "" {
      assert s[1..] == group[1..] + "." + name;
      FirstDot(group[1..], name);
    }
  }

  /** Someone's card: any of these may be missing. */
  datatype Sent = Sent(fn: string, family: string, given: string, org: string, phone: string, email: string)

  predicate Sendable(s: Sent) {
    && Clean(s.fn) && Clean(s.family) && Clean(s.given) && Clean(s.org) && Clean(s.phone) && Clean(s.email)
    && Phone(s.phone) && Email(s.email) && !EndsInBackslash(s.family)
  }

  function SentNames(s: Sent): seq<string> {
    With(With(["BEGIN:VCARD"], s.fn != "", Line("FN", Esc(s.fn))),
         s.family != "" || s.given != "", Line("N", Chain([s.family, s.given])))
  }

  function SentLines(s: Sent): seq<string> {
    With(With(With(SentNames(s), s.org != "", Line("ORG", Esc(s.org))),
              s.phone != "", Line("TEL;TYPE=CELL", s.phone)),
         s.email != "", Line("EMAIL;TYPE=INTERNET", s.email))
  }

  function SentCard(s: Sent): Card {
    EMPTY.(fn := s.fn, family := s.family, given := s.given, org := s.org, phones := With([], s.phone != "", s.phone),
           emails := With([], s.email != "", s.email))
  }

  lemma AfterSentNames(r: Reading, s: Sent)
    requires Sendable(s)
    ensures ReadAll(r, SentNames(s))
         == Reading(r.out, Some(EMPTY.(fn := s.fn, family := s.family, given := s.given)))
  {
    var begun := Reading(r.out, Some(EMPTY));
    var first := With(["BEGIN:VCARD"], s.fn != "", Line("FN", Esc(s.fn)));
    ReadBegin(r);
    ReadOne(r, "BEGIN:VCARD");
    ReadWith(r, ["BEGIN:VCARD"], s.fn != "", Line("FN", Esc(s.fn)));
    KeyFn("FN");
    ReadFn(begun, "FN", s.fn);
    ReadWith(r, first, s.family != "" || s.given != "", Line("N", Chain([s.family, s.given])));
    NameValue(s);
    KeyN("N");
    ReadN(Reading(r.out, Some(EMPTY.(fn := s.fn))), "N", Chain([s.family, s.given]));
  }

  lemma NameValue(s: Sent)
    requires Sendable(s)
    ensures Trimmed(Chain([s.family, s.given]))
    ensures Part(Chain([s.family, s.given]), 0) == s.family && Part(Chain([s.family, s.given]), 1) == s.given
  {
    var v := Chain([s.family, s.given]);
    ChainTwo(s.family, [s.given]);
    assert [s.family] + [s.given] == [s.family, s.given];
    PartRead([s.family, s.given], 0);
    PartRead([s.family, s.given], 1);
    EscTrimmed(s.family);
    EscTrimmed(s.given);
    var a, b := Esc(s.family), Esc(s.given);
    assert v == a + (";" + b);
    assert v[0] == if a == "" then ';' else a[0];
    assert v[|v| - 1] == if b == "" then ';' else b[|b| - 1];
  }

  lemma AfterSent(r: Reading, s: Sent)
    requires Sendable(s)
    ensures ReadAll(r, SentLines(s)) == Reading(r.out, Some(SentCard(s)))
  {
    var c := EMPTY.(fn := s.fn, family := s.family, given := s.given);
    AfterSentNames(r, s);
    ReadWith(r, SentNames(s), s.org != "", Line("ORG", Esc(s.org)));
    KeyOrg("ORG");
    ReadOrg(Reading(r.out, Some(c)), "ORG", s.org);
    var c2 := c.(org := s.org);
    var l2 := With(SentNames(s), s.org != "", Line("ORG", Esc(s.org)));
    ReadWith(r, l2, s.phone != "", Line("TEL;TYPE=CELL", s.phone));
    KeyTel("TEL;TYPE=CELL");
    if s.phone != "" { ReadTel(Reading(r.out, Some(c2)), "TEL;TYPE=CELL", s.phone); }
    var c3 := c2.(phones := With([], s.phone != "", s.phone));
    var l3 := With(l2, s.phone != "", Line("TEL;TYPE=CELL", s.phone));
    ReadWith(r, l3, s.email != "", Line("EMAIL;TYPE=INTERNET", s.email));
    KeyMail("EMAIL;TYPE=INTERNET");
    if s.email != "" { ReadMail(Reading(r.out, Some(c3)), "EMAIL;TYPE=INTERNET", s.email); }
  }

  lemma ReadEndAny(r: Reading)
    requires r.cur.Some?
    ensures ReadLine(r, "END:VCARD")
         == Reading(if Worth(r.cur.value) then r.out + [AsRow(r.cur.value)] else r.out, None)
  {
    var line := "END:VCARD";
    assert line[0] in line && !Space(line[0]);
    assert !Opens(line, "BEGIN:VCARD");
    assert Opens(line, "END:VCARD");
  }

  /**
   * What a card of others gives: a row exactly when it has some name and a phone or an e-mail. The row's name is the
   * full name or, when there is none, given and family name, at most 140 characters; it is a business exactly when it
   * has an organisation and neither of the two.
   */
  lemma SentRead(r: Reading, s: Sent)
    requires Sendable(s)
    ensures var name := if s.fn != "" then s.fn
                else if s.given == "" then s.family
                else if s.family == "" then s.given
                else s.given + " " + s.family;
            var row := Parsed(if |name| <= 140 then name else name[..140], s.org, s.phone, "", s.email, "", "", "", "",
                              "", s.org != "" && s.given == "" && s.family == "");
            ReadAll(r, SentLines(s) + ["END:VCARD"])
            == Reading(if name != "" && (s.phone != "" || s.email != "") then r.out + [row] else r.out, None)
  {
    AfterSent(r, s);
    ReadAppend(r, SentLines(s), ["END:VCARD"]);
    ReadOne(Reading(r.out, Some(SentCard(s))), "END:VCARD");
    ReadEndAny(Reading(r.out, Some(SentCard(s))));
    SentName(s);
  }

  lemma SentName(s: Sent)
    requires Sendable(s)
    ensures var name := if s.fn != "" then s.fn
                else if s.given == "" then s.family
                else if s.family == "" then s.given
                else s.given + " " + s.family;
            FullName(SentCard(s)) == name && Trim(name) == name
  {
    assert s.given + "" == s.given && "" + s.family == s.family;
    if s.given != "" && s.family != "" { BothTrimmed(s.given, s.family); }
    TrimmedTrim(FullName(SentCard(s)));
  }

  lemma BothTrimmed(given: string, family: string)
    requires given != "" && family != "" && Trimmed(given) && Trimmed(family)
    ensures Trimmed(given + " " + family)
  {
  }

  /** A note is cut after 2000 characters. */
  lemma NoteRead(r: Reading, v: string)
    requires r.cur.Some? && Clean(v)
    ensures ReadLine(r, Line("NOTE", Esc(v)))
         == r.(cur := Some(r.cur.value.(note := if |v| <= 2000 then v else v[..2000])))
  {
    KeyNote("NOTE");
    EscTrimmed(v);
    ReadProperty(r, "NOTE", Note, Esc(v));
    NoteNoted(r.cur.value, v);
  }

  lemma NoteNoted(cur: Card, v: string)
    ensures Noted(cur, Note, Esc(v)) == cur.(note := if |v| <= 2000 then v else v[..2000])
  {
    UnescIsEsc(v);
  }

  /** Only A to Z are made small. */
  lemma SmallLetters(v: string, i: nat)
    requires i < |v|
    ensures |Lower(v)| == |v| && Lower(v)[i] == if 'A' <= v[i] <= 'Z' then (v[i] as int + 32) as char else v[i]
  {
  }

  /** An address is noted in small letters when it has an @; nothing is without one. */
  lemma MailRead(r: Reading, v: string)
    requires r.cur.Some? && Clean(v) && NoEscape(v)
    ensures ReadLine(r, Line("EMAIL;TYPE=INTERNET", v))
         == if '@' in v then r.(cur := Some(r.cur.value.(emails := r.cur.value.emails + [Lower(v)]))) else r
  {
    KeyMail("EMAIL;TYPE=INTERNET");
    ReadProperty(r, "EMAIL;TYPE=INTERNET", Mail, v);
    MailNoted(r.cur.value, v);
  }

  lemma MailNoted(cur: Card, v: string)
    requires Clean(v) && NoEscape(v)
    ensures Noted(cur, Mail, v) == if '@' in v then cur.(emails := cur.emails + [Lower(v)]) else cur
  {
    UnescLength(v);
    TrimmedTrim(v);
  }

  /** A number is noted without a "tel:" before it, in capitals or not, when it has a digit; nothing is without one. */
  lemma TelRead(r: Reading, prefix: string, v: string)
    requires r.cur.Some? && Clean(v) && v != "" && !Opens(v, "TEL:")
    requires prefix == "" || prefix == "tel:" || prefix == "TEL:"
    ensures ReadLine(r, Line("TEL;TYPE=CELL", prefix + v))
         == if exists c :: c in v && '0' <= c <= '9'
            then r.(cur := Some(r.cur.value.(phones := r.cur.value.phones + [v]))) else r
  {
    KeyTel("TEL;TYPE=CELL");
    PrefixTrimmed(prefix, v);
    ReadProperty(r, "TEL;TYPE=CELL", Tel, prefix + v);
    TelNoted(r.cur.value, prefix, v);
  }

  lemma TelNoted(cur: Card, prefix: string, v: string)
    requires Clean(v) && v != "" && !Opens(v, "TEL:")
    requires prefix == "" || prefix == "tel:" || prefix == "TEL:"
    ensures Noted(cur, Tel, prefix + v)
         == if exists c :: c in v && '0' <= c <= '9' then cur.(phones := cur.phones + [v]) else cur
  {
    PrefixTrimmed(prefix, v);
    TrimmedTrim(v);
    assert HasDigit(v) <==> exists c :: c in v && '0' <= c <= '9';
  }

  lemma PrefixTrimmed(prefix: string, v: string)
    requires Trimmed(v) && v != "" && !Opens(v, "TEL:")
    requires prefix == "" || prefix == "tel:" || prefix == "TEL:"
    ensures Trimmed(prefix + v)
    ensures if prefix == "" then prefix + v == v else Opens(prefix + v, "TEL:") && (prefix + v)[4..] == v
  {
  }

  /** Nothing is noted of a line outside a card, without a colon, or of space only, unless it begins or ends a card. */
  lemma PassedOver(r: Reading, line: string)
    requires AllSpace(line)
             || (!Opens(line, "BEGIN:VCARD") && !Opens(line, "END:VCARD") && (r.cur.None? || ':' !in line))
    ensures ReadLine(r, line) == r
  {
  }

  /** BEGIN:VCARD in any case opens an empty card, whatever was open. */
  lemma CardOpens(r: Reading, line: string, rest: string)
    requires line == "BEGIN:VCARD" || line == "begin:vcard" || line == "Begin:vCard"
    ensures ReadLine(r, line + rest)
         == Reading(r.out, Some(Card("", "", "", "", "", "", "", "", "", [], [])))
  {
    assert (line + rest)[0] in line + rest && !Space((line + rest)[0]);
    assert Opens(line + rest, "BEGIN:VCARD");
  }
}

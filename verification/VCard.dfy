/** vCards in and out: contacts_rules.parse_vcf and .to_vcf. A missing value and an empty one are both "". */
module VCard {
  import opened Text
  import opened Escapes
  import Lines

  /** A row of the address book. */
  datatype Contact = Contact(name: string, company: string, phone: string, whatsapp: string, email: string,
                             street: string, city: string, state: string, pin: string, country: string,
                             kind: string, notes: string)

  /** What the reader makes of a card; `business` for customer_type "Business". */
  datatype Parsed = Parsed(name: string, company: string, phone: string, whatsapp: string, email: string,
                           street: string, city: string, state: string, pin: string, notes: string, business: bool)

  /** The reader's `cur`. */
  datatype Card = Card(fn: string, family: string, given: string, org: string, street: string, city: string,
                       region: string, pin: string, note: string, phones: seq<string>, emails: seq<string>)

  const EMPTY := Card("", "", "", "", "", "", "", "", "", [], [])

  // ---- reading ----

  function UpperChar(c: char): char {
    if 'a' <= c <= 'z' then c - 'a' + 'A' else c
  }

  function LowerChar(c: char): char {
    if 'A' <= c <= 'Z' then c - 'A' + 'a' else c
  }

  function Upper(s: string): string {
    seq(|s|, i requires 0 <= i < |s| => UpperChar(s[i]))
  }

  function Lower(s: string): string {
    seq(|s|, i requires 0 <= i < |s| => LowerChar(s[i]))
  }

  /** s.upper().startswith(p) */
  predicate Opens(s: string, p: string) {
    |p| <= |s| && forall i | 0 <= i < |p| :: UpperChar(s[i]) == p[i]
  }

  /** Where c first stands in s, or its length. */
  function Until(s: string, c: char): (n: nat)
    ensures n <= |s|
    ensures c !in s[..n] && (n < |s| ==> s[n] == c)
  {
    if s == "" || s[0] == c then 0 else 1 + Until(s[1..], c)
  }

  /** s.split(".")[-1] */
  function AfterDots(s: string): string
    decreases |s|
  {
    if '.' in s then AfterDots(s[Until(s, '.') + 1..]) else s
  }

  datatype Property = Fn | N | Org | Tel | Mail | Adr | Note | Other

  function Named(prop: string): Property {
    if prop == "FN" then Fn
    else if prop == "N" then N
    else if prop == "ORG" then Org
    else if prop == "TEL" then Tel
    else if prop == "EMAIL" then Mail
    else if prop == "ADR" then Adr
    else if prop == "NOTE" then Note
    else Other
  }

  /** The property before a colon: item1.TEL;TYPE=CELL is TEL. */
  function PropertyOf(key: string): Property {
    Named(Upper(AfterDots(key[..Until(key, ';')])))
  }

  /** re.sub(r"^tel:", "", val, flags=re.I).strip() */
  function Number(val: string): string {
    Trim(if Opens(val, "TEL:") then val[4..] else val)
  }

  predicate HasDigit(s: string) {
    exists c | c in s :: '0' <= c <= '9'
  }

  predicate AllSpace(s: string) {
    forall c | c in s :: Space(c)
  }

  function Capped(s: string, n: nat): string {
    if |s| <= n then s else s[..n]
  }

  /** One property's effect on the card. */
  function Noted(cur: Card, prop: Property, val: string): Card {
    match prop
    case Fn => cur.(fn := Unesc(val))
    case N => cur.(family := Part(val, 0), given := Part(val, 1))
    case Org => cur.(org := Part(val, 0))
    case Tel => if HasDigit(Number(val)) then cur.(phones := cur.phones + [Number(val)]) else cur
    case Mail => if '@' in val then cur.(emails := cur.emails + [Lower(Trim(Unesc(val)))]) else cur
    case Adr => cur.(street := Part(val, 2), city := Part(val, 3), region := Part(val, 4), pin := Part(val, 5))
    case Note => cur.(note := Capped(Unesc(val), 2000))
    case Other => cur
  }

  function At(list: seq<string>, i: nat): string {
    if i < |list| then list[i] else ""
  }

  function FullName(cur: Card): string {
    if cur.fn != "" then cur.fn
    else if cur.given != "" && cur.family != "" then cur.given + " " + cur.family
    else cur.given + cur.family
  }

  /** Cards without a name or a number / e-mail are left out. */
  predicate Worth(cur: Card) {
    Trim(FullName(cur)) != "" && (cur.phones != [] || cur.emails != [])
  }

  function AsRow(cur: Card): Parsed {
    Parsed(Capped(Trim(FullName(cur)), 140), cur.org, At(cur.phones, 0), At(cur.phones, 1), At(cur.emails, 0),
           cur.street, cur.city, cur.region, cur.pin, cur.note, cur.org != "" && cur.given == "" && cur.family == "")
  }

  datatype Reading = Reading(out: seq<Parsed>, cur: Option<Card>)

  /** One line of the file. */
  function ReadLine(r: Reading, line: string): Reading {
    if AllSpace(line) then r
    else if Opens(line, "BEGIN:VCARD") then r.(cur := Some(EMPTY))
    else if Opens(line, "END:VCARD") then
      Reading(if r.cur.Some? && Worth(r.cur.value) then r.out + [AsRow(r.cur.value)] else r.out, None)
    else if r.cur.None? || ':' !in line then r
    else
      var at := Until(line, ':');
      r.(cur := Some(Noted(r.cur.value, PropertyOf(line[..at]), Trim(line[at + 1..]))))
  }

  function ReadAll(r: Reading, lines: seq<string>): Reading
    decreases |lines|
  {
    if lines == [] then r else ReadAll(ReadLine(r, lines[0]), lines[1..])
  }

  function Parse(text: string): seq<Parsed> {
    ReadAll(Reading([], None), Lines.Unfold(text)).out
  }

  method ParseVcf(text: string) returns (out: seq<Parsed>)
    ensures out == Parse(text)
  {
    var lines := Lines.Unfold(text);
    var cur: Option<Card> := None;
    out := [];
    var i := 0;
    while i < |lines|
      invariant 0 <= i <= |lines|
      invariant ReadAll(Reading(out, cur), lines[i..]) == ReadAll(Reading([], None), lines)
    {
      var line := lines[i];
      ghost var before := Reading(out, cur);
      if AllSpace(line) {
      } else if Opens(line, "BEGIN:VCARD") {
        cur := Some(EMPTY);
      } else if Opens(line, "END:VCARD") {
        if cur.Some? && Worth(cur.value) {
          out := out + [AsRow(cur.value)];
        }
        cur := None;
      } else if cur.Some? && ':' in line {
        var at := Until(line, ':');
        cur := Some(Noted(cur.value, PropertyOf(line[..at]), Trim(line[at + 1..])));
      }
      assert Reading(out, cur) == ReadLine(before, line);
      assert lines[i..][1..] == lines[i + 1..];
      i := i + 1;
    }
  }

  // ---- writing ----

  /** A property and its value. */
  function Line(key: string, val: string): string { key + ":" + val }

  function With(lines: seq<string>, c: bool, line: string): seq<string> {
    if c then lines + [line] else lines
  }

  function Address(r: Contact): seq<string> { ["", "", r.street, r.city, r.state, r.pin, r.country] }

  predicate HasAddress(r: Contact) { r.street != "" || r.city != "" || r.state != "" || r.pin != "" }

  function AddressText(r: Contact): string {
    ";;" + Esc(r.street) + ";" + Esc(r.city) + ";" + Esc(r.state) + ";" + Esc(r.pin) + ";" + Esc(r.country)
  }

  function NameLines(r: Contact): seq<string> {
    ["BEGIN:VCARD", Line("VERSION", "3.0"), Line("FN", Esc(r.name)), Line("N", ";" + Esc(r.name) + ";;;")]
  }

  function ToCompany(r: Contact): seq<string> { With(NameLines(r), r.company != "", Line("ORG", Esc(r.company))) }

  function ToPhone(r: Contact): seq<string> { With(ToCompany(r), r.phone != "", Line("TEL;TYPE=CELL", r.phone)) }

  function ToWhatsapp(r: Contact): seq<string> {
    With(ToPhone(r), r.whatsapp != "" && r.whatsapp != r.phone, Line("TEL;TYPE=CELL", r.whatsapp))
  }

  function ToEmail(r: Contact): seq<string> { With(ToWhatsapp(r), r.email != "", Line("EMAIL;TYPE=INTERNET", r.email)) }

  function ToAddress(r: Contact): seq<string> { With(ToEmail(r), HasAddress(r), Line("ADR;TYPE=WORK", AddressText(r))) }

  function ToKind(r: Contact): seq<string> { With(ToAddress(r), r.kind != "", Line("CATEGORIES", Esc(r.kind))) }

  function ToNotes(r: Contact): seq<string> { With(ToKind(r), r.notes != "", Line("NOTE", Esc(r.notes))) }

  /** The lines of one card. */
  function CardLines(r: Contact): seq<string> { ToNotes(r) + ["END:VCARD"] }

  function Cards(rows: seq<Contact>): (cards: seq<seq<string>>)
    ensures |cards| == |rows|
  {
    seq(|rows|, i requires 0 <= i < |rows| => CardLines(rows[i]))
  }

  function Flat(cards: seq<seq<string>>): seq<string> {
    if cards == [] then [] else cards[0] + Flat(cards[1..])
  }

  /** Every line with a line break after it. */
  function Ended(lines: seq<string>): string {
    if lines == [] then "" else lines[0] + "\r\n" + Ended(lines[1..])
  }

  lemma {:induction false} JoinedEnded(lines: seq<string>)
    requires lines != []
    ensures Join(lines, "\r\n") + "\r\n" == Ended(lines)
  {
    if |lines| > 1 {
      JoinedEnded(lines[1..]);
      Regrouped(lines[0] + "\r\n", Join(lines[1..], "\r\n"), "\r\n");
    } else {
      assert Ended(lines) == lines[0] + "\r\n" + "";
    }
  }

  lemma {:induction false} EndedAppend(a: seq<string>, b: seq<string>)
    ensures Ended(a + b) == Ended(a) + Ended(b)
  {
    if a == [] {
      assert a + b == b;
    } else {
      EndedAppend(a[1..], b);
      assert (a + b)[1..] == a[1..] + b;
      Regrouped(a[0] + "\r\n", Ended(a[1..]), Ended(b));
    }
  }

  lemma {:induction false} FlatAppend(cards: seq<seq<string>>, lines: seq<string>)
    ensures Flat(cards + [lines]) == Flat(cards) + lines
  {
    if cards == [] {
      assert Flat([lines]) == lines + [];
    } else {
      FlatAppend(cards[1..], lines);
      assert (cards + [lines])[1..] == cards[1..] + [lines];
      assert cards[0] + (Flat(cards[1..]) + lines) == Flat(cards) + lines;
    }
  }

  lemma {:induction false} JoinOneMore(out: seq<string>, s: string)
    ensures out != [] ==> Join(out + [s], "\r\n") == Join(out, "\r\n") + "\r\n" + s
    ensures out == [] ==> Join(out + [s], "\r\n") == s
  {
    if |out| > 1 {
      JoinOneMore(out[1..], s);
      assert (out + [s])[1..] == out[1..] + [s];
      Regrouped(out[0] + "\r\n", Join(out[1..], "\r\n"), "\r\n" + s);
      assert Join(out[1..], "\r\n") + "\r\n" + s == Join(out[1..], "\r\n") + ("\r\n" + s);
      assert Join(out, "\r\n") + "\r\n" + s == Join(out, "\r\n") + ("\r\n" + s);
    } else if |out| == 1 {
      assert (out + [s])[1..] == [s];
    }
  }

  /** The joined cards and the lines they hold. */
  predicate Matching(out: seq<string>, cards: seq<seq<string>>) {
    && |out| == |cards|
    && Ended(Flat(cards)) == Join(out, "\r\n") + if out != [] then "\r\n" else ""
  }

  lemma MatchingMore(out: seq<string>, cards: seq<seq<string>>, lines: seq<string>)
    requires Matching(out, cards) && lines != []
    ensures Matching(out + [Join(lines, "\r\n")], cards + [lines])
  {
    var card := Join(lines, "\r\n");
    JoinedEnded(lines);
    FlatAppend(cards, lines);
    EndedAppend(Flat(cards), lines);
    JoinOneMore(out, card);
    assert Join(out, "\r\n") + "\r\n" + (card + "\r\n") == Join(out, "\r\n") + "\r\n" + card + "\r\n";
    assert out == [] ==> "" + (card + "\r\n") == card + "\r\n";
  }

  method WriteCard(r: Contact) returns (lines: seq<string>)
    ensures lines == CardLines(r)
  {
    lines := NameLines(r);
    if r.company != "" {
      lines := lines + [Line("ORG", Esc(r.company))];
    }
    if r.phone != "" {
      lines := lines + [Line("TEL;TYPE=CELL", r.phone)];
    }
    if r.whatsapp != "" && r.whatsapp != r.phone {
      lines := lines + [Line("TEL;TYPE=CELL", r.whatsapp)];
    }
    if r.email != "" {
      lines := lines + [Line("EMAIL;TYPE=INTERNET", r.email)];
    }
    if HasAddress(r) {
      lines := lines + [Line("ADR;TYPE=WORK", AddressText(r))];
    }
    if r.kind != "" {
      lines := lines + [Line("CATEGORIES", Esc(r.kind))];
    }
    if r.notes != "" {
      lines := lines + [Line("NOTE", Esc(r.notes))];
    }
    lines := lines + ["END:VCARD"];
  }

  lemma RowMore(out: seq<string>, rows: seq<Contact>, i: nat, lines: seq<string>)
    requires i < |rows| && Matching(out, Cards(rows[..i])) && lines == CardLines(rows[i]) && lines != []
    ensures Matching(out + [Join(lines, "\r\n")], Cards(rows[..i + 1]))
  {
    MatchingMore(out, Cards(rows[..i]), lines);
    assert Cards(rows[..i + 1]) == Cards(rows[..i]) + [lines];
  }

  /** to_vcf joins lines and cards; what it writes is every line of every card with a line break after it. */
  method ToVcf(rows: seq<Contact>) returns (text: string)
    ensures text == Ended(Flat(Cards(rows)))
  {
    var out: seq<string> := [];
    var i := 0;
    while i < |rows|
      invariant 0 <= i <= |rows|
      invariant Matching(out, Cards(rows[..i]))
    {
      var lines := WriteCard(rows[i]);
      RowMore(out, rows, i, lines);
      out := out + [Join(lines, "\r\n")];
      i := i + 1;
    }
    assert rows[..i] == rows;
    text := Join(out, "\r\n") + if out != [] then "\r\n" else "";
  }

  // ---- what comes back ----

  /** A value without spaces at its ends and without carriage returns. */
  predicate Clean(s: string) {
    Trimmed(s) && '\r' !in s
  }

  predicate Phone(s: string) {
    s != "" ==> HasDigit(s) && !Opens(s, "TEL:") && '\n' !in s
  }

  predicate Email(s: string) {
    s != "" ==> '@' in s && NoEscape(s) && '\n' !in s && Lower(s) == s
  }

  /** A row whose values can be written; nothing is asked about how they fit together. */
  predicate Writable(r: Contact) {
    && r.name != "" && |r.name| <= 140 && |r.notes| <= 2000
    && Clean(r.name) && Clean(r.company) && Clean(r.phone) && Clean(r.whatsapp) && Clean(r.email) && Clean(r.street)
    && Clean(r.city) && Clean(r.state) && Clean(r.pin) && Clean(r.country) && Clean(r.kind) && Clean(r.notes)
    && Phone(r.phone) && Phone(r.whatsapp) && Email(r.email)
    && (r.phone != "" || r.whatsapp != "" || r.email != "")
  }

  function Numbers(r: Contact): seq<string> {
    With(With([], r.phone != "", r.phone), r.whatsapp != "" && r.whatsapp != r.phone, r.whatsapp)
  }

  function Back(r: Contact): Parsed {
    Parsed(r.name, r.company, At(Numbers(r), 0), At(Numbers(r), 1), r.email, Part(Chain(Address(r)), 2),
           Part(Chain(Address(r)), 3), Part(Chain(Address(r)), 4), Part(Chain(Address(r)), 5), r.notes, false)
  }

  /** A phone comes back as it was written exactly when it has a digit and does not begin with "tel:". */
  lemma NumberExactly(v: string)
    requires Clean(v) && v != ""
    ensures HasDigit(Number(v)) && Number(v) == v <==> HasDigit(v) && !Opens(v, "TEL:")
  {
    if Opens(v, "TEL:") {
      TrimLength(v[4..]);
    } else {
      TrimmedTrim(v);
    }
  }

  /** An e-mail does exactly when it has an @, no capitals and nothing that looks escaped: it is written unescaped. */
  lemma EmailExactly(v: string)
    requires Clean(v) && v != ""
    ensures '@' in v && Lower(Trim(Unesc(v))) == v <==> '@' in v && NoEscape(v) && Lower(v) == v
  {
    UnescLength(v);
    if NoEscape(v) {
      TrimmedTrim(v);
    } else {
      TrimLength(Unesc(v));
    }
  }

  lemma UntilThere(a: string, c: char, t: string)
    requires c !in a
    ensures Until(a + [c] + t, c) == |a|
  {
    var s := a + [c] + t;
    var n := Until(s, c);
    assert s[|a|] == c;
    assert forall k | 0 <= k < |a| :: s[k] == a[k];
    assert forall k | 0 <= k < n :: s[..n][k] == s[k];
  }

  lemma UntilEnd(a: string, c: char)
    requires c !in a
    ensures Until(a, c) == |a|
  {
  }

  lemma PropertyPlain(key: string)
    requires '.' !in key && ';' !in key
    ensures PropertyOf(key) == Named(Upper(key))
  {
    UntilEnd(key, ';');
    assert key[..|key|] == key;
  }

  lemma PropertyTyped(key: string, rest: string)
    requires '.' !in key && ';' !in key
    ensures PropertyOf(key + [';'] + rest) == Named(Upper(key))
  {
    UntilThere(key, ';', rest);
    assert (key + [';'] + rest)[..|key|] == key;
  }

  /** A key no line of another kind begins like. */
  predicate Plain(key: string) {
    && key != "" && ':' !in key && !Space(key[0]) && UpperChar(key[0]) != 'B'
    && (UpperChar(key[0]) == 'E' ==> |key| >= 2 && UpperChar(key[1]) != 'N')
  }

  predicate Key(key: string, prop: Property) {
    Plain(key) && PropertyOf(key) == prop
  }

  /** A line that begins with a property and a colon. */
  lemma ReadProperty(r: Reading, key: string, prop: Property, val: string)
    requires r.cur.Some? && Key(key, prop) && Trimmed(val)
    ensures ReadLine(r, Line(key, val)) == r.(cur := Some(Noted(r.cur.value, prop, val)))
  {
    var line := Line(key, val);
    assert line[0] == key[0] && line[0] in line && line[|key|] == ':';
    assert !Opens(line, "BEGIN:VCARD") by {
      assert "BEGIN:VCARD"[0] == 'B';
    }
    assert !Opens(line, "END:VCARD") by {
      assert "END:VCARD"[0] == 'E' && "END:VCARD"[1] == 'N';
      assert |key| >= 2 ==> line[1] == key[1];
    }
    UntilThere(key, ':', val);
    assert line[..|key|] == key && line[|key| + 1..] == val;
    TrimmedTrim(val);
  }

  lemma TrimmedTrim(s: string)
    requires Trimmed(s)
    ensures Trim(s) == s
  {
  }

  lemma KeyFn(key: string)
    requires key == "FN"
    ensures Key(key, Fn)
  {
    PropertyPlain(key);
    assert Upper(key) == key;
  }

  lemma KeyN(key: string)
    requires key == "N"
    ensures Key(key, N)
  {
    PropertyPlain(key);
    assert Upper(key) == key;
  }

  lemma KeyVersion(key: string)
    requires key == "VERSION"
    ensures Key(key, Other)
  {
    PropertyPlain(key);
    assert |Upper(key)| == 7;
  }

  lemma KeyOrg(key: string)
    requires key == "ORG"
    ensures Key(key, Org)
  {
    PropertyPlain(key);
    assert Upper(key) == key;
  }

  lemma KeyNote(key: string)
    requires key == "NOTE"
    ensures Key(key, Note)
  {
    PropertyPlain(key);
    assert Upper(key) == key;
  }

  lemma KeyCategories(key: string)
    requires key == "CATEGORIES"
    ensures Key(key, Other)
  {
    PropertyPlain(key);
    assert |Upper(key)| == 10;
  }

  lemma NameTel(name: string)
    requires name == "TEL"
    ensures '.' !in name && ';' !in name && Upper(name) == name && Named(name) == Tel
  {
    assert name[0] == 'T' && "ORG"[0] == 'O';
  }

  lemma PlainTel(key: string)
    requires key == "TEL;TYPE=CELL"
    ensures Plain(key) && key[3] == ';' && key[..3] == "TEL"
  {
  }

  lemma KeyTel(key: string)
    requires key == "TEL;TYPE=CELL"
    ensures Key(key, Tel)
  {
    PlainTel(key);
    NameTel(key[..3]);
    TypedKey(key, 3);
  }

  lemma NameMail(name: string)
    requires name == "EMAIL"
    ensures '.' !in name && ';' !in name && Upper(name) == name && Named(name) == Mail
  {
  }

  lemma PlainMail(key: string)
    requires key == "EMAIL;TYPE=INTERNET"
    ensures Plain(key) && key[5] == ';' && key[..5] == "EMAIL"
  {
  }

  lemma KeyMail(key: string)
    requires key == "EMAIL;TYPE=INTERNET"
    ensures Key(key, Mail)
  {
    PlainMail(key);
    NameMail(key[..5]);
    TypedKey(key, 5);
  }

  lemma NameAdr(name: string)
    requires name == "ADR"
    ensures '.' !in name && ';' !in name && Upper(name) == name && Named(name) == Adr
  {
    assert name[0] == 'A' && "ORG"[0] == 'O' && "TEL"[0] == 'T';
  }

  lemma PlainAdr(key: string)
    requires key == "ADR;TYPE=WORK"
    ensures Plain(key) && key[3] == ';' && key[..3] == "ADR"
  {
  }

  lemma KeyAdr(key: string)
    requires key == "ADR;TYPE=WORK"
    ensures Key(key, Adr)
  {
    PlainAdr(key);
    NameAdr(key[..3]);
    TypedKey(key, 3);
  }

  lemma TypedKey(key: string, n: nat)
    requires n < |key| && key[n] == ';' && '.' !in key[..n] && ';' !in key[..n] && Upper(key[..n]) == key[..n]
    ensures PropertyOf(key) == Named(key[..n])
  {
    PropertyTyped(key[..n], key[n + 1..]);
    assert key == key[..n] + [';'] + key[n + 1..];
  }

  lemma ReadFn(r: Reading, key: string, v: string)
    requires r.cur.Some? && Key(key, Fn) && Clean(v)
    ensures ReadLine(r, Line(key, Esc(v))) == r.(cur := Some(r.cur.value.(fn := v)))
  {
    EscTrimmed(v);
    UnescIsEsc(v);
    ReadProperty(r, key, Fn, Esc(v));
  }

  lemma ReadN(r: Reading, key: string, val: string)
    requires r.cur.Some? && Key(key, N) && Trimmed(val)
    ensures ReadLine(r, Line(key, val)) == r.(cur := Some(r.cur.value.(family := Part(val, 0), given := Part(val, 1))))
  {
    ReadProperty(r, key, N, val);
  }

  lemma ReadOrg(r: Reading, key: string, v: string)
    requires r.cur.Some? && Key(key, Org) && Clean(v)
    ensures ReadLine(r, Line(key, Esc(v))) == r.(cur := Some(r.cur.value.(org := v)))
  {
    EscTrimmed(v);
    ReadProperty(r, key, Org, Esc(v));
    PartRead([v], 0);
    assert Chain([v]) == Esc(v);
  }

  lemma ReadTel(r: Reading, key: string, v: string)
    requires r.cur.Some? && Key(key, Tel) && Clean(v) && v != "" && Phone(v)
    ensures ReadLine(r, Line(key, v)) == r.(cur := Some(r.cur.value.(phones := r.cur.value.phones + [v])))
  {
    ReadProperty(r, key, Tel, v);
    TrimmedTrim(v);
  }

  lemma ReadMail(r: Reading, key: string, v: string)
    requires r.cur.Some? && Key(key, Mail) && Clean(v) && v != "" && Email(v)
    ensures ReadLine(r, Line(key, v)) == r.(cur := Some(r.cur.value.(emails := r.cur.value.emails + [v])))
  {
    ReadProperty(r, key, Mail, v);
    UnescLength(v);
    TrimmedTrim(v);
  }

  lemma ReadAdr(r: Reading, key: string, val: string)
    requires r.cur.Some? && Key(key, Adr) && Trimmed(val)
    ensures ReadLine(r, Line(key, val)) == r.(cur := Some(r.cur.value.(
              street := Part(val, 2), city := Part(val, 3), region := Part(val, 4), pin := Part(val, 5))))
  {
    ReadProperty(r, key, Adr, val);
  }

  lemma ReadOther(r: Reading, key: string, val: string)
    requires r.cur.Some? && Key(key, Other) && Trimmed(val)
    ensures ReadLine(r, Line(key, val)) == r
  {
    ReadProperty(r, key, Other, val);
  }

  lemma ReadNote(r: Reading, key: string, v: string)
    requires r.cur.Some? && Key(key, Note) && Clean(v) && |v| <= 2000
    ensures ReadLine(r, Line(key, Esc(v))) == r.(cur := Some(r.cur.value.(note := v)))
  {
    EscTrimmed(v);
    UnescIsEsc(v);
    ReadProperty(r, key, Note, Esc(v));
  }

  lemma ReadBegin(r: Reading)
    ensures ReadLine(r, "BEGIN:VCARD") == r.(cur := Some(EMPTY))
  {
    var line := "BEGIN:VCARD";
    assert line[0] in line && !Space(line[0]);
    assert Opens(line, "BEGIN:VCARD");
  }

  lemma ReadEnd(r: Reading)
    requires r.cur.Some? && Worth(r.cur.value)
    ensures ReadLine(r, "END:VCARD") == Reading(r.out + [AsRow(r.cur.value)], None)
  {
    var line := "END:VCARD";
    assert line[0] in line && !Space(line[0]);
    assert !Opens(line, "BEGIN:VCARD");
    assert Opens(line, "END:VCARD");
  }

  lemma {:induction false} ReadAppend(r: Reading, a: seq<string>, b: seq<string>)
    ensures ReadAll(r, a + b) == ReadAll(ReadAll(r, a), b)
    decreases |a|
  {
    if a == [] {
      assert a + b == b;
    } else {
      ReadAppend(ReadLine(r, a[0]), a[1..], b);
      assert (a + b)[1..] == a[1..] + b;
    }
  }

  lemma ReadOne(r: Reading, line: string)
    ensures ReadAll(r, [line]) == ReadLine(r, line)
  {
    assert [line][1..] == [];
  }

  lemma ReadWith(r: Reading, lines: seq<string>, c: bool, line: string)
    ensures ReadAll(r, With(lines, c, line)) == if c then ReadLine(ReadAll(r, lines), line) else ReadAll(r, lines)
  {
    if c {
      ReadAppend(r, lines, [line]);
      ReadOne(ReadAll(r, lines), line);
    }
  }

  // ---- the two structured values ----

  function NameParts(name: string): seq<string> { ["", name, "", "", ""] }

  lemma ChainTwo(a: string, rest: seq<string>)
    requires rest != []
    ensures Chain([a] + rest) == Esc(a) + (";" + Chain(rest))
  {
    assert ([a] + rest)[1..] == rest;
  }

  lemma ChainFirstEmpty(rest: seq<string>)
    requires rest != []
    ensures Chain([""] + rest) == ";" + Chain(rest)
  {
    ChainTwo("", rest);
    assert "" + (";" + Chain(rest)) == ";" + Chain(rest);
  }

  lemma NameChain(name: string)
    ensures ";" + Esc(name) + ";;;" == Chain(NameParts(name))
  {
    ChainFirstEmpty([""]);
    assert Chain(["", ""]) == ";" by { assert [""] + [""] == ["", ""]; }
    ChainFirstEmpty(["", ""]);
    assert Chain(["", "", ""]) == ";;" by { assert [""] + ["", ""] == ["", "", ""]; }
    ChainTwo(name, ["", "", ""]);
    ChainFirstEmpty([name] + ["", "", ""]);
    assert [""] + ([name] + ["", "", ""]) == NameParts(name);
    assert ";" + (Esc(name) + (";" + ";;")) == ";" + Esc(name) + ";;;";
  }

  lemma AddressTail(r: Contact)
    ensures Chain([r.pin, r.country]) == Esc(r.pin) + (";" + Esc(r.country))
    ensures Chain([r.state, r.pin, r.country]) == Esc(r.state) + (";" + Chain([r.pin, r.country]))
    ensures Chain([r.city, r.state, r.pin, r.country]) == Esc(r.city) + (";" + Chain([r.state, r.pin, r.country]))
  {
    ChainTwo(r.pin, [r.country]);
    assert [r.pin] + [r.country] == [r.pin, r.country];
    ChainTwo(r.state, [r.pin, r.country]);
    assert [r.state] + [r.pin, r.country] == [r.state, r.pin, r.country];
    ChainTwo(r.city, [r.state, r.pin, r.country]);
    assert [r.city] + [r.state, r.pin, r.country] == [r.city, r.state, r.pin, r.country];
  }

  lemma AddressHead(r: Contact)
    ensures Chain(Address(r)) == ";" + (";" + (Esc(r.street) + (";" + Chain([r.city, r.state, r.pin, r.country]))))
  {
    var rest := [r.city, r.state, r.pin, r.country];
    ChainTwo(r.street, rest);
    ChainFirstEmpty([r.street] + rest);
    ChainFirstEmpty([""] + ([r.street] + rest));
    assert Address(r) == [""] + ([""] + ([r.street] + rest));
  }

  lemma Nested(a: string, b: string, c: string, d: string, e: string)
    ensures ";" + (";" + (a + (";" + (b + (";" + (c + (";" + (d + (";" + e)))))))))
         == ";;" + a + ";" + b + ";" + c + ";" + d + ";" + e
  {
    assert d + (";" + e) == d + ";" + e;
    assert c + (";" + (d + ";" + e)) == c + ";" + d + ";" + e;
    assert b + (";" + (c + ";" + d + ";" + e)) == b + ";" + c + ";" + d + ";" + e;
    assert a + (";" + (b + ";" + c + ";" + d + ";" + e)) == a + ";" + b + ";" + c + ";" + d + ";" + e;
  }

  lemma AddressChain(r: Contact)
    ensures AddressText(r) == Chain(Address(r))
  {
    AddressHead(r);
    AddressTail(r);
    Nested(Esc(r.street), Esc(r.city), Esc(r.state), Esc(r.pin), Esc(r.country));
  }

  /** The reader finds a given name on every card written. */
  lemma GivenFound(name: string)
    requires name != "" && Trimmed(name)
    ensures Part(Chain(NameParts(name)), 1) != ""
  {
    var parts := NameParts(name);
    if EndsInBackslash(name) {
      ChainSticks(parts, 1);
    } else {
      ChainSplits(parts);
    }
    var piece := Split(Chain(parts), false)[1];
    ReadBegins(name, piece);
    TrimKeeps(Unesc(piece), 0);
  }

  // ---- a card read line by line ----

  function Names(c: Contact): Card {
    var v := Chain(NameParts(c.name));
    EMPTY.(fn := c.name, family := Part(v, 0), given := Part(v, 1))
  }

  function Reached(c: Contact): Card {
    Names(c).(org := c.company, phones := Numbers(c), emails := With([], c.email != "", c.email))
  }

  function Placed(c: Contact): Card {
    var v := Chain(Address(c));
    Reached(c).(street := Part(v, 2), city := Part(v, 3), region := Part(v, 4), pin := Part(v, 5))
  }

  lemma NameTrimmed(name: string)
    ensures Trimmed(";" + Esc(name) + ";;;")
  {
    var v := ";" + Esc(name) + ";;;";
    assert v[0] == ';' && v[|v| - 1] == ';';
  }

  lemma AddressTrimmed(c: Contact)
    requires Trimmed(c.country)
    ensures Trimmed(AddressText(c))
  {
    var v, e := AddressText(c), Esc(c.country);
    EscTrimmed(c.country);
    assert v[0] == ';';
    assert e == "" ==> v[|v| - 1] == ';';
    assert e != "" ==> v[|v| - 1] == e[|e| - 1];
  }

  lemma ReadFour(r: Reading, l0: string, l1: string, l2: string, l3: string)
    ensures ReadAll(r, [l0, l1, l2, l3]) == ReadLine(ReadLine(ReadLine(ReadLine(r, l0), l1), l2), l3)
  {
    var r1 := ReadLine(r, l0);
    var r2 := ReadLine(r1, l1);
    assert [l0, l1, l2, l3][1..] == [l1, l2, l3] && [l1, l2, l3][1..] == [l2, l3] && [l2, l3][1..] == [l3];
    ReadOne(ReadLine(r2, l2), l3);
    assert ReadAll(r2, [l2, l3]) == ReadLine(ReadLine(r2, l2), l3);
    assert ReadAll(r1, [l1, l2, l3]) == ReadAll(r2, [l2, l3]);
  }

  lemma AfterNames(r: Reading, c: Contact)
    requires Clean(c.name)
    ensures ReadAll(r, NameLines(c)) == Reading(r.out, Some(Names(c)))
  {
    var n := ";" + Esc(c.name) + ";;;";
    ReadFour(r, "BEGIN:VCARD", Line("VERSION", "3.0"), Line("FN", Esc(c.name)), Line("N", n));
    ReadBegin(r);
    AfterBegin(Reading(r.out, Some(EMPTY)), c, n);
  }

  lemma AfterBegin(r: Reading, c: Contact, n: string)
    requires Clean(c.name) && r.cur == Some(EMPTY) && n == ";" + Esc(c.name) + ";;;"
    ensures ReadLine(ReadLine(ReadLine(r, Line("VERSION", "3.0")), Line("FN", Esc(c.name))), Line("N", n))
         == r.(cur := Some(Names(c)))
  {
    VersionSkipped(r);
    KeyFn("FN");
    ReadFn(r, "FN", c.name);
    NameRead(r.(cur := Some(EMPTY.(fn := c.name))), c, n);
  }

  lemma VersionSkipped(r: Reading)
    requires r.cur.Some?
    ensures ReadLine(r, Line("VERSION", "3.0")) == r
  {
    KeyVersion("VERSION");
    ReadOther(r, "VERSION", "3.0");
  }

  lemma NameRead(r: Reading, c: Contact, n: string)
    requires Clean(c.name) && r.cur == Some(EMPTY.(fn := c.name)) && n == ";" + Esc(c.name) + ";;;"
    ensures ReadLine(r, Line("N", n)) == r.(cur := Some(Names(c)))
  {
    KeyN("N");
    NameTrimmed(c.name);
    NameChain(c.name);
    ReadN(r, "N", n);
  }

  lemma AfterCompany(r: Reading, c: Contact)
    requires Clean(c.name) && Clean(c.company)
    ensures ReadAll(r, ToCompany(c)) == Reading(r.out, Some(Names(c).(org := c.company)))
  {
    AfterNames(r, c);
    KeyOrg("ORG");
    ReadWith(r, NameLines(c), c.company != "", Line("ORG", Esc(c.company)));
    ReadOrg(Reading(r.out, Some(Names(c))), "ORG", c.company);
  }

  lemma AfterNumbers(r: Reading, c: Contact)
    requires Clean(c.name) && Clean(c.company) && Clean(c.phone) && Clean(c.whatsapp) && Phone(c.phone)
             && Phone(c.whatsapp)
    ensures ReadAll(r, ToWhatsapp(c)) == Reading(r.out, Some(Names(c).(org := c.company, phones := Numbers(c))))
  {
    AfterCompany(r, c);
    KeyTel("TEL;TYPE=CELL");
    var c2 := Names(c).(org := c.company);
    var one := With([], c.phone != "", c.phone);
    var second := c.whatsapp != "" && c.whatsapp != c.phone;
    ReadWith(r, ToCompany(c), c.phone != "", Line("TEL;TYPE=CELL", c.phone));
    if c.phone != "" {
      ReadTel(Reading(r.out, Some(c2)), "TEL;TYPE=CELL", c.phone);
    }
    assert ReadAll(r, ToPhone(c)) == Reading(r.out, Some(c2.(phones := one)));
    ReadWith(r, ToPhone(c), second, Line("TEL;TYPE=CELL", c.whatsapp));
    if second {
      ReadTel(Reading(r.out, Some(c2.(phones := one))), "TEL;TYPE=CELL", c.whatsapp);
    }
  }

  lemma AfterEmail(r: Reading, c: Contact)
    requires Writable(c)
    ensures ReadAll(r, ToEmail(c)) == Reading(r.out, Some(Reached(c)))
  {
    AfterNumbers(r, c);
    KeyMail("EMAIL;TYPE=INTERNET");
    ReadWith(r, ToWhatsapp(c), c.email != "", Line("EMAIL;TYPE=INTERNET", c.email));
    if c.email != "" {
      ReadMail(Reading(r.out, Some(Names(c).(org := c.company, phones := Numbers(c)))), "EMAIL;TYPE=INTERNET", c.email);
    }
  }

  lemma NoAddressNoParts(c: Contact)
    requires !HasAddress(c)
    ensures forall i | 2 <= i <= 5 :: Part(Chain(Address(c)), i) == ""
  {
    forall i | 2 <= i <= 5
      ensures Part(Chain(Address(c)), i) == ""
    {
      PartRead(Address(c), i);
    }
  }

  lemma AfterAddress(r: Reading, c: Contact)
    requires Writable(c)
    ensures ReadAll(r, ToAddress(c)) == Reading(r.out, Some(Placed(c)))
  {
    AfterEmail(r, c);
    KeyAdr("ADR;TYPE=WORK");
    ReadWith(r, ToEmail(c), HasAddress(c), Line("ADR;TYPE=WORK", AddressText(c)));
    if HasAddress(c) {
      AddressTrimmed(c);
      AddressChain(c);
      ReadAdr(Reading(r.out, Some(Reached(c))), "ADR;TYPE=WORK", AddressText(c));
    } else {
      NoAddressNoParts(c);
    }
  }

  lemma AfterNotes(r: Reading, c: Contact)
    requires Writable(c)
    ensures ReadAll(r, ToNotes(c)) == Reading(r.out, Some(Placed(c).(note := c.notes)))
  {
    AfterAddress(r, c);
    KeyCategories("CATEGORIES");
    KeyNote("NOTE");
    EscTrimmed(c.kind);
    ReadWith(r, ToAddress(c), c.kind != "", Line("CATEGORIES", Esc(c.kind)));
    ReadOther(Reading(r.out, Some(Placed(c))), "CATEGORIES", Esc(c.kind));
    ReadWith(r, ToKind(c), c.notes != "", Line("NOTE", Esc(c.notes)));
    ReadNote(Reading(r.out, Some(Placed(c))), "NOTE", c.notes);
  }

  /** One written card adds one row, whatever the reader was in the middle of. */
  lemma AfterCard(r: Reading, c: Contact)
    requires Writable(c)
    ensures ReadAll(r, CardLines(c)) == Reading(r.out + [Back(c)], None)
  {
    AfterNotes(r, c);
    var full := Placed(c).(note := c.notes);
    ReadWith(r, ToNotes(c), true, "END:VCARD");
    GivenFound(c.name);
    TrimmedTrim(c.name);
    assert Worth(full) && AsRow(full) == Back(c);
    ReadEnd(Reading(r.out, Some(full)));
  }

  function Backs(rows: seq<Contact>): seq<Parsed> {
    seq(|rows|, i requires 0 <= i < |rows| => Back(rows[i]))
  }

  lemma CardsFirst(rows: seq<Contact>, lines: seq<string>)
    requires rows != [] && lines == CardLines(rows[0])
    ensures Flat(Cards(rows)) == lines + Flat(Cards(rows[1..]))
  {
    var cards := Cards(rows);
    assert cards[1..] == Cards(rows[1..]) && cards[0] == lines;
  }

  lemma FirstRow(r: Reading, rows: seq<Contact>)
    requires rows != [] && Writable(rows[0])
    ensures ReadAll(r, Flat(Cards(rows))) == ReadAll(Reading(r.out + [Back(rows[0])], None), Flat(Cards(rows[1..])))
  {
    var lines := CardLines(rows[0]);
    AfterCard(r, rows[0]);
    CardsFirst(rows, lines);
    ReadAppend(r, lines, Flat(Cards(rows[1..])));
  }

  lemma {:induction false} AfterCards(r: Reading, rows: seq<Contact>)
    requires forall i | 0 <= i < |rows| :: Writable(rows[i])
    ensures ReadAll(r, Flat(Cards(rows))).out == r.out + Backs(rows)
    decreases |rows|
  {
    if rows == [] {
      assert Backs(rows) == [];
    } else {
      FirstRow(r, rows);
      AfterCards(Reading(r.out + [Back(rows[0])], None), rows[1..]);
      BacksFirst(r.out, rows);
    }
  }

  lemma BacksFirst(out: seq<Parsed>, rows: seq<Contact>)
    requires rows != []
    ensures out + [Back(rows[0])] + Backs(rows[1..]) == out + Backs(rows)
  {
    var all := Backs(rows);
    assert all[1..] == Backs(rows[1..]);
    FirstThenRest(out, all);
  }

  lemma FirstThenRest<T>(out: seq<T>, all: seq<T>)
    requires all != []
    ensures out + [all[0]] + all[1..] == out + all
  {
  }

  // ---- the file and its lines ----

  /** A line that survives in a file: it holds no break and does not look like the rest of a folded one. */
  predicate Tidy(line: string) {
    Lines.Unbroken(line) && line != "" && !Lines.Blank(line[0])
  }

  predicate AllTidy(lines: seq<string>) {
    forall i | 0 <= i < |lines| :: Tidy(lines[i])
  }

  function Singles(lines: seq<string>): (pieces: seq<seq<string>>)
    ensures |pieces| == |lines|
  {
    seq(|lines|, i requires 0 <= i < |lines| => [lines[i]])
  }

  lemma {:induction false} EndedIsFile(lines: seq<string>)
    ensures Lines.File(Singles(lines)) == Ended(lines)
    ensures Lines.Wholes(Singles(lines)) == lines
  {
    if lines != [] {
      EndedIsFile(lines[1..]);
      assert Singles(lines)[1..] == Singles(lines[1..]) && Singles(lines)[0] == [lines[0]];
      assert Lines.Whole([lines[0]]) == lines[0];
    }
  }

  lemma EndedUnfolds(lines: seq<string>)
    requires AllTidy(lines)
    ensures Lines.Unfold(Ended(lines)) == lines + [""]
  {
    EndedIsFile(lines);
    forall i | 0 <= i < |lines|
      ensures Lines.AllUnbroken(Singles(lines)[i]) && Lines.Whole(Singles(lines)[i]) == lines[i]
    {
      assert Singles(lines)[i] == [lines[i]] && Tidy(lines[i]);
    }
    Lines.FileUnfolds(Singles(lines));
  }

  lemma LineTidy(key: string, val: string)
    requires key != "" && Lines.Unbroken(key) && !Lines.Blank(key[0]) && Lines.Unbroken(val)
    ensures Tidy(Line(key, val))
  {
    var line := Line(key, val);
    assert line[0] == key[0];
  }

  lemma EscLineTidy(key: string, v: string)
    requires key != "" && Lines.Unbroken(key) && !Lines.Blank(key[0]) && '\r' !in v
    ensures Tidy(Line(key, Esc(v)))
  {
    EscUnbroken(v);
    LineTidy(key, Esc(v));
  }

  lemma NamesTidy(c: Contact)
    requires '\r' !in c.name
    ensures AllTidy(NameLines(c))
  {
    EscUnbroken(c.name);
    EscLineTidy("FN", c.name);
    LineTidy("N", ";" + Esc(c.name) + ";;;");
    LineTidy("VERSION", "3.0");
    assert Tidy("BEGIN:VCARD");
  }

  lemma AddressTidy(c: Contact)
    requires Writable(c)
    ensures Tidy(Line("ADR;TYPE=WORK", AddressText(c)))
  {
    EscUnbroken(c.street);
    EscUnbroken(c.city);
    EscUnbroken(c.state);
    EscUnbroken(c.pin);
    EscUnbroken(c.country);
    LineTidy("ADR;TYPE=WORK", AddressText(c));
  }

  lemma TidyWith(lines: seq<string>, c: bool, line: string)
    requires AllTidy(lines) && (c ==> Tidy(line))
    ensures AllTidy(With(lines, c, line))
  {
  }

  lemma NumbersTidy(c: Contact)
    requires Writable(c)
    ensures AllTidy(ToEmail(c))
  {
    NamesTidy(c);
    EscLineTidy("ORG", c.company);
    TidyWith(NameLines(c), c.company != "", Line("ORG", Esc(c.company)));
    LineTidy("TEL;TYPE=CELL", c.phone);
    TidyWith(ToCompany(c), c.phone != "", Line("TEL;TYPE=CELL", c.phone));
    LineTidy("TEL;TYPE=CELL", c.whatsapp);
    TidyWith(ToPhone(c), c.whatsapp != "" && c.whatsapp != c.phone, Line("TEL;TYPE=CELL", c.whatsapp));
    LineTidy("EMAIL;TYPE=INTERNET", c.email);
    TidyWith(ToWhatsapp(c), c.email != "", Line("EMAIL;TYPE=INTERNET", c.email));
  }

  lemma CardTidy(c: Contact)
    requires Writable(c)
    ensures AllTidy(CardLines(c))
  {
    NumbersTidy(c);
    AddressTidy(c);
    TidyWith(ToEmail(c), HasAddress(c), Line("ADR;TYPE=WORK", AddressText(c)));
    EscLineTidy("CATEGORIES", c.kind);
    TidyWith(ToAddress(c), c.kind != "", Line("CATEGORIES", Esc(c.kind)));
    EscLineTidy("NOTE", c.notes);
    TidyWith(ToKind(c), c.notes != "", Line("NOTE", Esc(c.notes)));
    assert Tidy("END:VCARD");
  }

  lemma {:induction false} FlatTidy(cards: seq<seq<string>>)
    requires forall i | 0 <= i < |cards| :: AllTidy(cards[i])
    ensures AllTidy(Flat(cards))
  {
    if cards != [] {
      FlatTidy(cards[1..]);
    }
  }

  lemma CardsTidy(rows: seq<Contact>)
    requires forall i | 0 <= i < |rows| :: Writable(rows[i])
    ensures AllTidy(Flat(Cards(rows)))
  {
    forall i | 0 <= i < |rows|
      ensures AllTidy(Cards(rows)[i])
    {
      CardTidy(rows[i]);
    }
    FlatTidy(Cards(rows));
  }

  lemma LastLineEmpty(r: Reading, lines: seq<string>)
    ensures ReadAll(r, lines + [""]) == ReadAll(r, lines)
  {
    ReadAppend(r, lines, [""]);
    ReadOne(ReadAll(r, lines), "");
  }

  /** Writing rows and reading the file gives one row each, in order, as Back says. */
  lemma WhatComesBack(rows: seq<Contact>)
    requires forall i | 0 <= i < |rows| :: Writable(rows[i])
    ensures Parse(Ended(Flat(Cards(rows)))) == Backs(rows)
  {
    var lines := Flat(Cards(rows));
    CardsTidy(rows);
    EndedUnfolds(lines);
    LastLineEmpty(Reading([], None), lines);
    AfterCards(Reading([], None), rows);
    assert [] + Backs(rows) == Backs(rows);
  }

  // ---- the round trip ----

  /** The row read is the row written; country, kind and the customer's type are not read back. */
  predicate Same(r: Contact, p: Parsed) {
    && p.name == r.name && p.company == r.company && p.phone == r.phone && p.whatsapp == r.whatsapp
        && p.email == r.email
    && p.street == r.street && p.city == r.city && p.state == r.state && p.pin == r.pin && p.notes == r.notes
  }

  /**
   * How the values must fit together: WhatsApp beside another phone, and no backslash at the end of an address part.
   */
  predicate Fitting(r: Contact) {
    && (r.whatsapp != "" ==> r.phone != "" && r.phone != r.whatsapp)
    && !EndsInBackslash(r.street) && !EndsInBackslash(r.city) && !EndsInBackslash(r.state) && !EndsInBackslash(r.pin)
  }

  lemma AddressKept(r: Contact)
    requires Writable(r)
    ensures Back(r).street == r.street && Back(r).city == r.city && Back(r).state == r.state && Back(r).pin == r.pin
    <==> !EndsInBackslash(r.street) && !EndsInBackslash(r.city) && !EndsInBackslash(r.state) && !EndsInBackslash(r.pin)
  {
    var parts := Address(r);
    assert parts[0] == "" && parts[1] == "" && parts[2] == r.street && parts[3] == r.city && parts[4] == r.state
        && parts[5] == r.pin && parts[6] == r.country;
    PartsReadExactly(parts, 5);
    FirstTwoEmpty(r);
  }

  lemma FirstTwoEmpty(r: Contact)
    ensures Part(Chain(Address(r)), 0) == "" && Part(Chain(Address(r)), 1) == ""
  {
    AddressHead(r);
    var t := Esc(r.street) + (";" + Chain([r.city, r.state, r.pin, r.country]));
    Semicolon(";" + t);
    Semicolon(t);
  }

  lemma NumbersKept(r: Contact)
    ensures Back(r).phone == r.phone && Back(r).whatsapp == r.whatsapp
       <==> (r.whatsapp != "" ==> r.phone != "" && r.phone != r.whatsapp)
  {
    var one := With([], r.phone != "", r.phone);
    assert r.phone != "" ==> one == [r.phone];
    assert r.phone == "" ==> one == [];
  }

  /** A row comes back as it was exactly when its values fit together. */
  lemma KeptExactly(r: Contact)
    requires Writable(r)
    ensures Same(r, Back(r)) <==> Fitting(r)
  {
    AddressKept(r);
    NumbersKept(r);
  }

  /** The whole address book: every row in order, and each as it was exactly when its values fit together. */
  lemma RoundTrip(rows: seq<Contact>)
    requires forall i | 0 <= i < |rows| :: Writable(rows[i])
    ensures var out := Parse(Ended(Flat(Cards(rows))));
            && |out| == |rows|
            && forall i | 0 <= i < |rows| :: !out[i].business && (Same(rows[i], out[i]) <==> Fitting(rows[i]))
  {
    WhatComesBack(rows);
    forall i | 0 <= i < |rows|
      ensures Same(rows[i], Backs(rows)[i]) <==> Fitting(rows[i])
    {
      KeptExactly(rows[i]);
    }
  }
}

/** IMAP folder names in modified UTF-7 (mail_rules.folder_encode and folder_name, section 5.1.3 of RFC 3501). */
module MailFolders {
  import opened Text
  import Base64
  import Base64Bits

  predicate Printable(c: char) { ' ' <= c <= '~' }

  function Swap(s: string, a: char, b: char): (t: string)
    ensures |t| == |s| && forall i | 0 <= i < |s| :: t[i] == if s[i] == a then b else s[i]
  {
    if s == "" then "" else [if s[0] == a then b else s[0]] + Swap(s[1..], a, b)
  }

  lemma BytesOf(s: string)
    ensures Base64.AreBytes(Base64.Utf16(s))
  {
    Base64.Utf16RoundTrip(s);
  }

  /** The letters between & and - for a run of characters. */
  function Body(run: string): string {
    BytesOf(run);
    Swap(Base64.Encode(Base64.Utf16(run)), '/', ',')
  }

  function Flush(buf: string): string {
    if buf == "" then "" else "&" + Body(buf) + "-"
  }

  /** A printable character as written. */
  function Plain(c: char): string {
    if c == '&' then "&-" else [c]
  }

  /** What is written for the rest of a name, `buf` being the run not yet written. */
  function EncodeFrom(s: string, buf: string): string
    decreases |s|
  {
    if s == "" then Flush(buf)
    else if Printable(s[0]) then Flush(buf) + Plain(s[0]) + EncodeFrom(s[1..], "")
    else EncodeFrom(s[1..], buf + [s[0]])
  }

  /** mail_rules.folder_encode */
  method FolderEncode(name: string) returns (out: string)
    ensures out == EncodeFrom(name, "")
  {
    var buf := "";
    out := "";
    for i := 0 to |name|
      invariant out + EncodeFrom(name[i..], buf) == EncodeFrom(name, "")
    {
      var ch := name[i];
      assert name[i..][1..] == name[i + 1..];
      if ' ' <= ch <= '~' {
        Regrouped(out, Flush(buf), Plain(ch));
        Regrouped(out, Flush(buf) + Plain(ch), EncodeFrom(name[i + 1..], ""));
        out := out + Flush(buf) + (if ch == '&' then "&-" else [ch]);
        buf := "";
      } else {
        buf := buf + [ch];
      }
    }
    out := out + Flush(buf);
  }

  predicate IsAscii(s: string) {
    forall c | c in s :: c < '\U{80}'
  }

  /** What one &…- stands for; None where decoding raises. */
  function DecodeBody(body: string): Option<string> {
    if body == "" then Some("&")
    else
      var b := Swap(body, ',', '/');
      if !IsAscii(b) then None
      else match Base64.Decode(b + Base64.Padding(|b|), 0, 0, 0)
        case None => None
        case Some(bytes) => Base64.FromUtf16(bytes)
  }

  datatype Token = Lit(c: char) | Shift(body: string)

  /** re.sub's scan for &…-: from & to the next -; an & with no - after it stays as it is. */
  function Tokens(raw: string): seq<Token> {
    if raw == "" then []
    else
      var n := PrefixLength(raw, c => c != '-');
      if raw[0] == '&' && n < |raw| then [Shift(raw[1..n])] + Tokens(raw[n + 1..])
      else [Lit(raw[0])] + Tokens(raw[1..])
  }

  function Meaning(ts: seq<Token>): Option<string> {
    if ts == [] then Some("")
    else
      var first := match ts[0] case Lit(c) => Some([c]) case Shift(body) => DecodeBody(body);
      if first.None? then None else Base64.Prefixed(first.value, Meaning(ts[1..]))
  }

  /** mail_rules.folder_name */
  function FolderName(raw: string): Option<string> {
    Meaning(Tokens(raw))
  }

  // ---- what encoding writes ----

  predicate NonPrintable(s: string) {
    forall c | c in s :: !Printable(c)
  }

  function FlushTokens(buf: string): seq<Token> {
    if buf == "" then [] else [Shift(Body(buf))]
  }

  function PlainToken(c: char): Token {
    if c == '&' then Shift("") else Lit(c)
  }

  function TokensFrom(s: string, buf: string): seq<Token>
    decreases |s|
  {
    if s == "" then FlushTokens(buf)
    else if Printable(s[0]) then
      FlushTokens(buf) + [PlainToken(s[0])] + TokensFrom(s[1..], "")
    else TokensFrom(s[1..], buf + [s[0]])
  }

  /** A body is printable, has no -, and decodes to its run. */
  lemma BodyBack(run: string)
    requires run != ""
    ensures Body(run) != "" && '-' !in Body(run) && (forall c | c in Body(run) :: Printable(c))
    ensures DecodeBody(Body(run)) == Some(run)
  {
    var bytes := Base64.Utf16(run);
    Base64.Utf16RoundTrip(run);
    Base64.EncodeLetters(bytes);
    var e, body := Base64.Encode(bytes), Body(run);
    forall i | 0 <= i < |body|
      ensures body[i] != '-' && Printable(body[i]) && body[i] < '\U{80}' && e[i] < '\U{80}' && e[i] != ','
    {
      assert e[i] in e;
    }
    assert Swap(body, ',', '/') == e;
    Base64.RoundTrip(bytes);
  }

  lemma ShiftFirst(body: string, rest: string)
    requires '-' !in body
    ensures Tokens("&" + body + "-" + rest) == [Shift(body)] + Tokens(rest)
  {
    var raw := "&" + body + "-" + rest;
    var n := PrefixLength(raw, c => c != '-');
    assert raw[|body| + 1] == '-';
    assert forall i | 1 <= i <= |body| :: raw[i] == body[i - 1];
    assert n == |body| + 1;
    assert raw[1..n] == body && raw[n + 1..] == rest;
  }

  lemma LitFirst(c: char, rest: string)
    requires c != '&'
    ensures Tokens([c] + rest) == [Lit(c)] + Tokens(rest)
  {
    assert ([c] + rest)[1..] == rest;
  }

  lemma FlushFirst(buf: string, rest: string)
    ensures Tokens(Flush(buf) + rest) == FlushTokens(buf) + Tokens(rest)
  {
    if buf == "" {
      assert Flush(buf) + rest == rest && FlushTokens(buf) + Tokens(rest) == Tokens(rest);
    } else {
      BodyBack(buf);
      ShiftFirst(Body(buf), rest);
    }
  }

  lemma TokenFirst(c: char, rest: string)
    ensures Tokens(Plain(c) + rest) == [PlainToken(c)] + Tokens(rest)
  {
    if c == '&' {
      ShiftFirst("", rest);
      assert "&" + "" + "-" + rest == "&-" + rest;
    } else {
      LitFirst(c, rest);
    }
  }

  lemma FlushedToken(buf: string, c: char, rest: string)
    ensures Tokens(Flush(buf) + Plain(c) + rest) == FlushTokens(buf) + [PlainToken(c)] + Tokens(rest)
  {
    TokenFirst(c, rest);
    FlushFirst(buf, Plain(c) + rest);
    Regrouped(Flush(buf), Plain(c), rest);
    Regrouped(FlushTokens(buf), [PlainToken(c)], Tokens(rest));
  }

  lemma {:induction false} EncodedTokens(s: string, buf: string)
    ensures Tokens(EncodeFrom(s, buf)) == TokensFrom(s, buf)
    decreases |s|
  {
    if s == "" {
      FlushFirst(buf, "");
      assert Flush(buf) + "" == Flush(buf) && FlushTokens(buf) + [] == FlushTokens(buf);
    } else if Printable(s[0]) {
      EncodedTokens(s[1..], "");
      FlushedToken(buf, s[0], EncodeFrom(s[1..], ""));
    } else {
      EncodedTokens(s[1..], buf + [s[0]]);
    }
  }

  lemma MeaningOne(t: Token, v: string, rest: seq<Token>)
    requires match t case Lit(c) => v == [c] case Shift(body) => DecodeBody(body) == Some(v)
    ensures Meaning([t] + rest) == Base64.Prefixed(v, Meaning(rest))
  {
    assert ([t] + rest)[1..] == rest;
  }

  lemma {:induction false} TokensMean(s: string, buf: string)
    ensures Meaning(TokensFrom(s, buf)) == Some(buf + s)
    decreases |s|
  {
    if s == "" {
      if buf != "" {
        BodyBack(buf);
        MeaningOne(Shift(Body(buf)), buf, []);
        assert [Shift(Body(buf))] + [] == [Shift(Body(buf))];
      }
      assert buf + s == buf && buf + "" == buf;
    } else if Printable(s[0]) {
      PrintableMeans(s, buf);
    } else {
      TokensMean(s[1..], buf + [s[0]]);
      assert buf + [s[0]] + s[1..] == buf + s;
    }
  }

  lemma {:induction false} PrintableMeans(s: string, buf: string)
    requires s != "" && Printable(s[0])
    ensures Meaning(TokensFrom(s, buf)) == Some(buf + s)
    decreases |s|, 0
  {
    var c, u := s[0], s[1..];
    TokensMean(u, "");
    assert "" + u == u && [c] + u == s;
    FlushedMeans(buf, c, u, TokensFrom(u, ""));
  }

  lemma FlushedMeans(buf: string, c: char, u: string, rest: seq<Token>)
    requires Meaning(rest) == Some(u)
    ensures Meaning(FlushTokens(buf) + [PlainToken(c)] + rest) == Some(buf + ([c] + u))
  {
    var t := PlainToken(c);
    MeaningOne(t, [c], rest);
    if buf == "" {
      assert FlushTokens(buf) + [t] + rest == [t] + rest && buf + ([c] + u) == [c] + u;
    } else {
      BodyBack(buf);
      MeaningOne(Shift(Body(buf)), buf, [t] + rest);
      assert FlushTokens(buf) + [t] + rest == [Shift(Body(buf))] + ([t] + rest);
    }
  }

  /** Reading a folder name back gives the name, whatever characters it has. */
  lemma FolderRoundTrip(name: string)
    ensures FolderName(EncodeFrom(name, "")) == Some(name)
  {
    EncodedTokens(name, "");
    TokensMean(name, "");
    assert "" + name == name;
  }

  /** So no two names are written alike. */
  lemma EncodeInjective(a: string, b: string)
    requires EncodeFrom(a, "") == EncodeFrom(b, "")
    ensures a == b
  {
    FolderRoundTrip(a);
    FolderRoundTrip(b);
  }

  /** Written names are printable ASCII. */
  lemma {:induction false} EncodedPrintable(s: string, buf: string)
    ensures forall c | c in EncodeFrom(s, buf) :: Printable(c)
    decreases |s|
  {
    if buf != "" { BodyBack(buf); }
    if s != "" {
      EncodedPrintable(s[1..], if Printable(s[0]) then "" else buf + [s[0]]);
    }
  }

  ghost predicate IsRun(t: Token) { t.Shift? && t.body != "" }

  /** A shifted run holds characters, and none of them printable. */
  ghost predicate GoodRun(t: Token) {
    IsRun(t) ==> DecodeBody(t.body).Some? && DecodeBody(t.body).value != "" && NonPrintable(DecodeBody(t.body).value)
  }

  /** Section 5.1.3: no shift ends where another begins, and no printable character is shifted. */
  ghost predicate Canonical(ts: seq<Token>) {
    && (forall i | 0 <= i < |ts| - 1 :: !(IsRun(ts[i]) && IsRun(ts[i + 1])))
    && (forall i | 0 <= i < |ts| :: GoodRun(ts[i]))
  }

  lemma CanonicalCons(t: Token, rest: seq<Token>)
    requires Canonical(rest) && GoodRun(t) && (rest != [] ==> !(IsRun(t) && IsRun(rest[0])))
    ensures Canonical([t] + rest)
  {
    var ts := [t] + rest;
    forall i | 0 <= i < |ts| - 1
      ensures !(IsRun(ts[i]) && IsRun(ts[i + 1]))
    {
      if i > 0 { assert ts[i] == rest[i - 1] && ts[i + 1] == rest[i - 1 + 1]; }
    }
  }

  lemma FlushedCanonical(buf: string, c: char, rest: seq<Token>)
    requires NonPrintable(buf) && Canonical(rest)
    ensures Canonical(FlushTokens(buf) + [PlainToken(c)] + rest)
  {
    var t := PlainToken(c);
    CanonicalCons(t, rest);
    if buf == "" {
      assert FlushTokens(buf) + [t] + rest == [t] + rest;
    } else {
      BodyBack(buf);
      CanonicalCons(Shift(Body(buf)), [t] + rest);
      assert FlushTokens(buf) + [t] + rest == [Shift(Body(buf))] + ([t] + rest);
    }
  }

  lemma {:induction false} TokensCanonical(s: string, buf: string)
    requires NonPrintable(buf)
    ensures Canonical(TokensFrom(s, buf))
    decreases |s|
  {
    if s == "" {
      if buf != "" { BodyBack(buf); }
    } else if Printable(s[0]) {
      TokensCanonical(s[1..], "");
      FlushedCanonical(buf, s[0], TokensFrom(s[1..], ""));
    } else {
      TokensCanonical(s[1..], buf + [s[0]]);
    }
  }

  /** What folder_encode writes is canonical modified UTF-7 in printable ASCII. */
  lemma EncodedCanonical(name: string)
    ensures Canonical(Tokens(EncodeFrom(name, ""))) && forall c | c in EncodeFrom(name, "") :: Printable(c)
  {
    EncodedTokens(name, "");
    TokensCanonical(name, "");
    EncodedPrintable(name, "");
  }

  // ---- what is written, bit by bit ----

  /** The alphabet of section 5.1.3 of RFC 3501: that of base64 with a comma for the slash. */
  const ALPHABET := "ABCDEFGHIJKLMNOPQRSTUVWXYZ" + "abcdefghijklmnopqrstuvwxyz" + "0123456789" + "+,"

  lemma AlphabetIs(n: int)
    requires 0 <= n < 64
    ensures |ALPHABET| == 64 == |Base64Bits.ALPHABET|
    ensures ALPHABET[n] == if Base64Bits.ALPHABET[n] == '/' then ',' else Base64Bits.ALPHABET[n]
  {
    Base64Bits.LetterIs(n);
    assert Base64Bits.ALPHABET[n] == '/' <==> n == 63;
  }

  /** Letter k stands for bits 6k to 6k + 5 of the octets, zeros past their end, and the letters take in all of them. */
  ghost predicate Spells(body: string, octets: seq<int>) {
    && |body| == (8 * |octets| + 5) / 6
    && forall k | 0 <= k < |body| :: |ALPHABET| == 64 && body[k] == ALPHABET[Base64Bits.Six(octets, 6 * k)]
  }

  lemma BodySpells(run: string)
    ensures Spells(Body(run), Base64.Utf16(run))
  {
    var octets := Base64.Utf16(run);
    BytesOf(run);
    Base64Bits.EncodeLength(octets);
    forall k | 0 <= k < |Body(run)|
      ensures |ALPHABET| == 64 && Body(run)[k] == ALPHABET[Base64Bits.Six(octets, 6 * k)]
    {
      Base64Bits.LetterByBits(octets, k);
      AlphabetIs(Base64Bits.Six(octets, 6 * k));
    }
  }

  /** A token as it is written. */
  function Spelled(t: Token): string {
    match t case Lit(c) => [c] case Shift(body) => "&" + body + "-"
  }

  function AllSpelled(ts: seq<Token>): string {
    if ts == [] then "" else Spelled(ts[0]) + AllSpelled(ts[1..])
  }

  /** Shifts end at their first -, and an & alone is one that no - follows. */
  ghost predicate CutRight(ts: seq<Token>) {
    forall i | 0 <= i < |ts| ::
      match ts[i]
      case Shift(body) => '-' !in body
      case Lit(c) => c == '&' ==> '-' !in AllSpelled(ts[i..])
  }

  lemma CutCons(t: Token, rest: seq<Token>)
    requires CutRight(rest) && (t.Shift? ==> '-' !in t.body)
    requires t == Lit('&') ==> '-' !in AllSpelled([t] + rest)
    ensures CutRight([t] + rest)
  {
    var ts := [t] + rest;
    assert ts[0..] == ts;
    forall i | 0 < i < |ts|
      ensures ts[i] == rest[i - 1] && ts[i..] == rest[i - 1..]
    {
    }
  }

  lemma FirstToken(raw: string) returns (t: Token, m: nat)
    requires raw != ""
    ensures 1 <= m <= |raw| && Tokens(raw) == [t] + Tokens(raw[m..]) && Spelled(t) == raw[..m]
    ensures (t.Shift? ==> '-' !in t.body) && (t == Lit('&') ==> '-' !in raw)
  {
    var n := PrefixLength(raw, c => c != '-');
    if raw[0] == '&' && n < |raw| {
      t, m := Shift(raw[1..n]), n + 1;
      ShiftSpelled(raw, n);
    } else {
      t, m := Lit(raw[0]), 1;
    }
  }

  lemma ShiftSpelled(raw: string, n: nat)
    requires 1 <= n < |raw| && raw[0] == '&' && raw[n] == '-'
    ensures "&" + raw[1..n] + "-" == raw[..n + 1]
  {
  }

  lemma SpelledCons(t: Token, rest: seq<Token>)
    ensures AllSpelled([t] + rest) == Spelled(t) + AllSpelled(rest)
  {
    assert ([t] + rest)[1..] == rest;
  }

  /** The scan cuts any text into tokens that spell it. */
  lemma {:induction false} TokensSpell(raw: string)
    ensures AllSpelled(Tokens(raw)) == raw && CutRight(Tokens(raw))
  {
    if raw != "" {
      var t, m := FirstToken(raw);
      TokensSpell(raw[m..]);
      SpelledCons(t, Tokens(raw[m..]));
      assert raw[..m] + raw[m..] == raw;
      CutCons(t, Tokens(raw[m..]));
    }
  }

  ghost predicate IsBodyOf(body: string, run: string) {
    run != "" && NonPrintable(run) && Spells(body, Base64.Utf16(run)) && DecodeBody(body) == Some(run)
  }

  /** A token of a written name: & as &-, another printable character as it is, a run of others by its bits. */
  ghost predicate WellWritten(t: Token) {
    match t
    case Lit(c) => Printable(c) && c != '&'
    case Shift(body) => body == "" || exists run :: IsBodyOf(body, run)
  }

  lemma {:induction false} TokensWellWritten(s: string, buf: string)
    requires NonPrintable(buf)
    ensures forall i | 0 <= i < |TokensFrom(s, buf)| :: WellWritten(TokensFrom(s, buf)[i])
    decreases |s|
  {
    if buf != "" {
      BodySpells(buf);
      BodyBack(buf);
      assert IsBodyOf(Body(buf), buf);
    }
    if s != "" { TokensWellWritten(s[1..], if Printable(s[0]) then "" else buf + [s[0]]); }
  }

  /**
   * The written form of a name: the tokens it is cut into are printable characters, &- for &, and runs of the others,
   * no two together, each in the letters of the bits of its UTF-16 octets; what they stand for, in order, is the name.
   */
  lemma WrittenForm(name: string)
    ensures var ts := Tokens(EncodeFrom(name, ""));
            && AllSpelled(ts) == EncodeFrom(name, "") && Meaning(ts) == Some(name)
            && (forall i | 0 <= i < |ts| :: WellWritten(ts[i]))
            && forall i | 0 <= i < |ts| - 1 :: !(IsRun(ts[i]) && IsRun(ts[i + 1]))
  {
    TokensSpell(EncodeFrom(name, ""));
    EncodedTokens(name, "");
    TokensMean(name, "");
    assert "" + name == name;
    TokensWellWritten(name, "");
    TokensCanonical(name, "");
  }

  /** A body with a character that is not ASCII is an error. */
  lemma OnlyAscii(body: string, i: nat)
    requires i < |body| && body[i] >= '\U{80}'
    ensures DecodeBody(body) == None
  {
    var b := Swap(body, ',', '/');
    assert b[i] in b;
  }

  /**
   * What a body of letters stands for: the text whose UTF-16 octets are written with these letters, bits that fill no
   * octet apart. One letter too many, or octets of no text, are an error.
   */
  lemma BodyMeans(body: string, s: string)
    requires body != "" && (forall c | c in body :: c < '\U{80}')
    requires Base64Bits.AllLetters(Swap(body, ',', '/'))
    ensures DecodeBody(body) == Some(s) <==>
              |body| % 4 != 1 && Base64.AreBytes(Base64.Utf16(s))
              && Base64.Encode(Base64.Utf16(s)) == Base64Bits.Cleared(Swap(body, ',', '/'))
  {
    var b := Swap(body, ',', '/');
    assert IsAscii(b) by {
      forall i | 0 <= i < |b|
        ensures b[i] < '\U{80}'
      {
        assert body[i] in body;
      }
    }
    Base64Bits.DecodeLenient(b);
    BytesOf(s);
    if |body| % 4 != 1 {
      var octets := Base64.Decode(b + Base64.Padding(|b|), 0, 0, 0).value;
      Base64.FromUtf16Exactly(octets, s);
      if Base64.Encode(Base64.Utf16(s)) == Base64Bits.Cleared(b) {
        Base64.RoundTrip(octets);
        Base64.RoundTrip(Base64.Utf16(s));
      }
    }
  }
}

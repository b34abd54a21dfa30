/** UTF-16 and base64 as Python's codecs do them, for the folder names of mail_rules.py. */
module Base64 {
  import opened Text

  predicate AreBytes(b: seq<int>) {
    forall i | 0 <= i < |b| :: 0 <= b[i] < 256
  }

  // ---- UTF-16, big end first ----

  function UnitBytes(u: int): seq<int> { [u / 256, u % 256] }

  function Utf16Char(c: char): (b: seq<int>)
    ensures |b| == 2 || |b| == 4
  {
    var v := c as int;
    if v < 0x10000 then UnitBytes(v)
    else UnitBytes(0xD800 + (v - 0x10000) / 0x400) + UnitBytes(0xDC00 + (v - 0x10000) % 0x400)
  }

  /** s.encode("utf-16-be") */
  function Utf16(s: string): seq<int> {
    if s == "" then [] else Utf16Char(s[0]) + Utf16(s[1..])
  }

  /** b.decode("utf-16-be"); None where it raises: an odd byte, or a surrogate without its partner. */
  function FromUtf16(b: seq<int>): Option<string> {
    if b == [] then Some("")
    else if |b| == 1 then None
    else
      var u := b[0] * 256 + b[1];
      if 0 <= u < 0xD800 || 0xE000 <= u < 0x10000 then Prefixed([u as char], FromUtf16(b[2..]))
      else if |b| < 4 then None
      else
        var l := b[2] * 256 + b[3];
        if 0xD800 <= u < 0xDC00 && 0xDC00 <= l < 0xE000 then
          Prefixed([(0x10000 + (u - 0xD800) * 0x400 + (l - 0xDC00)) as char], FromUtf16(b[4..]))
        else None
  }

  function Prefixed(p: string, rest: Option<string>): Option<string> {
    match rest case None => None case Some(t) => Some(p + t)
  }

  lemma Utf16CharBack(c: char, rest: seq<int>)
    ensures AreBytes(Utf16Char(c))
    ensures FromUtf16(Utf16Char(c) + rest) == Prefixed([c], FromUtf16(rest))
  {
    var v := c as int;
    var b := Utf16Char(c) + rest;
    if v < 0x10000 {
      assert b[2..] == rest && b[0] * 256 + b[1] == v;
    } else {
      var w := v - 0x10000;
      SurrogateParts(w);
      var hi, lo := 0xD800 + w / 0x400, 0xDC00 + w % 0x400;
      assert b[0] * 256 + b[1] == hi && b[2] * 256 + b[3] == lo;
      assert b[4..] == rest;
    }
  }

  lemma SurrogateParts(w: int)
    requires 0 <= w < 0x100000
    ensures 0 <= w / 0x400 < 0x400 && w == w / 0x400 * 0x400 + w % 0x400
  {
  }

  lemma {:induction false} Utf16RoundTrip(s: string)
    ensures AreBytes(Utf16(s)) && FromUtf16(Utf16(s)) == Some(s) && (s != "" ==> Utf16(s) != [])
  {
    if s != "" {
      Utf16RoundTrip(s[1..]);
      Utf16CharBack(s[0], Utf16(s[1..]));
      assert [s[0]] + s[1..] == s;
    }
  }

  /**
   * The octets of a character: its number, high octet first, or for one past the first 65536 the two surrogates whose
   * lower ten bits make up what its number has more than 65536.
   */
  lemma Utf16Octets(c: char)
    ensures var b, v := Utf16Char(c), c as int;
            && AreBytes(b)
            && (v < 0x10000 ==> |b| == 2 && b[0] * 256 + b[1] == v)
            && (v >= 0x10000 ==>
                  && |b| == 4 && 0xD8 <= b[0] < 0xDC <= b[2] < 0xE0
                  && (b[0] % 4 * 256 + b[1]) * 1024 + b[2] % 4 * 256 + b[3] == v - 0x10000)
  {
    if c as int >= 0x10000 { SurrogateParts(c as int - 0x10000); }
  }

  lemma {:induction false} Utf16Last(s: string, c: char)
    ensures Utf16(s + [c]) == Utf16(s) + Utf16Char(c)
  {
    if s == "" {
      assert s + [c] == [c] && [c][1..] == "" && Utf16Char(c) + [] == Utf16Char(c);
    } else {
      Utf16Last(s[1..], c);
      assert (s + [c])[1..] == s[1..] + [c];
      Regrouped(Utf16Char(s[0]), Utf16(s[1..]), Utf16Char(c));
    }
  }

  /** Octets that are read are those of what they are read as, and no others are read as it. */
  lemma FromUtf16Exactly(b: seq<int>, s: string)
    requires AreBytes(b)
    ensures FromUtf16(b) == Some(s) <==> Utf16(s) == b
  {
    Utf16RoundTrip(s);
    if FromUtf16(b) == Some(s) { ReadIsWritten(b, s); }
  }

  lemma {:induction false} ReadIsWritten(b: seq<int>, s: string)
    requires AreBytes(b) && FromUtf16(b) == Some(s)
    ensures Utf16(s) == b
    decreases |b|
  {
    if b != [] {
      var n := if 0xD8 <= b[0] < 0xE0 then 4 else 2;
      var c := if n == 2 then OneUnit(b) else TwoUnits(b);
      var rest := FromUtf16(b[n..]).value;
      assert s == [c] + rest && s[1..] == rest;
      ReadIsWritten(b[n..], rest);
      assert b == b[..n] + b[n..];
    }
  }

  function OneUnit(b: seq<int>): (c: char)
    requires AreBytes(b) && b != [] && FromUtf16(b).Some? && !(0xD8 <= b[0] < 0xE0)
    ensures |b| >= 2 && Utf16Char(c) == b[..2] && FromUtf16(b) == Prefixed([c], FromUtf16(b[2..]))
  {
    var u := b[0] * 256 + b[1];
    assert UnitBytes(u) == b[..2];
    u as char
  }

  function TwoUnits(b: seq<int>): (c: char)
    requires AreBytes(b) && b != [] && FromUtf16(b).Some? && 0xD8 <= b[0] < 0xE0
    ensures |b| >= 4 && Utf16Char(c) == b[..4] && FromUtf16(b) == Prefixed([c], FromUtf16(b[4..]))
  {
    var u, l := b[0] * 256 + b[1], b[2] * 256 + b[3];
    var w := (u - 0xD800) * 0x400 + (l - 0xDC00);
    Surrogates(u - 0xD800, l - 0xDC00);
    assert UnitBytes(u) + UnitBytes(l) == b[..4];
    (0x10000 + w) as char
  }

  lemma Surrogates(hi: int, lo: int)
    requires 0 <= hi < 0x400 && 0 <= lo < 0x400
    ensures (hi * 0x400 + lo) / 0x400 == hi && (hi * 0x400 + lo) % 0x400 == lo
  {
  }

  // ---- base64 ----

  function Letter(v: int): (c: char)
    requires 0 <= v < 64
  {
    if v < 26 then 'A' + v as char
    else if v < 52 then 'a' + (v - 26) as char
    else if v < 62 then '0' + (v - 52) as char
    else if v == 62 then '+' else '/'
  }

  function Sextet(c: char): Option<int> {
    if 'A' <= c <= 'Z' then Some(c as int - 'A' as int)
    else if 'a' <= c <= 'z' then Some(c as int - 'a' as int + 26)
    else if '0' <= c <= '9' then Some(c as int - '0' as int + 52)
    else if c == '+' then Some(62)
    else if c == '/' then Some(63)
    else None
  }

  lemma LetterBack(v: int)
    requires 0 <= v < 64
    ensures Sextet(Letter(v)) == Some(v) && Letter(v) != '=' && Letter(v) != ',' && Letter(v) != '-'
            && ' ' < Letter(v) < '\U{7F}'
  {
  }

  /** base64.b64encode(b).rstrip("=") */
  function Encode(b: seq<int>): string
    requires AreBytes(b)
  {
    if b == [] then ""
    else if |b| == 1 then [Letter(b[0] / 4), Letter(b[0] % 4 * 16)]
    else if |b| == 2 then [Letter(b[0] / 4), Letter(b[0] % 4 * 16 + b[1] / 16), Letter(b[1] % 16 * 4)]
    else Four(b[0], b[1], b[2]) + Encode(b[3..])
  }

  function Four(x: int, y: int, z: int): string
    requires 0 <= x < 256 && 0 <= y < 256 && 0 <= z < 256
  {
    [Letter(x / 4), Letter(x % 4 * 16 + y / 16), Letter(y % 16 * 4 + z / 64), Letter(z % 64)]
  }

  /** The byte the next letter completes, and what is left over, in each of the four places of a group. */
  function Completed(place: nat, left: int, v: int): seq<int>
    requires place < 4
  {
    if place == 0 then [] else if place == 1 then [left * 4 + v / 16] else if place == 2 then [left * 16 + v / 4]
        else [left * 64 + v]
  }

  function LeftOver(place: nat, v: int): int
    requires place < 4
  {
    if place == 0 then v else if place == 1 then v % 16 else if place == 2 then v % 4 else 0
  }

  /**
   * base64.b64decode, not validating: characters outside the alphabet are skipped, padding after at least two letters
   * of a group that completes it ends the data, and a group left incomplete raises.
   */
  function Decode(s: string, place: nat, left: int, pads: nat): Option<seq<int>>
    requires place < 4
  {
    if s == "" then (if place == 0 then Some([]) else None)
    else if s[0] == '=' then
      if place >= 2 && place + pads + 1 >= 4 then Some([])
      else Decode(s[1..], place, left, if place >= 2 then pads + 1 else pads)
    else match Sextet(s[0])
      case None => Decode(s[1..], place, left, pads)
      case Some(v) =>
        Then(Completed(place, left, v), Decode(s[1..], (place + 1) % 4, LeftOver(place, v), 0))
  }

  function Then(b: seq<int>, rest: Option<seq<int>>): Option<seq<int>> {
    match rest case None => None case Some(t) => Some(b + t)
  }

  lemma ThenThen(a: seq<int>, b: seq<int>, rest: Option<seq<int>>)
    ensures Then(a, Then(b, rest)) == Then(a + b, rest)
  {
    if rest.Some? { assert a + (b + rest.value) == a + b + rest.value; }
  }

  lemma DecodeLetter(v: int, t: string, place: nat, left: int, pads: nat)
    requires 0 <= v < 64 && place < 4
    ensures Decode([Letter(v)] + t, place, left, pads)
            == Then(Completed(place, left, v), Decode(t, (place + 1) % 4, LeftOver(place, v), 0))
  {
    LetterBack(v);
    assert ([Letter(v)] + t)[1..] == t;
  }

  lemma DecodeFirstTwo(a: int, b: int, u: string, x: int, left: int)
    requires 0 <= a < 64 && 0 <= b < 64 && x == a * 4 + b / 16 && left == b % 16
    ensures Decode([Letter(a)] + ([Letter(b)] + u), 0, 0, 0) == Then([x], Decode(u, 2, left, 0))
  {
    DecodeLetter(a, [Letter(b)] + u, 0, 0, 0);
    DecodeLetter(b, u, 1, a, 0);
    ThenNothing(Then([x], Decode(u, 2, left, 0)));
  }

  lemma DecodeThird(left: int, c: int, u: string, y: int, over: int)
    requires 0 <= c < 64 && y == left * 16 + c / 4 && over == c % 4
    ensures Decode([Letter(c)] + u, 2, left, 0) == Then([y], Decode(u, 3, over, 0))
  {
    DecodeLetter(c, u, 2, left, 0);
  }

  lemma DecodeFourth(left: int, d: int, t: string, z: int)
    requires 0 <= d < 64 && z == left * 64 + d
    ensures Decode([Letter(d)] + t, 3, left, 0) == Then([z], Decode(t, 0, 0, 0))
  {
    DecodeLetter(d, t, 3, left, 0);
  }

  lemma TwoBytes(y: int, z: int, rest: Option<seq<int>>)
    ensures Then([y], Then([z], rest)) == Then([y, z], rest)
  {
    ThenThen([y], [z], rest);
    assert [y] + [z] == [y, z];
  }

  lemma DecodeLastTwo(left: int, c: int, d: int, t: string, y: int, z: int)
    requires 0 <= c < 64 && 0 <= d < 64 && y == left * 16 + c / 4 && z == c % 4 * 64 + d
    ensures Decode([Letter(c)] + ([Letter(d)] + t), 2, left, 0) == Then([y, z], Decode(t, 0, 0, 0))
  {
    var over := c % 4;
    DecodeThird(left, c, [Letter(d)] + t, y, over);
    DecodeFourth(over, d, t, z);
    TwoBytes(y, z, Decode(t, 0, 0, 0));
  }

  lemma ThenNothing(rest: Option<seq<int>>)
    ensures Then([], rest) == rest
  {
    if rest.Some? { assert [] + rest.value == rest.value; }
  }

  lemma ThreeBytes(x: int, y: int, z: int, rest: Option<seq<int>>)
    ensures Then([x], Then([y, z], rest)) == Then([x, y, z], rest)
  {
    ThenThen([x], [y, z], rest);
    assert [x] + [y, z] == [x, y, z];
  }

  lemma DecodeLetters(a: int, b: int, u: string, t: string, x: int, y: int, z: int)
    requires 0 <= a < 64 && 0 <= b < 64 && x == a * 4 + b / 16
    requires Decode(u, 2, b % 16, 0) == Then([y, z], Decode(t, 0, 0, 0))
    ensures Decode([Letter(a)] + ([Letter(b)] + u), 0, 0, 0) == Then([x, y, z], Decode(t, 0, 0, 0))
  {
    DecodeFirstTwo(a, b, u, x, b % 16);
    ThreeBytes(x, y, z, Decode(t, 0, 0, 0));
  }

  lemma DecodeFour(x: int, y: int, z: int, t: string)
    requires 0 <= x < 256 && 0 <= y < 256 && 0 <= z < 256
    ensures Decode(Four(x, y, z) + t, 0, 0, 0) == Then([x, y, z], Decode(t, 0, 0, 0))
  {
    var a, b, c, d := x / 4, x % 4 * 16 + y / 16, y % 16 * 4 + z / 64, z % 64;
    Parts(x, y, z);
    var u := [Letter(c)] + ([Letter(d)] + t);
    DecodeLastTwo(b % 16, c, d, t, y, z);
    DecodeLetters(a, b, u, t, x, y, z);
    FourThen(Letter(a), Letter(b), Letter(c), Letter(d), t);
  }

  lemma FourThen(a: char, b: char, c: char, d: char, t: string)
    ensures [a, b, c, d] + t == [a] + ([b] + ([c] + ([d] + t)))
  {
  }

  lemma Parts(x: int, y: int, z: int)
    requires 0 <= x < 256 && 0 <= y < 256 && 0 <= z < 256
    ensures var a, b, c, d := x / 4, x % 4 * 16 + y / 16, y % 16 * 4 + z / 64, z % 64;
            a * 4 + b / 16 == x && b % 16 * 16 + c / 4 == y && c % 4 * 64 + d == z
  {
    assert (x % 4 * 16 + y / 16) / 16 == x % 4 && (x % 4 * 16 + y / 16) % 16 == y / 16;
    assert (y % 16 * 4 + z / 64) / 4 == y % 16 && (y % 16 * 4 + z / 64) % 4 == z / 64;
  }

  function Padding(n: nat): string {
    if n % 4 == 1 then "===" else if n % 4 == 2 then "==" else if n % 4 == 3 then "=" else ""
  }

  lemma DecodeOne(x: int)
    requires 0 <= x < 256
    ensures Decode([Letter(x / 4), Letter(x % 4 * 16)] + "==", 0, 0, 0) == Some([x])
  {
    var a, b := x / 4, x % 4 * 16;
    DecodeLetter(a, [Letter(b)] + "==", 0, 0, 0);
    DecodeLetter(b, "==", 1, a, 0);
    assert "=="[1..] == "=";
    assert Decode("==", 2, b % 16, 0) == Some([]);
    assert [Letter(a), Letter(b)] + "==" == [Letter(a)] + ([Letter(b)] + "==");
    assert b / 16 == x % 4 && a * 4 + b / 16 == x;
    assert [] + ([x] + []) == [x];
  }

  lemma DecodeLast(a: int, b: int, c: int, x: int, y: int)
    requires 0 <= a < 64 && 0 <= b < 64 && 0 <= c < 64 && x == a * 4 + b / 16 && y == b % 16 * 16 + c / 4
    ensures Decode([Letter(a)] + ([Letter(b)] + ([Letter(c)] + "=")), 0, 0, 0) == Some([x, y])
  {
    DecodeFirstTwo(a, b, [Letter(c)] + "=", x, b % 16);
    DecodeEnd(b % 16, c, y);
    assert [x] + [y] == [x, y];
  }

  lemma DecodeEnd(left: int, c: int, y: int)
    requires 0 <= c < 64 && y == left * 16 + c / 4
    ensures Decode([Letter(c)] + "=", 2, left, 0) == Some([y])
  {
    DecodeLetter(c, "=", 2, left, 0);
    assert Decode("=", 3, c % 4, 0) == Some([]);
    assert [y] + [] == [y];
  }

  lemma Padded(a: char, b: char, c: char)
    ensures [a, b, c] + "=" == [a] + ([b] + ([c] + "="))
  {
  }

  lemma DecodeTwo(x: int, y: int)
    requires 0 <= x < 256 && 0 <= y < 256
    ensures Decode([Letter(x / 4), Letter(x % 4 * 16 + y / 16), Letter(y % 16 * 4)] + "=", 0, 0, 0) == Some([x, y])
  {
    var a, b, c := x / 4, x % 4 * 16 + y / 16, y % 16 * 4;
    assert a * 4 + b / 16 == x && b % 16 * 16 + c / 4 == y by { Parts(x, y, 0); }
    DecodeLast(a, b, c, x, y);
    Padded(Letter(a), Letter(b), Letter(c));
  }

  /** Decoding undoes encoding, padding put back. */
  lemma {:induction false} RoundTrip(b: seq<int>)
    requires AreBytes(b)
    ensures Decode(Encode(b) + Padding(|Encode(b)|), 0, 0, 0) == Some(b)
  {
    if b == [] {
      assert Encode(b) + Padding(|Encode(b)|) == "";
    } else if |b| == 1 {
      DecodeOne(b[0]);
      assert b == [b[0]];
    } else if |b| == 2 {
      DecodeTwo(b[0], b[1]);
      assert b == [b[0], b[1]];
    } else {
      RoundTrip(b[3..]);
      GroupFirst(b);
    }
  }

  lemma PadGroup(four: string, rest: string)
    requires |four| == 4
    ensures (four + rest) + Padding(|four + rest|) == four + (rest + Padding(|rest|))
  {
    assert Padding(|four + rest|) == Padding(|rest|);
  }

  lemma GroupFirst(b: seq<int>)
    requires AreBytes(b) && |b| >= 3
    requires Decode(Encode(b[3..]) + Padding(|Encode(b[3..])|), 0, 0, 0) == Some(b[3..])
    ensures Decode(Encode(b) + Padding(|Encode(b)|), 0, 0, 0) == Some(b)
  {
    var rest, four := Encode(b[3..]), Four(b[0], b[1], b[2]);
    var whole := Encode(b);
    assert whole == four + rest;
    PadGroup(four, rest);
    DecodeFour(b[0], b[1], b[2], rest + Padding(|rest|));
    assert Then([b[0], b[1], b[2]], Some(b[3..])) == Some(b) by {
      assert [b[0], b[1], b[2]] + b[3..] == b;
    }
  }

  /** The letters of an encoding: printable, none of them = , - and at least two of them unless there is nothing. */
  lemma {:induction false} EncodeLetters(b: seq<int>)
    requires AreBytes(b)
    ensures forall c | c in Encode(b) :: c != '=' && c != ',' && c != '-' && ' ' < c < '\U{7F}'
    ensures b != [] ==> |Encode(b)| >= 2
  {
    if |b| == 1 {
      LetterBack(b[0] / 4);
      LetterBack(b[0] % 4 * 16);
    } else if |b| == 2 {
      LetterBack(b[0] / 4);
      LetterBack(b[0] % 4 * 16 + b[1] / 16);
      LetterBack(b[1] % 16 * 4);
    } else if |b| > 2 {
      LetterBack(b[0] / 4);
      LetterBack(b[0] % 4 * 16 + b[1] / 16);
      LetterBack(b[1] % 16 * 4 + b[2] / 64);
      LetterBack(b[2] % 64);
      EncodeLetters(b[3..]);
    }
  }
}

/** UTF-8: characters to bytes and back, refusing what is not well formed. */
module Utf8 {
  import opened Text

  predicate Continues(b: int) { 0x80 <= b < 0xC0 }

  function EncodeChar(c: char): (bs: seq<int>)
    ensures 1 <= |bs| <= 4
  {
    var v := c as int;
    if v < 0x80 then [v]
    else if v < 0x800 then [0xC0 + v / 0x40, 0x80 + v % 0x40]
    else if v < 0x10000 then [0xE0 + v / 0x1000, 0x80 + v / 0x40 % 0x40, 0x80 + v % 0x40]
    else [0xF0 + v / 0x40000, 0x80 + v / 0x1000 % 0x40, 0x80 + v / 0x40 % 0x40, 0x80 + v % 0x40]
  }

  /** s.encode("utf-8") */
  function Encode(s: string): seq<int> {
    if s == "" then [] else EncodeChar(s[0]) + Encode(s[1..])
  }

  /** How many bytes a first byte announces; 0 when no character starts with it. */
  function Announced(b: int): (n: nat)
    ensures n <= 4
  {
    if 0 <= b < 0x80 then 1 else if 0xC2 <= b < 0xE0 then 2 else if 0xE0 <= b < 0xF0 then 3 else if 0xF0 <= b < 0xF5
        then 4 else 0
  }

  /** The value of the first n bytes, a first byte and its continuations. */
  function Value(b: seq<int>, n: nat): int
    requires 1 <= n <= 4 && n <= |b|
  {
    if n == 1 then b[0]
    else if n == 2 then (b[0] - 0xC0) * 0x40 + (b[1] - 0x80)
    else if n == 3 then (b[0] - 0xE0) * 0x1000 + (b[1] - 0x80) * 0x40 + (b[2] - 0x80)
    else (b[0] - 0xF0) * 0x40000 + (b[1] - 0x80) * 0x1000 + (b[2] - 0x80) * 0x40 + (b[3] - 0x80)
  }

  /** A value is written in its shortest form and is no surrogate. */
  predicate Proper(v: int, n: nat) {
    && (n == 2 ==> v >= 0x80) && (n == 3 ==> v >= 0x800) && (n == 4 ==> v >= 0x10000)
    && (0 <= v < 0xD800 || 0xE000 <= v < 0x110000)
  }

  predicate StartsWell(b: seq<int>) {
    b != [] &&
    var n := Announced(b[0]);
    1 <= n <= |b| && (forall i | 1 <= i < n :: Continues(b[i])) && Proper(Value(b, n), n)
  }

  /** b.decode("utf-8"); None where it raises. */
  function Decode(b: seq<int>): Option<string> {
    if b == [] then Some("")
    else if !StartsWell(b) then None
    else
      var n := Announced(b[0]);
      match Decode(b[n..])
      case None => None
      case Some(rest) => Some([Value(b, n) as char] + rest)
  }

  lemma CharRoundTrip(c: char, rest: seq<int>)
    ensures var b := EncodeChar(c) + rest;
            var n := |EncodeChar(c)|;
            StartsWell(b) && Announced(b[0]) == n && Value(b, n) == c as int && b[n..] == rest
  {
    var v := c as int;
    if v < 0x80 {
    } else if v < 0x800 {
      TwoParts(v);
    } else if v < 0x10000 {
      ThreeParts(v);
    } else {
      FourParts(v);
    }
  }

  lemma TwoParts(v: int)
    requires 0x80 <= v < 0x800
    ensures 2 <= v / 0x40 < 0x20 && v == v / 0x40 * 0x40 + v % 0x40
  {
  }

  lemma ThreeParts(v: int)
    requires 0x800 <= v < 0x10000
    ensures v / 0x1000 < 0x10 && v == v / 0x1000 * 0x1000 + v / 0x40 % 0x40 * 0x40 + v % 0x40
  {
    assert v / 0x40 / 0x40 == v / 0x1000;
  }

  lemma FourParts(v: int)
    requires 0x10000 <= v < 0x110000
    ensures v / 0x40000 < 5 && v == v / 0x40000 * 0x40000 + v / 0x1000 % 0x40 * 0x1000 + v / 0x40 % 0x40 * 0x40
            + v % 0x40
  {
    assert v / 0x40 / 0x40 == v / 0x1000 && v / 0x1000 / 0x40 == v / 0x40000;
  }

  /** Decoding undoes encoding, for every string. */
  lemma {:induction false} RoundTrip(s: string)
    ensures Decode(Encode(s)) == Some(s)
  {
    if s != "" {
      CharRoundTrip(s[0], Encode(s[1..]));
      RoundTrip(s[1..]);
      assert [s[0]] + s[1..] == s;
    }
  }

  lemma {:induction false} EncodeConcat(s: string, t: string)
    ensures Encode(s + t) == Encode(s) + Encode(t)
  {
    if s == "" {
      assert s + t == t;
    } else {
      assert (s + t)[1..] == s[1..] + t;
      EncodeConcat(s[1..], t);
    }
  }

  /** Only the bytes after a character's first are continuations. */
  lemma FirstByte(c: char)
    ensures !Continues(EncodeChar(c)[0])
    ensures forall i | 1 <= i < |EncodeChar(c)| :: Continues(EncodeChar(c)[i])
  {
    CharRoundTrip(c, []);
    assert EncodeChar(c) + [] == EncodeChar(c);
  }
}

/** The bits of base64: which letter stands for which bits of the octets, and which octets letters stand for. */
module Base64Bits {
  import opened Text
  import opened Base64

  /** The alphabet of RFC 4648, section 4: the letter of each number below 64. */
  const ALPHABET := "ABCDEFGHIJKLMNOPQRSTUVWXYZ" + "abcdefghijklmnopqrstuvwxyz" + "0123456789" + "+/"

  lemma LetterIs(v: int)
    requires 0 <= v < 64
    ensures |ALPHABET| == 64 && Letter(v) == ALPHABET[v]
  {
    if v < 26 {
      assert ALPHABET[v] == "ABCDEFGHIJKLMNOPQRSTUVWXYZ"[v];
    } else if v < 52 {
      assert ALPHABET[v] == "abcdefghijklmnopqrstuvwxyz"[v - 26];
    } else if v < 62 {
      assert ALPHABET[v] == "0123456789"[v - 52];
    } else {
      assert ALPHABET[v] == "+/"[v - 62];
    }
  }

  /** Bit i of a sequence of octets, the highest of each first; 0 past the end. */
  function Bit(b: seq<int>, i: nat): (bit: int)
    ensures 0 <= bit <= 1
  {
    if i / 8 >= |b| then 0
    else
      var x := b[i / 8];
      match i % 8
      case 0 => x / 128 % 2
      case 1 => x / 64 % 2
      case 2 => x / 32 % 2
      case 3 => x / 16 % 2
      case 4 => x / 8 % 2
      case 5 => x / 4 % 2
      case 6 => x / 2 % 2
      case _ => x % 2
  }

  /** The number in n bits from i on. */
  function Bits(b: seq<int>, i: nat, n: nat): (v: int)
    ensures v >= 0 && (n == 0 ==> v == 0) && (n == 1 ==> v < 2) && (n == 2 ==> v < 4) && (n == 3 ==> v < 8)
    ensures (n == 4 ==> v < 16) && (n == 5 ==> v < 32) && (n == 6 ==> v < 64)
  {
    if n == 0 then 0 else 2 * Bits(b, i, n - 1) + Bit(b, i + n - 1)
  }

  function Six(b: seq<int>, i: nat): (v: int)
    ensures 0 <= v < 64
  {
    Bits(b, i, 6)
  }

  lemma LowHalves(x: int)
    requires 0 <= x < 256
    ensures x == 2 * (x / 2) + x % 2
    ensures x / 2 == 2 * (x / 4) + x / 2 % 2
    ensures x / 4 == 2 * (x / 8) + x / 4 % 2
  {
  }

  lemma MiddleHalves(x: int)
    requires 0 <= x < 256
    ensures x / 8 == 2 * (x / 16) + x / 8 % 2
    ensures x / 16 == 2 * (x / 32) + x / 16 % 2
  {
  }

  lemma HighHalves(x: int)
    requires 0 <= x < 256
    ensures x / 32 == 2 * (x / 64) + x / 32 % 2
    ensures x / 64 == 2 * (x / 128) + x / 64 % 2
    ensures x / 128 == x / 128 % 2
  {
  }

  /** An octet is its bits. */
  lemma Halves(x: int)
    requires 0 <= x < 256
    ensures x == 2 * (x / 2) + x % 2 && x / 2 == 2 * (x / 4) + x / 2 % 2 && x / 4 == 2 * (x / 8) + x / 4 % 2
    ensures x / 8 == 2 * (x / 16) + x / 8 % 2 && x / 16 == 2 * (x / 32) + x / 16 % 2
    ensures x / 32 == 2 * (x / 64) + x / 32 % 2 && x / 64 == 2 * (x / 128) + x / 64 % 2 && x / 128 == x / 128 % 2
    ensures x % 4 == x - 4 * (x / 4) && x % 16 == x - 16 * (x / 16) && x % 64 == x - 64 * (x / 64)
  {
    LowHalves(x);
    MiddleHalves(x);
    HighHalves(x);
  }

  /** Six bits one by one. */
  lemma SixBits(b: seq<int>, i: nat)
    ensures Six(b, i) == 32 * Bit(b, i) + 16 * Bit(b, i + 1) + 8 * Bit(b, i + 2) + 4 * Bit(b, i + 3) + 2 * Bit(b, i + 4)
                         + Bit(b, i + 5)
  {
    assert Bits(b, i, 1) == Bit(b, i);
    assert Bits(b, i, 2) == 2 * Bits(b, i, 1) + Bit(b, i + 1);
    assert Bits(b, i, 3) == 2 * Bits(b, i, 2) + Bit(b, i + 2);
    assert Bits(b, i, 4) == 2 * Bits(b, i, 3) + Bit(b, i + 3);
    assert Bits(b, i, 5) == 2 * Bits(b, i, 4) + Bit(b, i + 4);
    assert Bits(b, i, 6) == 2 * Bits(b, i, 5) + Bit(b, i + 5);
  }

  lemma FirstSix(b: seq<int>)
    requires AreBytes(b) && |b| >= 1
    ensures Six(b, 0) == b[0] / 4
  {
    SixBits(b, 0);
    Halves(b[0]);
    assert Bit(b, 0) == b[0] / 128 % 2 && Bit(b, 1) == b[0] / 64 % 2 && Bit(b, 2) == b[0] / 32 % 2;
    assert Bit(b, 3) == b[0] / 16 % 2 && Bit(b, 4) == b[0] / 8 % 2 && Bit(b, 5) == b[0] / 4 % 2;
  }

  lemma SecondSix(b: seq<int>)
    requires AreBytes(b) && |b| >= 1
    ensures Six(b, 6) == b[0] % 4 * 16 + if |b| == 1 then 0 else b[1] / 16
  {
    SixBits(b, 6);
    Halves(b[0]);
    assert Bit(b, 6) == b[0] / 2 % 2 && Bit(b, 7) == b[0] % 2;
    if |b| >= 2 {
      Halves(b[1]);
      assert Bit(b, 8) == b[1] / 128 % 2 && Bit(b, 9) == b[1] / 64 % 2 && Bit(b, 10) == b[1] / 32 % 2
             && Bit(b, 11) == b[1] / 16 % 2;
    }
  }

  lemma ThirdSix(b: seq<int>)
    requires AreBytes(b) && |b| >= 2
    ensures Six(b, 12) == b[1] % 16 * 4 + if |b| == 2 then 0 else b[2] / 64
  {
    SixBits(b, 12);
    Halves(b[1]);
    assert Bit(b, 12) == b[1] / 8 % 2 && Bit(b, 13) == b[1] / 4 % 2 && Bit(b, 14) == b[1] / 2 % 2
           && Bit(b, 15) == b[1] % 2;
    if |b| >= 3 {
      Halves(b[2]);
      assert Bit(b, 16) == b[2] / 128 % 2 && Bit(b, 17) == b[2] / 64 % 2;
    }
  }

  lemma FourthSix(b: seq<int>)
    requires AreBytes(b) && |b| >= 3
    ensures Six(b, 18) == b[2] % 64
  {
    SixBits(b, 18);
    Halves(b[2]);
    assert Bit(b, 18) == b[2] / 32 % 2 && Bit(b, 19) == b[2] / 16 % 2 && Bit(b, 20) == b[2] / 8 % 2;
    assert Bit(b, 21) == b[2] / 4 % 2 && Bit(b, 22) == b[2] / 2 % 2 && Bit(b, 23) == b[2] % 2;
  }

  lemma BitLater(b: seq<int>, i: nat)
    requires |b| >= 3
    ensures Bit(b, i + 24) == Bit(b[3..], i)
  {
  }

  lemma BitsStep(b: seq<int>, i: nat, n: nat)
    requires n > 0
    ensures Bits(b, i, n) == 2 * Bits(b, i, n - 1) + Bit(b, i + n - 1)
  {
  }

  lemma {:induction false} BitsLater(b: seq<int>, i: nat, n: nat)
    requires |b| >= 3
    ensures Bits(b, i + 24, n) == Bits(b[3..], i, n)
    decreases n
  {
    if n > 0 {
      var m := i + n - 1;
      BitsLater(b, i, n - 1);
      BitsStep(b, i + 24, n);
      BitsStep(b[3..], i, n);
      BitLater(b, m);
      assert i + 24 + n - 1 == m + 24;
    }
  }

  lemma LastLetters(b: seq<int>)
    requires AreBytes(b) && 1 <= |b| <= 2
    ensures |Encode(b)| == |b| + 1
    ensures Encode(b)[0] == Letter(Six(b, 0)) && Encode(b)[1] == Letter(Six(b, 6))
    ensures |b| == 2 ==> Encode(b)[2] == Letter(Six(b, 12))
  {
    FirstSix(b);
    SecondSix(b);
    if |b| == 2 {
      ThirdSix(b);
    }
  }

  lemma FourLetters(b: seq<int>)
    requires AreBytes(b) && |b| >= 3
    ensures Four(b[0], b[1], b[2])
         == [Letter(Six(b, 0)), Letter(Six(b, 6)), Letter(Six(b, 12)), Letter(Six(b, 18))]
  {
    FirstSix(b);
    SecondSix(b);
    ThirdSix(b);
    FourthSix(b);
  }

  lemma SixLater(b: seq<int>, i: nat)
    requires |b| >= 3 && i >= 24
    ensures Six(b, i) == Six(b[3..], i - 24)
  {
    BitsLater(b, i - 24, 6);
  }

  lemma GroupThen(b: seq<int>, k: nat)
    requires AreBytes(b) && |b| >= 3 && k < |Encode(b[3..])|
    ensures |Encode(b)| == 4 + |Encode(b[3..])| && Encode(b)[k + 4] == Encode(b[3..])[k]
  {
    var four, rest := Four(b[0], b[1], b[2]), Encode(b[3..]);
    assert Encode(b) == four + rest;
  }

  lemma FirstLetters(b: seq<int>, k: nat, i: nat)
    requires AreBytes(b) && |b| >= 1 && k < 4 && k < |Encode(b)| && i == 6 * k
    ensures Encode(b)[k] == Letter(Six(b, i))
  {
    if |b| <= 2 {
      LastLetters(b);
    } else {
      FourLetters(b);
      FourFirst(b);
    }
    if k == 0 {
      assert i == 0;
    } else if k == 1 {
      assert i == 6;
    } else if k == 2 {
      assert i == 12;
    } else {
      assert i == 18;
    }
  }

  lemma FourFirst(b: seq<int>)
    requires AreBytes(b) && |b| >= 3
    ensures |Encode(b)| >= 4 && Encode(b)[..4] == Four(b[0], b[1], b[2])
    ensures forall k | 0 <= k < 4 :: Encode(b)[k] == Four(b[0], b[1], b[2])[k]
  {
  }

  lemma {:induction false} LetterFrom(b: seq<int>, k: nat, i: nat)
    requires AreBytes(b) && k < |Encode(b)| && i == 6 * k
    ensures Encode(b)[k] == Letter(Six(b, i))
    decreases |b|
  {
    ShortEncoding(b);
    if k < 4 {
      FirstLetters(b, k, i);
    } else {
      LetterFrom(b[3..], k - 4, i - 24);
      GroupThen(b, k - 4);
      SixLater(b, i);
    }
  }

  /** Letter k of an encoding is the one of bits 6k to 6k + 5, zeros past the end. */
  lemma LetterByBits(b: seq<int>, k: nat)
    requires AreBytes(b) && k < |Encode(b)|
    ensures |ALPHABET| == 64 && Encode(b)[k] == ALPHABET[Six(b, 6 * k)]
  {
    LetterFrom(b, k, 6 * k);
    LetterIs(Six(b, 6 * k));
  }

  lemma ShortEncoding(b: seq<int>)
    requires AreBytes(b)
    ensures |b| < 3 ==> |Encode(b)| <= 3
    ensures |b| >= 3 ==> |Encode(b)| == 4 + |Encode(b[3..])|
  {
  }

  /** There are as many letters as take in all the bits. */
  lemma {:induction false} EncodeLength(b: seq<int>)
    requires AreBytes(b)
    ensures |Encode(b)| == (8 * |b| + 5) / 6
  {
    if |b| >= 3 { EncodeLength(b[3..]); }
  }

  // ---- what the lenient decoder makes of any letters ----

  predicate AllLetters(s: string) {
    forall c | c in s :: Sextet(c).Some?
  }

  function Number(c: char): (v: int)
    requires Sextet(c).Some?
    ensures 0 <= v < 64 && Letter(v) == c
  {
    Sextet(c).value
  }

  /** The last of n letters with the bits that fill no octet set to zero. */
  function ClearedChar(c: char, n: nat): char
    requires Sextet(c).Some?
  {
    var v := Number(c);
    Letter(if n % 4 == 2 then v - v % 16 else if n % 4 == 3 then v - v % 4 else v)
  }

  function Cleared(s: string): string
    requires AllLetters(s)
  {
    if s == "" then "" else s[..|s| - 1] + [ClearedChar(s[|s| - 1], |s|)]
  }

  lemma ClearedLater(four: string, rest: string)
    requires |four| == 4 && rest != "" && AllLetters(four + rest) && AllLetters(rest)
    ensures Cleared(four + rest) == four + Cleared(rest)
  {
    var s, n := four + rest, |rest| - 1;
    assert s[|s| - 1] == rest[n] && s[..|s| - 1] == four + rest[..n];
    assert ClearedChar(rest[n], |s|) == ClearedChar(rest[n], |rest|);
  }

  /** The octets of four numbers below 64, and the numbers again from the octets. */
  lemma Octets(k: int, l: int, m: int, n: int)
    requires 0 <= k < 64 && 0 <= l < 64 && 0 <= m < 64 && 0 <= n < 64
    ensures var x, y, z := k * 4 + l / 16, l % 16 * 16 + m / 4, m % 4 * 64 + n;
            && 0 <= x < 256 && 0 <= y < 256 && 0 <= z < 256
            && x / 4 == k && x % 4 * 16 + y / 16 == l && y % 16 * 4 + z / 64 == m && z % 64 == n
            && y % 16 * 4 == m - m % 4
  {
    assert l == l / 16 * 16 + l % 16 && m == m / 4 * 4 + m % 4;
  }

  lemma DecodeGroup(a: char, b: char, c: char, d: char, t: string) returns (x: int, y: int, z: int)
    requires AllLetters([a, b, c, d])
    ensures 0 <= x < 256 && 0 <= y < 256 && 0 <= z < 256 && Four(x, y, z) == [a, b, c, d]
    ensures Decode([a, b, c, d] + t, 0, 0, 0) == Then([x, y, z], Decode(t, 0, 0, 0))
  {
    FourAre(a, b, c, d);
    var k, l, m, n := Number(a), Number(b), Number(c), Number(d);
    x, y, z := k * 4 + l / 16, l % 16 * 16 + m / 4, m % 4 * 64 + n;
    DecodeLastTwo(l % 16, m, n, t, y, z);
    DecodeLetters(k, l, [c] + ([d] + t), t, x, y, z);
    FourThen(a, b, c, d, t);
    Octets(k, l, m, n);
  }

  lemma FourAre(a: char, b: char, c: char, d: char)
    ensures AllLetters([a, b, c, d]) <==> Sextet(a).Some? && Sextet(b).Some? && Sextet(c).Some? && Sextet(d).Some?
    ensures AllLetters([a, b, c]) <==> Sextet(a).Some? && Sextet(b).Some? && Sextet(c).Some?
  {
    var s, t := [a, b, c, d], [a, b, c];
    assert s[0] in s && s[1] in s && s[2] in s && s[3] in s && t[0] in t && t[1] in t && t[2] in t;
  }

  lemma DecodePair(a: char, b: char) returns (x: int)
    requires AllLetters([a, b])
    ensures 0 <= x < 256 && Decode([a, b] + "==", 0, 0, 0) == Some([x])
    ensures Encode([x]) == Cleared([a, b])
  {
    var s := [a, b];
    assert s[0] in s && s[1] in s;
    var k, l := Number(a), Number(b);
    x := k * 4 + l / 16;
    DecodeFirstTwo(k, l, "==", x, l % 16);
    assert "=="[1..] == "=";
    assert Decode("==", 2, l % 16, 0) == Some([]);
    assert [a, b] + "==" == [a] + ([b] + "==") && [x] + [] == [x];
    assert x / 4 == k && x % 4 * 16 == l - l % 16;
    assert s[..1] == [a] && [a] + [Letter(l - l % 16)] == [a, Letter(l - l % 16)];
  }

  lemma DecodeTriple(a: char, b: char, c: char) returns (x: int, y: int)
    requires AllLetters([a, b, c])
    ensures 0 <= x < 256 && 0 <= y < 256 && Decode([a, b, c] + "=", 0, 0, 0) == Some([x, y])
    ensures Encode([x, y]) == Cleared([a, b, c])
  {
    FourAre(a, b, c, a);
    var k, l, m := Number(a), Number(b), Number(c);
    x, y := k * 4 + l / 16, l % 16 * 16 + m / 4;
    DecodeLast(k, l, m, x, y);
    Padded(a, b, c);
    Octets(k, l, m, 0);
    TripleWritten(a, b, c, x, y);
  }

  lemma TripleWritten(a: char, b: char, c: char, x: int, y: int)
    requires AllLetters([a, b, c]) && Sextet(a).Some? && Sextet(b).Some? && Sextet(c).Some?
    requires 0 <= x < 256 && 0 <= y < 256 && x / 4 == Number(a) && x % 4 * 16 + y / 16 == Number(b)
    requires y % 16 * 4 == Number(c) - Number(c) % 4
    ensures Encode([x, y]) == Cleared([a, b, c])
  {
    var s, m := [a, b, c], Number(c);
    assert s[..2] == [a, b] && [a, b] + [Letter(m - m % 4)] == [a, b, Letter(m - m % 4)];
  }

  /** What letters, padding put back, are read as. */
  ghost predicate Reads(s: string)
    requires AllLetters(s)
  {
    var read := Decode(s + Padding(|s|), 0, 0, 0);
    if |s| % 4 == 1 then read == None else read.Some? && AreBytes(read.value) && Encode(read.value) == Cleared(s)
  }

  /**
   * Any letters are read as the octets that are written with these letters, bits that fill no octet apart; one letter
   * too many is an error.
   */
  lemma {:induction false} DecodeLenient(s: string)
    requires AllLetters(s)
    ensures Reads(s)
  {
    if |s| >= 4 {
      assert AllLetters(s[..4]) && AllLetters(s[4..]);
      DecodeLenient(s[4..]);
      DecodeLater(s[..4], s[4..]);
      assert s == s[..4] + s[4..];
    } else if |s| == 1 {
      DecodeOneLetter(s[0]);
      assert s == [s[0]];
    } else if |s| == 2 {
      assert s == [s[0], s[1]];
      var x := DecodePair(s[0], s[1]);
    } else if |s| == 3 {
      assert s == [s[0], s[1], s[2]];
      var x, y := DecodeTriple(s[0], s[1], s[2]);
    } else {
      assert s + Padding(0) == "";
    }
  }

  lemma DecodeOneLetter(c: char)
    requires Sextet(c).Some?
    ensures Decode([c] + Padding(1), 0, 0, 0) == None
  {
    DecodeLetter(Number(c), "===", 0, 0, 0);
    assert "==="[1..] == "==" && "=="[1..] == "=" && "="[1..] == "";
    assert Decode("===", 1, Number(c), 0) == Decode("==", 1, Number(c), 0) == Decode("=", 1, Number(c), 0) == None;
  }

  lemma DecodeLater(four: string, rest: string)
    requires |four| == 4 && AllLetters(four) && AllLetters(rest) && Reads(rest)
    ensures AllLetters(four + rest) && Reads(four + rest)
  {
    var s := four + rest;
    assert four == [four[0], four[1], four[2], four[3]];
    var x, y, z := DecodeGroup(four[0], four[1], four[2], four[3], rest + Padding(|rest|));
    PadGroup(four, rest);
    if |s| % 4 != 1 {
      var b := Decode(rest + Padding(|rest|), 0, 0, 0).value;
      EncodeGroup(x, y, z, b);
      if rest == "" { ClearedFour(four); } else { ClearedLater(four, rest); }
    }
  }

  lemma ClearedFour(four: string)
    requires |four| == 4 && AllLetters(four)
    ensures Cleared(four + "") == four + Cleared("")
  {
    assert four + "" == four && four[..3] + [four[3]] == four;
  }

  lemma EncodeGroup(x: int, y: int, z: int, b: seq<int>)
    requires 0 <= x < 256 && 0 <= y < 256 && 0 <= z < 256 && AreBytes(b)
    ensures AreBytes([x, y, z] + b) && Encode([x, y, z] + b) == Four(x, y, z) + Encode(b)
  {
    var c := [x, y, z] + b;
    assert c[3..] == b && c[0] == x && c[1] == y && c[2] == z;
  }

  /** A character outside the alphabet is passed over. */
  lemma DecodePassesOver(c: char, t: string, place: nat, left: int, pads: nat)
    requires place < 4 && Sextet(c).None? && c != '='
    ensures Decode([c] + t, place, left, pads) == Decode(t, place, left, pads)
  {
    assert ([c] + t)[1..] == t;
  }

  /** A padding sign alone in the middle of a group is passed over too. */
  lemma LonePadding(a: char, b: char, c: char, t: string)
    requires Sextet(a).Some? && Sextet(b).Some? && Sextet(c).Some?
    ensures Decode([a] + ([b] + ("=" + ([c] + t))), 0, 0, 0) == Decode([a] + ([b] + ([c] + t)), 0, 0, 0)
  {
    var x, left := Number(a) * 4 + Number(b) / 16, Number(b) % 16;
    DecodeFirstTwo(Number(a), Number(b), "=" + ([c] + t), x, left);
    DecodeFirstTwo(Number(a), Number(b), [c] + t, x, left);
    LoneSign(c, t, left);
  }

  lemma LoneSign(c: char, t: string, left: int)
    requires Sextet(c).Some?
    ensures Decode("=" + ([c] + t), 2, left, 0) == Decode([c] + t, 2, left, 0)
  {
    assert ("=" + ([c] + t))[1..] == [c] + t;
    DecodeLetter(Number(c), t, 2, left, 1);
    DecodeLetter(Number(c), t, 2, left, 0);
  }

  /** Two after two letters end the data. */
  lemma PaddingEnds(a: char, b: char, t: string)
    requires Sextet(a).Some? && Sextet(b).Some?
    ensures Decode([a] + ([b] + ("==" + t)), 0, 0, 0) == Some([Number(a) * 4 + Number(b) / 16])
  {
    var x, left := Number(a) * 4 + Number(b) / 16, Number(b) % 16;
    DecodeFirstTwo(Number(a), Number(b), "==" + t, x, left);
    assert ("==" + t)[1..] == "=" + t;
    assert Decode("==" + t, 2, left, 0) == Decode("=" + t, 2, left, 1) == Some([]);
    assert [x] + [] == [x];
  }
}

/**
 Well-formed UTF-8, and the decoding that puts U+FFFD in the place of what is not: one for
 each longest start of a well-formed sequence, and one for each byte that starts none. A
 string is a sequence of Unicode scalar values here.
 */
module Utf8 {
  import opened Bytes

  const REPLACEMENT: char := '\U{FFFD}'

  /** How many bytes a sequence with this first byte has; none if no sequence starts with it. */
  function Need(lead: Byte): nat {
    if lead < 0x80 then 1
    else if 0xC2 <= lead <= 0xDF then 2
    else if 0xE0 <= lead <= 0xEF then 3
    else if 0xF0 <= lead <= 0xF4 then 4
    else 0
  }

  predicate Continues(b: Byte) { 0x80 <= b <= 0xBF }

  /** Overlong forms, surrogates and values past U+10FFFF are excluded by the second byte. */
  predicate Second(lead: Byte, b: Byte) {
    && Continues(b)
    && (lead == 0xE0 ==> 0xA0 <= b)
    && (lead == 0xED ==> b <= 0x9F)
    && (lead == 0xF0 ==> 0x90 <= b)
    && (lead == 0xF4 ==> b <= 0x8F)
  }

  /** How many bytes the decoder takes at once. */
  function Extent(s: seq<Byte>): (n: nat)
    requires s != []
    ensures 1 <= n <= |s| && n <= 4
  {
    var need := Need(s[0]);
    if need <= 1 || |s| < 2 || !Second(s[0], s[1]) then 1
    else if need == 2 || |s| < 3 || !Continues(s[2]) then 2
    else if need == 3 || |s| < 4 || !Continues(s[3]) then 3
    else 4
  }

  predicate Complete(s: seq<Byte>)
    requires s != []
  {
    Need(s[0]) == Extent(s)
  }

  /** What a byte that continues a sequence contributes. */
  function Bits(b: int, place: int): int { (b - 0x80) * place }

  function Scalar(s: seq<Byte>): char
    requires s != [] && Complete(s)
  {
    var lead: int := s[0];
    if Extent(s) == 1 then lead as char
    else if Extent(s) == 2 then ((lead - 0xC0) * 64 + Bits(s[1], 1)) as char
    else if Extent(s) == 3 then ((lead - 0xE0) * 4096 + Bits(s[1], 64) + Bits(s[2], 1)) as char
    else ((lead - 0xF0) * 262_144 + Bits(s[1], 4096) + Bits(s[2], 64) + Bits(s[3], 1)) as char
  }

  function First(s: seq<Byte>): char
    requires s != []
  {
    if Complete(s) then Scalar(s) else REPLACEMENT
  }

  function Decode(s: seq<Byte>): string {
    if s == [] then [] else [First(s)] + Decode(s[Extent(s)..])
  }

  predicate WellFormed(s: seq<Byte>) { s == [] || (Complete(s) && WellFormed(s[Extent(s)..])) }

  predicate Ascii(s: seq<Byte>) { forall i :: 0 <= i < |s| ==> s[i] < 0x80 }

  // ---------------------------------------------------------------- newlines

  lemma FirstBeforeNewline(x: seq<Byte>, y: seq<Byte>)
    requires x != []
    ensures Extent(x + [NEWLINE] + y) == Extent(x) && First(x + [NEWLINE] + y) == First(x)
  {
    var s := x + [NEWLINE] + y;
    assert forall i :: 0 <= i < |x| ==> s[i] == x[i];
    assert s[|x|] == NEWLINE;
  }

  lemma DecodeOneBefore(x: seq<Byte>, y: seq<Byte>)
    requires x != []
    ensures Decode(x + [NEWLINE] + y) == [First(x)] + Decode(x[Extent(x)..] + [NEWLINE] + y)
  {
    FirstBeforeNewline(x, y);
    assert (x + [NEWLINE] + y)[Extent(x)..] == x[Extent(x)..] + [NEWLINE] + y;
  }

  lemma Grouped(c: char, a: string, b: string)
    ensures [c] + (a + "\n" + b) == ([c] + a) + "\n" + b
  {
  }

  /** A newline is never part of anything else. */
  lemma {:induction false} DecodeAroundNewline(x: seq<Byte>, y: seq<Byte>)
    ensures Decode(x + [NEWLINE] + y) == Decode(x) + "\n" + Decode(y)
    decreases |x|
  {
    if x == [] {
      assert x + [NEWLINE] + y == [NEWLINE] + y && ([NEWLINE] + y)[1..] == y;
    } else {
      DecodeOneBefore(x, y);
      DecodeAroundNewline(x[Extent(x)..], y);
      Grouped(First(x), Decode(x[Extent(x)..]), Decode(y));
    }
  }

  lemma FirstIsNoNewline(s: seq<Byte>)
    requires s != [] && s[0] != NEWLINE
    ensures First(s) != '\n'
  {
  }

  lemma {:induction false} NoNewline(s: seq<Byte>)
    requires NEWLINE !in s
    ensures '\n' !in Decode(s)
    decreases |s|
  {
    if s != [] {
      FirstIsNoNewline(s);
      NoNewline(s[Extent(s)..]);
    }
  }

  // ---------------------------------------------------------------- cuts

  /** After one-byte characters a cut changes nothing. */
  lemma {:induction false} DecodeAfterAscii(a: seq<Byte>, b: seq<Byte>)
    requires Ascii(a)
    ensures Decode(a + b) == Decode(a) + Decode(b)
  {
    if a == [] {
      assert a + b == b;
    } else {
      DecodeAfterAscii(a[1..], b);
      assert (a + b)[1..] == a[1..] + b && Extent(a + b) == 1 == Extent(a);
    }
  }

  lemma StrayContinuation(s: seq<Byte>)
    requires s != [] && Continues(s[0])
    ensures |Decode(s)| == 1 + |Decode(s[1..])|
  {
  }

  lemma {:induction false} StrayContinuations(s: seq<Byte>, n: nat)
    requires n <= |s| && forall i :: 0 <= i < n ==> Continues(s[i])
    ensures |Decode(s)| == n + |Decode(s[n..])|
    decreases n
  {
    if n > 0 {
      StrayContinuation(s);
      assert forall i :: 0 <= i < n - 1 ==> s[1..][i] == s[i + 1];
      StrayContinuations(s[1..], n - 1);
      assert s[1..][n - 1..] == s[n..];
    } else {
      assert s[0..] == s;
    }
  }

  /** Cut off after its first byte, a longer character falls into as many as it has bytes. */
  lemma CutCharacter(s: seq<Byte>)
    requires s != [] && Complete(s) && s[0] >= 0x80
    ensures |Decode(s[..1])| + |Decode(s[1..])| == |Decode(s)| + Extent(s) - 1 > |Decode(s)|
  {
    var n := Extent(s);
    assert s[..1] == [s[0]] && Decode([s[0]]) == [First([s[0]])] + Decode([s[0]][1..]);
    assert forall i :: 0 <= i < n - 1 ==> s[1..][i] == s[i + 1] && Continues(s[i + 1]);
    StrayContinuations(s[1..], n - 1);
    assert s[1..][n - 1..] == s[n..];
  }

  /** The first character of more than one byte. */
  lemma {:induction false} FirstLonger(s: seq<Byte>) returns (a: seq<Byte>, b: seq<Byte>)
    requires WellFormed(s) && !Ascii(s)
    ensures s == a + b && Ascii(a) && b != [] && b[0] >= 0x80 && Complete(b)
  {
    if s[0] >= 0x80 {
      a, b := [], s;
    } else {
      var i :| 0 <= i < |s| && s[i] >= 0x80;
      assert s[1..][i - 1] == s[i];
      a, b := FirstLonger(s[1..]);
      a := [s[0]] + a;
    }
  }

  /** Well-formed text that is not ASCII has a cut that decoding in two pieces gives away. */
  lemma SomeCutShows(s: seq<Byte>) returns (i: nat)
    requires WellFormed(s) && !Ascii(s)
    ensures i <= |s| && Decode(s[..i]) + Decode(s[i..]) != Decode(s)
  {
    var a, b := FirstLonger(s);
    i := |a| + 1;
    assert s[..i] == a + b[..1] && s[i..] == b[1..];
    DecodeAfterAscii(a, b[..1]);
    DecodeAfterAscii(a, b);
    CutCharacter(b);
  }

  // ---------------------------------------------------------------- encoding

  function EncodeChar(c: char): seq<Byte> {
    var n := c as int;
    if n < 0x80 then [n]
    else if n < 0x800 then [0xC0 + n / 64, 0x80 + n % 64]
    else if n < 0x1_0000 then [0xE0 + n / 4096, 0x80 + n / 64 % 64, 0x80 + n % 64]
    else [0xF0 + n / 262_144, 0x80 + n / 4096 % 64, 0x80 + n / 64 % 64, 0x80 + n % 64]
  }

  function Encode(s: string): seq<Byte> { if s == [] then [] else EncodeChar(s[0]) + Encode(s[1..]) }

  lemma Sextets(n: nat)
    ensures n == n / 64 * 64 + n % 64
    ensures n / 64 == n / 4096 * 64 + n / 64 % 64
    ensures n / 4096 == n / 262_144 * 64 + n / 4096 % 64
  {
  }

  /** The bytes `head` in front of whatever follows are taken as the character `c`. */
  predicate Reads(head: seq<Byte>, rest: seq<Byte>, c: char) {
    var s := head + rest;
    s != [] && Complete(s) && Extent(s) == |head| && Scalar(s) == c
  }

  lemma One(n: nat, rest: seq<Byte>)
    requires n < 0x80
    ensures Reads([n], rest, n as char)
  {
  }

  lemma Two(n: nat, rest: seq<Byte>)
    requires 0x80 <= n < 0x800
    ensures Reads([0xC0 + n / 64, 0x80 + n % 64], rest, n as char)
  {
    var s: seq<Byte> := [0xC0 + n / 64, 0x80 + n % 64] + rest;
    assert s[0] == 0xC0 + n / 64 && s[1] == 0x80 + n % 64;
  }

  lemma Three(n: nat, rest: seq<Byte>)
    requires 0x800 <= n < 0x1_0000 && !(0xD800 <= n < 0xE000)
    ensures Reads([0xE0 + n / 4096, 0x80 + n / 64 % 64, 0x80 + n % 64], rest, n as char)
  {
    Sextets(n);
    var s: seq<Byte> := [0xE0 + n / 4096, 0x80 + n / 64 % 64, 0x80 + n % 64] + rest;
    assert s[0] == 0xE0 + n / 4096 && s[1] == 0x80 + n / 64 % 64 && s[2] == 0x80 + n % 64;
  }

  lemma Four(n: nat, rest: seq<Byte>)
    requires 0x1_0000 <= n < 0x11_0000
    ensures Reads([0xF0 + n / 262_144, 0x80 + n / 4096 % 64, 0x80 + n / 64 % 64, 0x80 + n % 64], rest, n as char)
  {
    Sextets(n);
    var s: seq<Byte> := [0xF0 + n / 262_144, 0x80 + n / 4096 % 64, 0x80 + n / 64 % 64, 0x80 + n % 64] + rest;
    assert s[0] == 0xF0 + n / 262_144 && s[1] == 0x80 + n / 4096 % 64;
    assert s[2] == 0x80 + n / 64 % 64 && s[3] == 0x80 + n % 64;
  }

  lemma CharRoundTrip(c: char, rest: seq<Byte>)
    ensures Reads(EncodeChar(c), rest, c) && (EncodeChar(c) + rest)[|EncodeChar(c)|..] == rest
  {
    var n := c as int;
    if n < 0x80 {
      One(n, rest);
    } else if n < 0x800 {
      Two(n, rest);
    } else if n < 0x1_0000 {
      Three(n, rest);
    } else {
      Four(n, rest);
    }
  }

  /** Every text is encoded in well-formed UTF-8, and decoded whole it is that text again. */
  lemma {:induction false} RoundTrip(s: string)
    ensures WellFormed(Encode(s)) && Decode(Encode(s)) == s
  {
    if s != [] {
      CharRoundTrip(s[0], Encode(s[1..]));
      RoundTrip(s[1..]);
    }
  }

  lemma BackTwo(s: seq<Byte>)
    requires s != [] && Complete(s) && Extent(s) == 2
    ensures EncodeChar(Scalar(s)) == s[..2]
  {
    var n := (s[0] as int - 0xC0) * 64 + (s[1] as int - 0x80);
    assert Scalar(s) as int == n && 0x80 <= n < 0x800;
    assert n / 64 == s[0] - 0xC0 && n % 64 == s[1] - 0x80;
  }

  lemma LastSextet(n: nat, high: nat, low: nat)
    requires n == high * 64 + low && low < 64
    ensures n / 64 == high && n % 64 == low
  {
  }

  lemma TwoSextets(n: nat)
    ensures n / 4096 == n / 64 / 64 && n / 262_144 == n / 64 / 64 / 64
  {
  }

  lemma FourParts(n: nat, a: nat, b: nat, c: nat, d: nat)
    requires n == ((a * 64 + b) * 64 + c) * 64 + d && b < 64 && c < 64 && d < 64
    ensures n / 262_144 == a && n / 4096 % 64 == b && n / 64 % 64 == c && n % 64 == d
  {
    LastSextet(n, (a * 64 + b) * 64 + c, d);
    LastSextet((a * 64 + b) * 64 + c, a * 64 + b, c);
    LastSextet(a * 64 + b, a, b);
    TwoSextets(n);
  }

  lemma ScalarOfThree(s: seq<Byte>) returns (n: nat)
    requires s != [] && Complete(s) && Extent(s) == 3
    ensures Scalar(s) as int == n && 0x800 <= n < 0x1_0000
    ensures n / 4096 == s[0] - 0xE0 && n / 64 % 64 == s[1] - 0x80 && n % 64 == s[2] - 0x80
  {
    var a, b, c := s[0] as int - 0xE0, s[1] as int - 0x80, s[2] as int - 0x80;
    n := (a * 64 + b) * 64 + c;
    LastSextet(n, a * 64 + b, c);
    LastSextet(a * 64 + b, a, b);
    TwoSextets(n);
  }

  lemma BackThree(s: seq<Byte>)
    requires s != [] && Complete(s) && Extent(s) == 3
    ensures EncodeChar(Scalar(s)) == s[..3]
  {
    var n := ScalarOfThree(s);
  }

  lemma ScalarOfFour(s: seq<Byte>) returns (n: nat)
    requires s != [] && Complete(s) && Extent(s) == 4
    ensures Scalar(s) as int == n && n >= 0x1_0000
    ensures n / 262_144 == s[0] - 0xF0 && n / 4096 % 64 == s[1] - 0x80
    ensures n / 64 % 64 == s[2] - 0x80 && n % 64 == s[3] - 0x80
  {
    var a, b, c, d := s[0] as int - 0xF0, s[1] as int - 0x80, s[2] as int - 0x80, s[3] as int - 0x80;
    n := ((a * 64 + b) * 64 + c) * 64 + d;
    FourParts(n, a, b, c, d);
  }

  lemma BackFour(s: seq<Byte>)
    requires s != [] && Complete(s) && Extent(s) == 4
    ensures EncodeChar(Scalar(s)) == s[..4]
  {
    var n := ScalarOfFour(s);
  }

  lemma CharBack(s: seq<Byte>)
    requires s != [] && Complete(s)
    ensures EncodeChar(Scalar(s)) == s[..Extent(s)]
  {
    if Extent(s) == 2 {
      BackTwo(s);
    } else if Extent(s) == 3 {
      BackThree(s);
    } else if Extent(s) == 4 {
      BackFour(s);
    } else {
      assert s[..1] == [s[0]];
    }
  }

  lemma EncodeNext(c: char, rest: string)
    ensures Encode([c] + rest) == EncodeChar(c) + Encode(rest)
  {
    assert ([c] + rest)[1..] == rest;
  }

  lemma {:induction false} EncodeBack(s: seq<Byte>)
    requires WellFormed(s)
    ensures Encode(Decode(s)) == s
    decreases |s|
  {
    if s != [] {
      var n := Extent(s);
      CharBack(s);
      EncodeBack(s[n..]);
      EncodeNext(Scalar(s), Decode(s[n..]));
      assert s == s[..n] + s[n..];
    }
  }

  /** Well-formed is exactly what encoding some text gives: no overlong form, no surrogate,
      nothing past U+10FFFF, nothing cut off. */
  lemma WellFormedIff(s: seq<Byte>)
    ensures WellFormed(s) <==> exists text :: Encode(text) == s
  {
    if WellFormed(s) {
      EncodeBack(s);
    }
    if text :| Encode(text) == s {
      RoundTrip(text);
    }
  }

  /** A character cut off before its end is one replacement character, however much of it is there. */
  lemma CutOffIsOne(c: char, n: nat)
    requires 1 <= n < |EncodeChar(c)|
    ensures Decode(EncodeChar(c)[..n]) == [REPLACEMENT]
  {
    var s := EncodeChar(c)[..n];
    CutOffExtent(c, n);
    assert s[n..] == [] && Decode(s) == [First(s)] + Decode(s[Extent(s)..]);
  }

  lemma CutOffExtent(c: char, n: nat)
    requires 1 <= n < |EncodeChar(c)|
    ensures Extent(EncodeChar(c)[..n]) == n && !Complete(EncodeChar(c)[..n])
  {
    var whole, s := EncodeChar(c), EncodeChar(c)[..n];
    CharRoundTrip(c, []);
    assert whole + [] == whole;
    assert forall i :: 0 <= i < n ==> s[i] == whole[i];
  }

  /** A byte that starts no character is one replacement character by itself. */
  lemma StrayIsOne(b: Byte, rest: seq<Byte>)
    requires Need(b) == 0
    ensures Decode([b] + rest) == [REPLACEMENT] + Decode(rest)
  {
    assert ([b] + rest)[1..] == rest;
  }
}

/** The order of strings by their first difference, as sorting file names uses it. */
module Lexical {
  predicate Less(a: string, b: string) {
    b != [] && (a == [] || a[0] < b[0] || (a[0] == b[0] && Less(a[1..], b[1..])))
  }

  lemma {:induction false} Irreflexive(a: string)
    ensures !Less(a, a)
  {
    if a != [] {
      Irreflexive(a[1..]);
    }
  }

  lemma {:induction false} Total(a: string, b: string)
    ensures a == b || Less(a, b) || Less(b, a)
  {
    if a != [] && b != [] && a[0] == b[0] {
      Total(a[1..], b[1..]);
      assert a == [a[0]] + a[1..] && b == [b[0]] + b[1..];
    }
  }

  lemma {:induction false} Transitive(a: string, b: string, c: string)
    requires Less(a, b) && Less(b, c)
    ensures Less(a, c)
  {
    if a != [] && a[0] == b[0] && b[0] == c[0] {
      Transitive(a[1..], b[1..], c[1..]);
    }
  }

  /** Fields of equal length in front decide first. */
  lemma {:induction false} Prefixed(a: string, b: string, x: string, y: string)
    requires |a| == |b|
    ensures Less(a + x, b + y) <==> Less(a, b) || (a == b && Less(x, y))
  {
    if a == [] {
      assert a + x == x && b + y == y;
    } else {
      Prefixed(a[1..], b[1..], x, y);
      assert (a + x)[1..] == a[1..] + x && (b + y)[1..] == b[1..] + y;
      assert a == [a[0]] + a[1..] && b == [b[0]] + b[1..];
    }
  }

  // ---------------------------------------------------------------- decimal fields

  function Digit(d: nat): char
    requires d < 10
  {
    '0' + d as char
  }

  /** `n` in decimal with at least `w` digits, zeros in front. */
  function Padded(n: nat, w: nat): (s: string)
    ensures |s| >= 1
  {
    if n < 10 && w <= 1 then [Digit(n)]
    else Padded(n / 10, if w == 0 then 0 else w - 1) + [Digit(n % 10)]
  }

  function Power10(w: nat): nat { if w == 0 then 1 else 10 * Power10(w - 1) }

  lemma {:induction false} PaddedWidth(n: nat, w: nat)
    requires 1 <= w && n < Power10(w)
    ensures |Padded(n, w)| == w
  {
    if w > 1 {
      PaddedWidth(n / 10, w - 1);
    }
  }

  lemma SplitTen(m: nat, n: nat)
    ensures m < n <==> m / 10 < n / 10 || (m / 10 == n / 10 && m % 10 < n % 10)
    ensures m == n <==> m / 10 == n / 10 && m % 10 == n % 10
  {
  }

  lemma LastDigits(a: nat, b: nat)
    requires a < 10 && b < 10
    ensures Less([Digit(a)], [Digit(b)]) <==> a < b
    ensures [Digit(a)] == [Digit(b)] <==> a == b
  {
    assert [Digit(a)][0] == Digit(a) && [Digit(b)][0] == Digit(b);
  }

  /** Numbers that fit a field compare as their fields do. */
  lemma {:induction false} PaddedOrder(m: nat, n: nat, w: nat)
    requires 1 <= w && m < Power10(w) && n < Power10(w)
    ensures Less(Padded(m, w), Padded(n, w)) <==> m < n
    ensures Padded(m, w) == Padded(n, w) <==> m == n
  {
    LastDigits(m % 10, n % 10);
    if w > 1 {
      PaddedOrder(m / 10, n / 10, w - 1);
      PaddedWidth(m / 10, w - 1);
      PaddedWidth(n / 10, w - 1);
      Prefixed(Padded(m / 10, w - 1), Padded(n / 10, w - 1), [Digit(m % 10)], [Digit(n % 10)]);
      SplitTen(m, n);
      SameFields(Padded(m / 10, w - 1), Padded(n / 10, w - 1), [Digit(m % 10)], [Digit(n % 10)]);
    }
  }

  lemma SameFields(a: string, b: string, x: string, y: string)
    requires |a| == |b|
    ensures a + x == b + y <==> a == b && x == y
  {
    assert (a + x)[..|a|] == a && (b + y)[..|b|] == b;
    assert (a + x)[|a|..] == x && (b + y)[|b|..] == y;
  }

  /** The number a string of digits stands for. */
  function Number(s: string): int {
    if s == [] then 0 else Number(s[..|s| - 1]) * 10 + (s[|s| - 1] as int - '0' as int)
  }

  lemma {:induction false} PaddedReads(n: nat, w: nat)
    ensures Number(Padded(n, w)) == n
  {
    if n < 10 && w <= 1 {
      assert [Digit(n)][..0] == [];
    } else {
      var front := Padded(n / 10, if w == 0 then 0 else w - 1);
      PaddedReads(n / 10, if w == 0 then 0 else w - 1);
      assert (front + [Digit(n % 10)])[..|front|] == front;
    }
  }
}

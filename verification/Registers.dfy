/** The register layer: registers of named attributes kept in one table of byte strings, ordered
    as Berkeley DB's B-tree orders them, under keys made of a big-endian id and the name. */
module Registers {

  type Byte = b: int | 0 <= b < 256
  type Bytes = seq<Byte>

  /** The width of an id in bytes (uint64_t). */
  const WIDTH: nat := 8

  function Power(w: nat): (p: nat)
    ensures p > 0
  {
    if w == 0 then 1 else 256 * Power(w - 1)
  }

  /** Big-endian digits. */
  function Enc(w: nat, n: nat): (bs: Bytes)
    requires n < Power(w)
    ensures |bs| == w
  {
    if w == 0 then []
    else
      Quotient(n, Power(w - 1));
      [n / Power(w - 1)] + Enc(w - 1, n % Power(w - 1))
  }

  lemma Multiples(a: int, b: int, p: int)
    requires p > 0 && a < b
    ensures a * p + p <= b * p
  {
    var d := b - a - 1;
    NotNegative(d, p);
    assert b * p == (a + 1 + d) * p == a * p + p + d * p;
  }

  lemma NotNegative(d: nat, p: nat)
    ensures d * p >= 0
  {
  }

  lemma Quotient(n: nat, p: nat)
    requires p > 0
    ensures n < 256 * p ==> 0 <= n / p < 256
    ensures n == (n / p) * p + n % p && 0 <= n % p < p
  {
    var q := n / p;
    if q >= 256 {
      Multiples(255, q, p);
    }
  }

  function Dec(bs: Bytes): (n: nat)
    ensures n < Power(|bs|)
  {
    if bs == [] then 0
    else
      var p := Power(|bs| - 1);
      Multiples(bs[0], 256, p);
      assert 0 <= bs[0] * p;
      bs[0] * p + Dec(bs[1..])
  }

  lemma DivModUnique(q: nat, r: nat, p: nat)
    requires r < p
    ensures q * p + r >= 0 && (q * p + r) / p == q && (q * p + r) % p == r
  {
    assert q * p >= 0;
    var n := q * p + r;
    Quotient(n, p);
    SameQuotient(n / p, n % p, q, r, p);
  }

  lemma SameQuotient(q1: int, r1: int, q2: int, r2: int, p: int)
    requires 0 <= r1 < p && 0 <= r2 < p && q1 * p + r1 == q2 * p + r2
    ensures q1 == q2 && r1 == r2
  {
    if q1 < q2 {
      Multiples(q1, q2, p);
    } else if q2 < q1 {
      Multiples(q2, q1, p);
    }
  }

  lemma {:induction false} EncDec(bs: Bytes)
    ensures Enc(|bs|, Dec(bs)) == bs
    decreases |bs|
  {
    if bs != [] {
      DivModUnique(bs[0], Dec(bs[1..]), Power(|bs| - 1));
      EncDec(bs[1..]);
    }
  }

  lemma {:induction false} DecEnc(w: nat, n: nat)
    requires n < Power(w)
    ensures Dec(Enc(w, n)) == n
    decreases w
  {
    if w > 0 {
      var p := Power(w - 1);
      Quotient(n, p);
      DecEnc(w - 1, n % p);
      assert Enc(w, n)[1..] == Enc(w - 1, n % p);
    }
  }

  /** Byte strings in the order of their first difference, a prefix first. */
  predicate Less(a: Bytes, b: Bytes) {
    if b == [] then false
    else if a == [] then true
    else if a[0] != b[0] then a[0] < b[0]
    else Less(a[1..], b[1..])
  }

  lemma {:induction false} LessIrreflexive(a: Bytes)
    ensures !Less(a, a)
  {
    if a != [] {
      LessIrreflexive(a[1..]);
    }
  }

  lemma {:induction false} LessTransitive(a: Bytes, b: Bytes, c: Bytes)
    requires Less(a, b) && Less(b, c)
    ensures Less(a, c)
  {
    if a != [] && a[0] == b[0] == c[0] {
      LessTransitive(a[1..], b[1..], c[1..]);
    }
  }

  lemma {:induction false} LessTotal(a: Bytes, b: Bytes)
    ensures Less(a, b) || a == b || Less(b, a)
  {
    if a != [] && b != [] && a[0] == b[0] {
      LessTotal(a[1..], b[1..]);
      assert a == [a[0]] + a[1..] && b == [b[0]] + b[1..];
    }
  }

  lemma DigitOrder(a: nat, b: nat, p: nat)
    requires p > 0
    ensures a < b <==> a / p < b / p || (a / p == b / p && a % p < b % p)
    ensures a == b <==> a / p == b / p && a % p == b % p
  {
    Quotient(a, p);
    Quotient(b, p);
    if a / p < b / p {
      Multiples(a / p, b / p, p);
    } else if b / p < a / p {
      Multiples(b / p, a / p, p);
    }
  }

  lemma LessHead(x: Byte, s: Bytes, y: Byte, t: Bytes)
    ensures Less([x] + s, [y] + t) <==> x < y || (x == y && Less(s, t))
  {
    assert ([x] + s)[1..] == s && ([y] + t)[1..] == t;
  }

  lemma FirstDigit(w: nat, n: nat, s: Bytes)
    requires w > 0 && n < Power(w)
    ensures var p := Power(w - 1);
            0 <= n / p < 256 && 0 <= n % p < p && Enc(w, n) + s == [n / p] + (Enc(w - 1, n % p) + s)
  {
    Quotient(n, Power(w - 1));
  }

  /** Keys compare as their ids, and as their names under one id. */
  lemma {:induction false} KeyOrder(w: nat, a: nat, s: Bytes, b: nat, t: Bytes)
    requires a < Power(w) && b < Power(w)
    ensures Less(Enc(w, a) + s, Enc(w, b) + t) <==> a < b || (a == b && Less(s, t))
    decreases w
  {
    if w == 0 {
      assert Enc(w, a) + s == s && Enc(w, b) + t == t;
    } else {
      hide Less, Enc;
      var p := Power(w - 1);
      Quotient(a, p);
      Quotient(b, p);
      DigitOrder(a, b, p);
      KeyOrder(w - 1, a % p, s, b % p, t);
      LessHead(a / p, Enc(w - 1, a % p) + s, b / p, Enc(w - 1, b % p) + t);
      FirstDigit(w, a, s);
      FirstDigit(w, b, t);
    }
  }
}

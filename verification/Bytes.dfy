/**
 Bytes, fixed-width integers and length frames: what the preimages, the blobs and the registry's
 addressing are made of.  A fixed array such as `[u8; 32]` is the number it spells big-endian.
 */
module Bytes {
  import opened Collections
  import opened Orders

  type byte = n: nat | n < 256

  // ---- division ----

  lemma MulMonotone(a: int, b: int, c: nat)
    requires a <= b
    ensures a * c <= b * c
  {
  }

  lemma DivUnique(n: nat, d: nat, q: nat, r: nat)
    requires d > 0 && r < d && n == q * d + r
    ensures n / d == q && n % d == r
  {
    var q' := n / d;
    assert n == q' * d + n % d;
    if q' < q {
      MulMonotone(q' + 1, q, d);
    } else if q < q' {
      MulMonotone(q + 1, q', d);
    }
  }

  lemma Distribute(x: int, y: int, z: int)
    ensures (x + y) * z == x * z + y * z
  {
  }

  lemma Associate(x: int, y: int, z: int)
    ensures x * y * z == x * (z * y)
  {
  }

  lemma TwoDigits(a: nat, b: nat, ab: nat, q: nat, r: nat, q2: nat, r2: nat)
    requires r < a && r2 < b && ab == a * b && q == q2 * b + r2
    ensures q * a + r == q2 * ab + (r2 * a + r)
    ensures r2 * a + r < ab
  {
    Distribute(q2 * b, r2, a);
    Associate(q2, b, a);
    MulMonotone(r2 + 1, b, a);
    Distribute(r2, 1, a);
  }

  lemma DivisionIs(n: nat, d: nat)
    requires d > 0
    ensures n == n / d * d + n % d
  {
  }

  // Dividing twice is dividing by the product `ab`, remainder for remainder.
  lemma DivDiv(n: nat, a: nat, b: nat, ab: nat)
    requires a > 0 && b > 0 && ab > 0 && ab == a * b
    ensures n / a / b == n / ab
    ensures n / a % b == n % ab / a
  {
    var q, r := n / a, n % a;
    var q2, r2 := q / b, q % b;
    DivisionIs(n, a);
    DivisionIs(q, b);
    TwoDigits(a, b, ab, q, r, q2, r2);
    DivUnique(n, ab, q2, r2 * a + r);
    DivUnique(r2 * a + r, a, r2, r);
  }

  lemma DivMonotone(m: nat, n: nat, d: nat)
    requires d > 0 && m <= n
    ensures m / d <= n / d
  {
    if m / d > n / d {
      MulMonotone(n / d + 1, m / d, d);
    }
  }

  function Pow(b: nat, e: nat): (p: nat)
    ensures b > 0 ==> p > 0
  {
    if e == 0 then 1 else b * Pow(b, e - 1)
  }

  lemma {:induction false} PowAdd(b: nat, d: nat, e: nat)
    ensures Pow(b, d + e) == Pow(b, d) * Pow(b, e)
  {
    if d > 0 {
      PowAdd(b, d - 1, e);
    }
  }

  lemma {:induction false} Pow256(e: nat)
    ensures Pow(2, 8 * e) == Pow(256, e)
  {
    if e > 0 {
      PowAdd(2, 8, 8 * (e - 1));
      assert Pow(2, 8) == 256 by {
        assert Pow(2, 4) == 16;
        PowAdd(2, 4, 4);
      }
      Pow256(e - 1);
    }
  }

  // ---- integers as bytes ----

  function Le(n: nat, k: nat): (s: seq<byte>)
    ensures |s| == k
  {
    if k == 0 then [] else [n % 256] + Le(n / 256, k - 1)
  }

  function LeValue(s: seq<byte>): nat {
    if s == [] then 0 else s[0] + 256 * LeValue(s[1..])
  }

  lemma {:induction false} LeRoundTrip(n: nat, k: nat)
    requires n < Pow(256, k)
    ensures LeValue(Le(n, k)) == n
  {
    if k > 0 {
      LeRoundTrip(n / 256, k - 1);
    }
  }

  lemma LeInjective(m: nat, n: nat, k: nat)
    requires m < Pow(256, k) && n < Pow(256, k) && Le(m, k) == Le(n, k)
    ensures m == n
  {
    LeRoundTrip(m, k);
    LeRoundTrip(n, k);
  }

  function Be(n: nat, k: nat): (s: seq<byte>)
    ensures |s| == k
  {
    if k == 0 then [] else Be(n / 256, k - 1) + [n % 256]
  }

  function BeValue(s: seq<byte>): nat {
    if s == [] then 0 else BeValue(s[..|s| - 1]) * 256 + s[|s| - 1]
  }

  lemma {:induction false} BeRoundTrip(n: nat, k: nat)
    requires n < Pow(256, k)
    ensures BeValue(Be(n, k)) == n
  {
    if k > 0 {
      BeRoundTrip(n / 256, k - 1);
    }
  }

  lemma {:induction false} BeBound(s: seq<byte>)
    ensures BeValue(s) < Pow(256, |s|)
  {
    if s != [] {
      BeBound(s[..|s| - 1]);
    }
  }

  lemma BeInjective(m: nat, n: nat, k: nat)
    requires m < Pow(256, k) && n < Pow(256, k) && Be(m, k) == Be(n, k)
    ensures m == n
  {
    BeRoundTrip(m, k);
    BeRoundTrip(n, k);
  }

  lemma {:induction false} BeConcat(a: seq<byte>, b: seq<byte>)
    ensures BeValue(a + b) == BeValue(a) * Pow(256, |b|) + BeValue(b)
  {
    if b == [] {
      assert a + b == a;
    } else {
      var c, x := b[..|b| - 1], b[|b| - 1];
      assert (a + b)[..|a + b| - 1] == a + c;
      BeConcat(a, c);
      assert Pow(256, |b|) == 256 * Pow(256, |c|);
    }
  }

  // Byte i of a little-endian integer counts 256^i, of a big-endian one 256^(k-1-i).
  lemma {:induction false} LeAt(n: nat, k: nat, i: nat)
    requires i < k
    ensures Le(n, k)[i] == n / Pow(256, i) % 256
  {
    if i > 0 {
      LeAt(n / 256, k - 1, i - 1);
      DivDiv(n, 256, Pow(256, i - 1), Pow(256, i));
    }
  }

  lemma {:induction false} BeAt(n: nat, k: nat, i: nat)
    requires i < k
    ensures Be(n, k)[i] == n / Pow(256, k - 1 - i) % 256
  {
    if i < k - 1 {
      BeAt(n / 256, k - 1, i);
      DivDiv(n, 256, Pow(256, k - 2 - i), Pow(256, k - 1 - i));
    }
  }

  // ---- self-delimiting pieces ----

  const FOUR_GIB: nat := 0x1_0000_0000

  lemma FourGib()
    ensures Pow(256, 2) == 0x1_0000 && Pow(256, 4) == FOUR_GIB && Pow(256, 8) == 0x1_0000_0000_0000_0000
  {
    assert Pow(256, 2) == 0x1_0000;
    PowAdd(256, 2, 2);
    PowAdd(256, 4, 4);
  }

  // `u32 LE length, then the bytes`.  The length is truncated to 32 bits, as the cast is.
  function Frame(s: seq<byte>): (f: seq<byte>)
    ensures |f| == 4 + |s|
  {
    Le(|s| % 0x1_0000_0000, 4) + s
  }

  // Equal concatenations with equally long heads agree head by head.
  lemma Split(p: seq<byte>, x: seq<byte>, q: seq<byte>, y: seq<byte>)
    requires p + x == q + y && |p| == |q|
    ensures p == q && x == y
  {
    assert p == (p + x)[..|p|] && q == (q + y)[..|p|];
    assert x == (p + x)[|p|..] && y == (q + y)[|p|..];
  }

  lemma SplitLe(m: nat, x: seq<byte>, n: nat, y: seq<byte>, k: nat)
    requires m < Pow(256, k) && n < Pow(256, k) && Le(m, k) + x == Le(n, k) + y
    ensures m == n && x == y
  {
    Split(Le(m, k), x, Le(n, k), y);
    LeInjective(m, n, k);
  }

  lemma FrameAs(u: seq<byte>, n: nat)
    requires n == |u| % 0x1_0000_0000
    ensures Frame(u) == Le(n, 4) + u
  {
  }

  lemma SplitFrame(u: seq<byte>, x: seq<byte>, v: seq<byte>, y: seq<byte>)
    requires |u| < FOUR_GIB && |v| < FOUR_GIB && Frame(u) + x == Frame(v) + y
    ensures u == v && x == y
  {
    FrameAs(u, |u|);
    FrameAs(v, |v|);
    FourGib();
    SplitHeads(|u|, Le(|u|, 4), u, x, |v|, Le(|v|, 4), v, y);
  }

  lemma SplitHeads(m: nat, p: seq<byte>, u: seq<byte>, x: seq<byte>, n: nat, q: seq<byte>, v: seq<byte>, y: seq<byte>)
    requires m == |u| < Pow(256, 4) && n == |v| < Pow(256, 4) && p == Le(m, 4) && q == Le(n, 4)
    requires p + u + x == q + v + y
    ensures u == v && x == y
  {
    Regroup(p, u, x);
    Regroup(q, v, y);
    Split(p, u + x, q, v + y);
    LeInjective(m, n, 4);
    Split(u, x, v, y);
  }

  lemma SplitBe(m: nat, x: seq<byte>, n: nat, y: seq<byte>, k: nat)
    requires m < Pow(256, k) && n < Pow(256, k) && Be(m, k) + x == Be(n, k) + y
    ensures m == n && x == y
  {
    Split(Be(m, k), x, Be(n, k), y);
    BeInjective(m, n, k);
  }

  lemma HeadDecides(x: nat, y: nat, p: nat, s: nat, t: nat)
    requires s < p && t < p
    ensures x < y ==> x * p + s < y * p + t
    ensures x == y ==> (x * p + s < y * p + t <==> s < t)
  {
    if x < y {
      MulMonotone(x + 1, y, p);
      Distribute(x, 1, p);
    }
  }

  // Byte strings of one length are in the order of the numbers they spell.
  lemma {:induction false} LexIsNumeric(a: seq<byte>, b: seq<byte>)
    requires |a| == |b|
    ensures TextLess(a, b) <==> BeValue(a) < BeValue(b)
  {
    if a != [] {
      LeadingByte(a);
      LeadingByte(b);
      LexIsNumeric(a[1..], b[1..]);
      var p := Pow(256, |a| - 1);
      HeadDecides(a[0], b[0], p, BeValue(a[1..]), BeValue(b[1..]));
      HeadDecides(b[0], a[0], p, BeValue(b[1..]), BeValue(a[1..]));
    }
  }

  lemma LeadingByte(a: seq<byte>)
    requires a != []
    ensures BeValue(a) == a[0] * Pow(256, |a| - 1) + BeValue(a[1..])
    ensures BeValue(a[1..]) < Pow(256, |a| - 1)
  {
    assert a == [a[0]] + a[1..];
    BeConcat([a[0]], a[1..]);
    assert BeValue([a[0]]) == a[0];
    BeBound(a[1..]);
  }
}

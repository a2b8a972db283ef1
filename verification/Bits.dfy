/** Bit sequences. Element 0 is the least significant bit of a word, and the earliest bit of a stream. */
module Bits {
  type byte = x: int | 0 <= x < 256
  type bits = seq<bool>

  function Zeros(n: nat): (s: bits)
    ensures |s| == n && forall i :: 0 <= i < n ==> !s[i]
  {
    seq(n, i => false)
  }

  function Xor(a: bits, b: bits): (r: bits)
    requires |a| == |b|
    ensures |r| == |a| && forall i :: 0 <= i < |r| ==> r[i] == (a[i] != b[i])
  {
    seq(|a|, i requires 0 <= i < |a| => a[i] != b[i])
  }

  function Not(a: bits): (r: bits)
    ensures |r| == |a| && forall i :: 0 <= i < |r| ==> r[i] == !a[i]
  {
    seq(|a|, i requires 0 <= i < |a| => !a[i])
  }

  function Pow2(n: nat): (r: nat)
    ensures r >= 1
  {
    if n == 0 then 1 else 2 * Pow2(n - 1)
  }

  lemma Powers()
    ensures Pow2(0) == 1 && Pow2(1) == 2 && Pow2(2) == 4 && Pow2(3) == 8 && Pow2(4) == 16 && Pow2(5) == 32 && Pow2(6) == 64 && Pow2(7) == 128
    ensures Pow2(8) == 256 && Pow2(9) == 512 && Pow2(10) == 1024 && Pow2(11) == 2048 && Pow2(12) == 4096 && Pow2(13) == 8192
    ensures Pow2(14) == 16384 && Pow2(15) == 32768
  {
  }

  /** The w least significant bits of n. */
  function BitsOf(n: nat, w: nat): (s: bits)
    ensures |s| == w
  {
    if w == 0 then [] else [n % 2 == 1] + BitsOf(n / 2, w - 1)
  }

  /** The number whose binary digits, least significant first, are s. */
  function NatOf(s: bits): nat {
    if |s| == 0 then 0 else (if s[0] then 1 else 0) + 2 * NatOf(s[1..])
  }

  /** Bytes as a bit stream, least significant bit of each byte first. */
  function Stream(data: seq<byte>): (s: bits)
    ensures |s| == 8 * |data|
  {
    if |data| == 0 then [] else BitsOf(data[0], 8) + Stream(data[1..])
  }

  lemma {:induction false} NatOfBitsOf(n: nat, w: nat)
    ensures NatOf(BitsOf(n, w)) == n % Pow2(w)
  {
    if w > 0 {
      NatOfBitsOf(n / 2, w - 1);
      assert BitsOf(n, w)[1..] == BitsOf(n / 2, w - 1);
      ModSplit(n, Pow2(w - 1));
    }
  }

  lemma {:induction false} BitsOfNatOf(s: bits)
    ensures BitsOf(NatOf(s), |s|) == s
  {
    if |s| > 0 {
      BitsOfNatOf(s[1..]);
    }
  }

  lemma {:induction false} NatOfBound(s: bits)
    ensures NatOf(s) < Pow2(|s|)
  {
    if |s| > 0 {
      NatOfBound(s[1..]);
    }
  }

  lemma {:induction false} Pow2Add(a: nat, b: nat)
    ensures Pow2(a + b) == Pow2(a) * Pow2(b)
  {
    if a > 0 {
      Pow2Add(a - 1, b);
    }
  }

  lemma ModSplit(n: nat, m: nat)
    requires m >= 1
    ensures n % (2 * m) == n % 2 + 2 * ((n / 2) % m)
  {
    var q, r := (n / 2) / m, (n / 2) % m;
    assert n / 2 == q * m + r;
    assert n == 2 * (q * m + r) + n % 2;
    assert n == q * (2 * m) + (2 * r + n % 2);
    assert 2 * r + n % 2 < 2 * m;
    DivModUnique(n, 2 * m, q, 2 * r + n % 2);
  }

  lemma DivModUnique(n: int, m: int, q: int, r: int)
    requires m >= 1 && 0 <= r < m && n == q * m + r
    ensures n / m == q && n % m == r
  {
    var q', r' := n / m, n % m;
    assert n == q' * m + r';
    assert (q' - q) * m == r - r';
    if q' > q {
      MulMono(q' - q, m);
    } else if q' < q {
      MulMono(q - q', m);
    }
  }

  lemma MulMono(k: int, m: int)
    requires k >= 1 && m >= 1
    ensures k * m >= m && (-k) * m <= -m
  {
  }

  lemma {:induction false} StreamConcat(a: seq<byte>, b: seq<byte>)
    ensures Stream(a + b) == Stream(a) + Stream(b)
  {
    if |a| == 0 {
      assert a + b == b;
    } else {
      assert (a + b)[1..] == a[1..] + b;
      StreamConcat(a[1..], b);
    }
  }

  /** The w most significant-first digits of n. */
  function MsbOf(n: nat, w: nat): (s: bits)
    ensures |s| == w
  {
    if w == 0 then [] else MsbOf(n / 2, w - 1) + [n % 2 == 1]
  }

  /** The number whose digits, most significant first, are s. */
  function MsbValue(s: bits): nat {
    if |s| == 0 then 0 else 2 * MsbValue(s[..|s| - 1]) + (if s[|s| - 1] then 1 else 0)
  }

  lemma {:induction false} MsbValueOf(n: nat, w: nat)
    requires n < Pow2(w)
    ensures MsbValue(MsbOf(n, w)) == n
  {
    if w > 0 {
      MsbValueOf(n / 2, w - 1);
      assert MsbOf(n, w)[..w - 1] == MsbOf(n / 2, w - 1);
    }
  }

  lemma {:induction false} MsbOfValue(s: bits)
    ensures MsbOf(MsbValue(s), |s|) == s
    ensures MsbValue(s) < Pow2(|s|)
  {
    if |s| > 0 {
      MsbOfValue(s[..|s| - 1]);
    }
  }

  /** Dropping trailing digits divides. */
  lemma {:induction false} MsbPrefix(s: bits, k: nat)
    requires k <= |s|
    ensures MsbValue(s[..k]) * Pow2(|s| - k) <= MsbValue(s) < (MsbValue(s[..k]) + 1) * Pow2(|s| - k)
  {
    if k == |s| {
      assert s[..k] == s;
    } else {
      var t := s[..|s| - 1];
      MsbPrefix(t, k);
      assert t[..k] == s[..k];
      Double(MsbValue(s[..k]), Pow2(|s| - k - 1));
    }
  }

  lemma Double(a: nat, b: nat)
    ensures a * (2 * b) == 2 * (a * b)
    ensures (a + 1) * (2 * b) == 2 * (a * b) + 2 * b == 2 * ((a + 1) * b)
  {
  }

  lemma {:induction false} NatOfConcat(s: bits, t: bits)
    ensures NatOf(s + t) == NatOf(s) + Pow2(|s|) * NatOf(t)
  {
    if |s| == 0 {
      assert s + t == t;
    } else {
      var a, m, x := NatOf(s[1..]), Pow2(|s| - 1), NatOf(t);
      assert (s + t)[1..] == s[1..] + t;
      NatOfConcat(s[1..], t);
      assert Pow2(|s|) == 2 * m;
      assert NatOf(s) == (if s[0] then 1 else 0) + 2 * a;
      assert NatOf(s + t) == (if s[0] then 1 else 0) + 2 * (a + m * x);
      hide NatOf, Pow2;
      Double(x, m);
    }
  }
}

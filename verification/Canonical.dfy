/** Canonical prefix codes given by their code lengths (section 3.2.2 of RFC 1951). */
module Canonical {
  import opened Bits

  /** Code lengths, 0 meaning that the symbol has no code. */
  type lengths = s: seq<nat> | forall i :: 0 <= i < |s| ==> s[i] <= 15

  function Count(lens: seq<nat>, l: nat): nat {
    if |lens| == 0 then 0
    else Count(lens[..|lens| - 1], l) + (if lens[|lens| - 1] == l then 1 else 0)
  }

  /** The RFC's next_code after step 2: the smallest code of length l. */
  function NextCode(lens: seq<nat>, l: nat): nat {
    if l <= 1 then 0 else 2 * (NextCode(lens, l - 1) + Count(lens, l - 1))
  }

  /** The RFC's step 3: codes of one length are consecutive, in symbol order. */
  function Code(lens: lengths, n: nat): nat
    requires n < |lens|
  {
    NextCode(lens, lens[n]) + Count(lens[..n], lens[n])
  }

  /** The codeword in stream order: Huffman codes are packed most significant bit first. */
  function Codeword(lens: lengths, n: nat): (c: bits)
    requires n < |lens|
    ensures |c| == lens[n]
  {
    MsbOf(Code(lens, n), lens[n])
  }

  /** In units of 2^-16: the share of the code space used by lengths below l. */
  function Start(lens: seq<nat>, l: nat): nat
    requires l <= 16
  {
    if l <= 1 then 0 else Start(lens, l - 1) + Count(lens, l - 1) * Pow2(16 - (l - 1))
  }

  const FULL := 0x10000

  function Kraft(lens: seq<nat>): nat {
    Start(lens, 16)
  }

  /** The codeword of n, padded with zeros to 16 digits. */
  function Left(lens: lengths, n: nat): nat
    requires n < |lens| && lens[n] > 0
  {
    Start(lens, lens[n]) + Count(lens[..n], lens[n]) * Pow2(16 - lens[n])
  }

  lemma {:induction false} CountSplit(lens: seq<nat>, n: nat, l: nat)
    requires n < |lens|
    ensures Count(lens[..n], l) + (if lens[n] == l then 1 else 0) <= Count(lens, l)
  {
    if n == |lens| - 1 {
    } else {
      var t := lens[..|lens| - 1];
      CountSplit(t, n, l);
      assert t[..n] == lens[..n];
    }
  }

  lemma MulAdd(a: int, b: int, p: int)
    ensures (a + b) * p == a * p + b * p
  {
  }

  lemma MulLe(a: int, b: int, p: nat)
    requires a <= b
    ensures a * p <= b * p
  {
  }

  lemma StartOne(lens: seq<nat>)
    ensures Start(lens, 0) == Start(lens, 1) == 0 == NextCode(lens, 1)
  {
  }

  lemma StartStep(lens: seq<nat>, l: nat)
    requires 1 <= l <= 15
    ensures Start(lens, l + 1) == Start(lens, l) + Count(lens, l) * Pow2(16 - l)
  {
  }

  lemma NextCodeStep(lens: seq<nat>, l: nat)
    requires 2 <= l <= 16
    ensures NextCode(lens, l) == 2 * (NextCode(lens, l - 1) + Count(lens, l - 1))
    ensures Pow2(16 - (l - 1)) == 2 * Pow2(16 - l)
  {
  }

  lemma {:induction false} NextCodeStart(lens: seq<nat>, l: nat)
    requires 1 <= l <= 16
    ensures NextCode(lens, l) * Pow2(16 - l) == Start(lens, l)
  {
    hide NextCode, Start, Count, Pow2;
    if l > 1 {
      NextCodeStart(lens, l - 1);
      StartStep(lens, l - 1);
      NextCodeStep(lens, l);
      var p, a, b := Pow2(16 - l), NextCode(lens, l - 1), Count(lens, l - 1);
      Double(a, p);
      Double(b, p);
      MulAdd(2 * a, 2 * b, p);
    } else {
      StartOne(lens);
    }
  }

  /** The RFC's integer code, shifted to the top of 16 bits. */
  lemma LeftCode(lens: lengths, n: nat)
    requires n < |lens| && lens[n] > 0
    ensures Left(lens, n) == Code(lens, n) * Pow2(16 - lens[n])
  {
    hide NextCode, Start, Count, Pow2;
    NextCodeStart(lens, lens[n]);
    MulAdd(NextCode(lens, lens[n]), Count(lens[..n], lens[n]), Pow2(16 - lens[n]));
  }

  lemma {:induction false} StartMono(lens: seq<nat>, k: nat, l: nat)
    requires k <= l <= 16
    ensures Start(lens, k) <= Start(lens, l)
  {
    hide Start, Count, Pow2;
    if k < l {
      StartMono(lens, k, l - 1);
      if l == 1 {
        StartOne(lens);
      } else {
        StartStep(lens, l - 1);
        MulLe(0, Count(lens, l - 1), Pow2(16 - (l - 1)));
      }
    }
  }

  lemma Interval(lens: lengths, n: nat)
    requires n < |lens| && lens[n] > 0
    ensures Start(lens, lens[n]) <= Left(lens, n)
    ensures Left(lens, n) + Pow2(16 - lens[n]) <= Start(lens, lens[n] + 1)
  {
    hide Start, Count, Pow2;
    var l := lens[n];
    var p, a, b := Pow2(16 - l), Count(lens[..n], l), Count(lens, l);
    CountSplit(lens, n, l);
    StartStep(lens, l);
    MulLe(a + 1, b, p);
    MulAdd(a, 1, p);
    MulLe(0, a, p);
  }

  /** Distinct symbols own disjoint intervals of the code space. */
  lemma Disjoint(lens: lengths, m: nat, n: nat)
    requires m < |lens| && n < |lens| && lens[m] > 0 && lens[n] > 0 && m != n
    ensures Left(lens, m) + Pow2(16 - lens[m]) <= Left(lens, n) || Left(lens, n) + Pow2(16 - lens[n]) <= Left(lens, m)
  {
    hide Start, Count, Pow2, Left;
    if lens[m] < lens[n] {
      Interval(lens, m);
      Interval(lens, n);
      StartMono(lens, lens[m] + 1, lens[n]);
    } else if lens[n] < lens[m] {
      Interval(lens, n);
      Interval(lens, m);
      StartMono(lens, lens[n] + 1, lens[m]);
    } else if m < n {
      SameLength(lens, m, n);
    } else {
      SameLength(lens, n, m);
    }
  }

  lemma SameLength(lens: lengths, m: nat, n: nat)
    requires m < n < |lens| && lens[m] == lens[n] > 0
    ensures Left(lens, m) + Pow2(16 - lens[m]) <= Left(lens, n)
  {
    hide Start, Count, Pow2;
    var l := lens[m];
    CountSplit(lens[..n], m, l);
    assert lens[..n][..m] == lens[..m];
    var p, a, b := Pow2(16 - l), Count(lens[..m], l), Count(lens[..n], l);
    MulLe(a + 1, b, p);
    MulAdd(a, 1, p);
  }

  lemma CodeBound(lens: lengths, n: nat)
    requires n < |lens| && lens[n] > 0 && Kraft(lens) <= FULL
    ensures Code(lens, n) < Pow2(lens[n])
    ensures Left(lens, n) + Pow2(16 - lens[n]) <= FULL
  {
    hide Start, Count, Pow2, Left, Code;
    var l := lens[n];
    var p, c := Pow2(16 - l), Code(lens, n);
    Interval(lens, n);
    StartMono(lens, l + 1, 16);
    LeftCode(lens, n);
    Pow2Add(l, 16 - l);
    Pow2Sixteen();
    MulAdd(c, 1, p);
    if c >= Pow2(l) {
      MulLe(Pow2(l) + 1, c + 1, p);
      MulAdd(Pow2(l), 1, p);
    }
  }

  lemma Pow2Sixteen()
    ensures Pow2(16) == FULL
  {
    assert Pow2(8) == 256;
    Pow2Add(8, 8);
  }

  /** a is a prefix of b. */
  predicate Prefix(a: bits, b: bits) {
    |a| <= |b| && a == b[..|a|]
  }

  /** A stream starts with a codeword exactly when its first 16 digits lie in the symbol's interval. */
  lemma PrefixInterval(lens: lengths, n: nat, w: bits)
    requires n < |lens| && lens[n] > 0 && Kraft(lens) <= FULL && |w| == 16
    ensures Prefix(Codeword(lens, n), w) <==> Left(lens, n) <= MsbValue(w) < Left(lens, n) + Pow2(16 - lens[n])
  {
    hide Start, Count, Pow2, Left, Code;
    var l := lens[n];
    var p, c, v := Pow2(16 - l), Code(lens, n), MsbValue(w[..l]);
    CodeBound(lens, n);
    LeftCode(lens, n);
    MsbPrefix(w, l);
    MsbValueOf(c, l);
    MsbOfValue(w[..l]);
    hide MsbOf, MsbValue;
    MulAdd(v, 1, p);
    MulAdd(c, 1, p);
    if v < c {
      MulLe(v + 1, c, p);
    } else if c < v {
      MulLe(c + 1, v, p);
    }
  }

  /** No codeword is a prefix of another. */
  lemma PrefixFree(lens: lengths, m: nat, n: nat)
    requires m < |lens| && n < |lens| && lens[m] > 0 && lens[n] > 0 && m != n && Kraft(lens) <= FULL
    ensures !Prefix(Codeword(lens, m), Codeword(lens, n))
  {
    if Prefix(Codeword(lens, m), Codeword(lens, n)) {
      var w := Codeword(lens, n) + seq(16 - lens[n], i => false);
      assert w[..lens[m]] == Codeword(lens, n)[..lens[m]];
      PrefixInterval(lens, m, w);
      PrefixInterval(lens, n, w);
      Disjoint(lens, m, n);
    }
  }

  /** The k-th symbol of length l. */
  lemma {:induction false} Nth(lens: seq<nat>, l: nat, k: nat) returns (n: nat)
    requires k < Count(lens, l)
    ensures n < |lens| && lens[n] == l && Count(lens[..n], l) == k
  {
    var t := lens[..|lens| - 1];
    if k < Count(t, l) {
      n := Nth(t, l, k);
      assert t[..n] == lens[..n];
    } else {
      n := |lens| - 1;
    }
  }

  /** Every point below the Kraft sum belongs to some symbol. */
  lemma {:induction false} Owner(lens: lengths, l: nat, v: nat) returns (n: nat)
    requires 1 <= l <= 16 && v < Start(lens, l)
    ensures n < |lens| && 0 < lens[n] < l
    ensures Left(lens, n) <= v < Left(lens, n) + Pow2(16 - lens[n])
  {
    hide Start, Count, Pow2;
    if l == 1 {
      StartOne(lens);
    } else if v < Start(lens, l - 1) {
      n := Owner(lens, l - 1, v);
    } else {
      StartStep(lens, l - 1);
      var p, r := Pow2(16 - (l - 1)), v - Start(lens, l - 1);
      DivBound(r, p, Count(lens, l - 1));
      n := Nth(lens, l - 1, r / p);
    }
  }

  lemma DivBound(r: nat, p: nat, b: nat)
    requires p >= 1 && r < b * p
    ensures r / p < b
    ensures (r / p) * p <= r < (r / p) * p + p
  {
    var k := r / p;
    assert r == k * p + r % p;
    if k >= b {
      MulLe(b, k, p);
    }
  }

  /** In a complete code every stream of 16 digits starts with a codeword. */
  lemma Covered(lens: lengths, w: bits) returns (n: nat)
    requires Kraft(lens) == FULL && |w| == 16
    ensures n < |lens| && lens[n] > 0 && Prefix(Codeword(lens, n), w)
  {
    MsbOfValue(w);
    Pow2Sixteen();
    n := Owner(lens, 16, MsbValue(w));
    PrefixInterval(lens, n, w);
  }
}

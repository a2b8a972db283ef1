/** RFC 1951 in its own terms: laws of the tables, of the canonical codes and of copying, none of them stated with the
    functions that they are about. */
module Rfc1951 {
  import opened Bits
  import opened Canonical
  import opened DeflateSpec

  // ----- the tables of section 3.2.5 -----

  /** From 265 on, four symbols share each number of extra bits, and each begins where the one before it ends. */
  lemma LengthTable(n: nat)
    requires 257 <= n <= 285
    ensures LengthExtra(n) == if n < 265 || n == 285 then 0 else (n - 261) / 4
    ensures LengthBase(n) ==
      if n < 265 then n - 254
      else if n == 285 then 258
      else 3 + Pow2((n - 261) / 4) * (4 + (n - 265) % 4)
  {
    Powers();
    hide Pow2;
  }

  /** From 4 on, two symbols share each number of extra bits. */
  lemma DistanceTable(k: nat)
    requires k < 30
    ensures DistanceExtra(k) == if k < 4 then 0 else (k - 2) / 2
    ensures DistanceBase(k) == if k < 4 then k + 1 else 1 + Pow2((k - 2) / 2) * (2 + k % 2)
  {
    Powers();
    hide Pow2;
  }

  /** The order of section 3.2.7: the repetitions and 0, then outwards from 8. */
  lemma OrderTable(k: nat)
    requires k < 19
    ensures Order(k) ==
      if k < 3 then 16 + k
      else if k == 3 then 0
      else if k % 2 == 0 then 8 + (k - 4) / 2
      else 8 - (k - 3) / 2
  {
  }

  // ----- the rules of section 3.2.2 -----

  /** Codes of one length are consecutive, in the order of the symbols. */
  lemma Consecutive(lens: lengths, m: nat, n: nat)
    requires m < n < |lens| && lens[m] == lens[n] > 0 && Kraft(lens) <= FULL
    requires forall i :: m < i < n ==> lens[i] != lens[m]
    ensures MsbValue(Codeword(lens, n)) == MsbValue(Codeword(lens, m)) + 1
  {
    var l := lens[m];
    CountNone(lens, m + 1, n, l);
    assert lens[..m + 1][..m] == lens[..m];
    assert Count(lens[..m + 1], l) == Count(lens[..m], l) + 1;
    CodeValue(lens, m);
    CodeValue(lens, n);
    hide Count, NextCode, Kraft, MsbOf, MsbValue;
  }

  lemma {:induction false} CountNone(lens: seq<nat>, a: nat, b: nat, l: nat)
    requires a <= b <= |lens|
    requires forall i :: a <= i < b ==> lens[i] != l
    ensures Count(lens[..a], l) == Count(lens[..b], l)
  {
    if a < b {
      CountNone(lens, a, b - 1, l);
      assert lens[..b][..b - 1] == lens[..b - 1];
    }
  }

  /** Shorter codes come before longer ones. */
  lemma ShorterFirst(lens: lengths, m: nat, n: nat)
    requires m < |lens| && n < |lens| && 0 < lens[m] < lens[n] && Kraft(lens) <= FULL
    ensures MsbValue(Codeword(lens, m)) < MsbValue(Codeword(lens, n)[..lens[m]])
  {
    hide *;
    var l, k := lens[m], lens[n];
    CodeValue(lens, m);
    CodeValue(lens, n);
    Ordered(lens, m, n);
    MsbPrefix(Codeword(lens, n), l);
    Pow2Add(k - l, 16 - k);
    Before(Code(lens, m), Code(lens, n), MsbValue(Codeword(lens, n)[..l]), Pow2(16 - l), Pow2(16 - k), Pow2(k - l));
  }

  lemma CodeValue(lens: lengths, n: nat)
    requires n < |lens| && lens[n] > 0 && Kraft(lens) <= FULL
    ensures MsbValue(Codeword(lens, n)) == Code(lens, n)
  {
    hide Kraft, Code, MsbOf, MsbValue;
    CodeBound(lens, n);
    MsbValueOf(Code(lens, n), lens[n]);
  }

  lemma Ordered(lens: lengths, m: nat, n: nat)
    requires m < |lens| && n < |lens| && 0 < lens[m] < lens[n]
    ensures Code(lens, m) * Pow2(16 - lens[m]) + Pow2(16 - lens[m]) <= Code(lens, n) * Pow2(16 - lens[n])
  {
    hide *;
    Interval(lens, m);
    Interval(lens, n);
    StartMono(lens, lens[m] + 1, lens[n]);
    LeftCode(lens, m);
    LeftCode(lens, n);
  }

  lemma Before(c: nat, d: nat, v: nat, p: nat, q: nat, r: nat)
    requires p == r * q && q > 0 && r > 0
    requires c * p + p <= d * q && d < (v + 1) * r
    ensures c < v
  {
    if c >= v {
      MulLe(d + 1, (v + 1) * r, q);
      MulAdd(d, 1, q);
      assert (v + 1) * r * q == (v + 1) * p;
      MulLe(v + 1, c + 1, p);
      MulAdd(c, 1, p);
    }
  }

  /** The first symbol of the shortest length has a code of zeros. */
  lemma FirstZero(lens: lengths, n: nat)
    requires n < |lens| && lens[n] > 0
    requires forall i :: 0 <= i < |lens| && lens[i] > 0 ==> lens[n] < lens[i] || (lens[n] == lens[i] && n <= i)
    ensures Codeword(lens, n) == Zeros(lens[n])
  {
    var l := lens[n];
    CountNone(lens, 0, n, l);
    assert lens[..0] == [];
    assert Count([], l) == 0;
    forall k | 1 <= k < l
      ensures Count(lens, k) == 0
    {
      CountNone(lens, 0, |lens|, k);
      assert lens[..|lens|] == lens;
    }
    NextNone(lens, l);
    hide Count, NextCode, MsbOf;
    ZeroDigits(l);
  }

  lemma {:induction false} NextNone(lens: seq<nat>, l: nat)
    requires forall k :: 1 <= k < l ==> Count(lens, k) == 0
    ensures NextCode(lens, l) == 0
  {
    if l > 1 {
      NextNone(lens, l - 1);
    }
  }

  lemma {:induction false} ZeroDigits(w: nat)
    ensures MsbOf(0, w) == Zeros(w)
  {
    if w > 0 {
      ZeroDigits(w - 1);
    }
  }

  // ----- which codes can be used -----

  /** The share of the code space that the codewords take, added up symbol by symbol. */
  function Shares(lens: seq<nat>): nat {
    if |lens| == 0 then 0
    else
      var l := lens[|lens| - 1];
      Shares(lens[..|lens| - 1]) + if 1 <= l <= 15 then Pow2(16 - l) else 0
  }

  function SharesUpTo(lens: seq<nat>, k: nat): nat {
    if |lens| == 0 then 0
    else
      var l := lens[|lens| - 1];
      SharesUpTo(lens[..|lens| - 1], k) + if 1 <= l < k && l <= 15 then Pow2(16 - l) else 0
  }

  lemma {:induction false} StartIsShares(lens: seq<nat>, k: nat)
    requires k <= 16
    ensures Start(lens, k) == SharesUpTo(lens, k)
  {
    if k <= 1 {
      NoShares(lens, k);
    } else {
      StartIsShares(lens, k - 1);
      NextShares(lens, k - 1);
    }
  }

  lemma {:induction false} NoShares(lens: seq<nat>, k: nat)
    requires k <= 1
    ensures SharesUpTo(lens, k) == 0
  {
    if |lens| > 0 {
      NoShares(lens[..|lens| - 1], k);
    }
  }

  lemma {:induction false} NextShares(lens: seq<nat>, l: nat)
    requires 1 <= l <= 15
    ensures SharesUpTo(lens, l + 1) == SharesUpTo(lens, l) + Count(lens, l) * Pow2(16 - l)
  {
    hide Pow2;
    if |lens| > 0 {
      NextShares(lens[..|lens| - 1], l);
      MulAdd(Count(lens[..|lens| - 1], l), 1, Pow2(16 - l));
    }
  }

  lemma {:induction false} AllShares(lens: seq<nat>)
    ensures SharesUpTo(lens, 16) == Shares(lens)
  {
    if |lens| > 0 {
      AllShares(lens[..|lens| - 1]);
    }
  }

  /** A code can be used if its codewords fill the code space, or if it has at most one codeword, of one bit. */
  lemma UsableExactly(lens: lengths)
    ensures Usable(lens) <==>
      || Shares(lens) == 0x10000
      || ((forall i :: 0 <= i < |lens| ==> lens[i] <= 1) && forall i, j :: 0 <= i < j < |lens| ==> lens[i] == 0 || lens[j] == 0)
  {
    StartIsShares(lens, 16);
    AllShares(lens);
    if forall i :: 0 <= i < |lens| ==> lens[i] <= 1 {
      BitShares(lens);
    }
    hide Start, Shares;
  }

  /** Every codeword of one bit takes half of the space. */
  lemma {:induction false} BitShares(lens: seq<nat>)
    requires forall i :: 0 <= i < |lens| ==> lens[i] <= 1
    ensures Shares(lens) <= 0x8000 <==> forall i, j :: 0 <= i < j < |lens| ==> lens[i] == 0 || lens[j] == 0
    ensures Shares(lens) == 0 <==> forall i :: 0 <= i < |lens| ==> lens[i] == 0
    ensures Shares(lens) == 0 || Shares(lens) == 0x8000 || Shares(lens) >= 0x10000
  {
    Powers();
    hide Pow2;
    if |lens| > 0 {
      var r := lens[..|lens| - 1];
      BitShares(r);
      assert forall i :: 0 <= i < |r| ==> r[i] == lens[i];
      assert Shares(lens) == Shares(r) + if lens[|r|] == 1 then 0x8000 else 0;
    }
  }

  // ----- copying -----

  /** The output after a copy: what was there stays, and every new byte is the one dist places before it. */
  lemma {:induction false} CopyExactly(out: seq<byte>, dist: nat, len: nat, r: seq<byte>)
    requires 1 <= dist <= |out|
    ensures r == Extend(out, dist, len) <==>
      |r| == |out| + len && out <= r && forall i :: |out| <= i < |r| ==> r[i] == r[i - dist]
    decreases len
  {
    if len > 0 {
      var next := out + [out[|out| - dist]];
      CopyExactly(next, dist, len - 1, r);
      if |r| == |out| + len && out <= r && r[|out|] == r[|out| - dist] {
        assert next <= r;
      }
    }
  }
}

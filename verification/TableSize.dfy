/** How large the multi-level decoding table of a code can get.

    The table has one block of 512 slots for the first nine bits, and one block of eight slots for every
    inner node of the code tree at depth nine and at depth twelve. */
module TableSize {
  import opened Bits
  import opened Canonical

  /** Inner nodes at depth nine, for a complete code. */
  function Inner9(lens: seq<nat>): int {
    (FULL - Start(lens, 10)) / 128
  }

  /** Inner nodes at depth twelve, for a complete code. */
  function Inner12(lens: seq<nat>): int {
    (FULL - Start(lens, 13)) / 16
  }

  function Slots(lens: seq<nat>): int {
    512 + 8 * (Inner9(lens) + Inner12(lens))
  }

  /** The number of binary ones of n. */
  function Ones(n: nat): nat {
    if n == 0 then 0 else n % 2 + Ones(n / 2)
  }

  function Sum(m: seq<nat>): nat {
    if |m| == 0 then 0 else m[0] + Sum(m[1..])
  }

  function Weighted(m: seq<nat>): nat {
    if |m| == 0 then 0 else m[0] + 2 * Weighted(m[1..])
  }

  lemma {:induction false} OnesStep(a: nat, b: nat)
    ensures Ones(a + 2 * b) <= a + Ones(b)
    decreases a
  {
    if a >= 2 {
      OnesStep(a - 2, b + 1);
      OnesSucc(b);
    } else if a + 2 * b > 0 {
      assert (a + 2 * b) / 2 == b && (a + 2 * b) % 2 == a;
    }
  }

  lemma {:induction false} OnesSucc(n: nat)
    ensures Ones(n + 1) <= Ones(n) + 1
  {
    if n % 2 == 1 {
      OnesSucc(n / 2);
      assert (n + 1) / 2 == n / 2 + 1 && (n + 1) % 2 == 0;
    } else {
      assert (n + 1) / 2 == n / 2 && (n + 1) % 2 == 1;
    }
  }

  /** Writing a number as a sum of powers of two takes at least as many terms as it has ones. */
  lemma {:induction false} OnesSum(m: seq<nat>)
    ensures Ones(Weighted(m)) <= Sum(m)
  {
    if |m| > 0 {
      OnesSum(m[1..]);
      OnesStep(m[0], Weighted(m[1..]));
    }
  }

  function Counts(lens: seq<nat>): (c: seq<nat>)
    ensures |c| == 16
  {
    seq(16, l requires 0 <= l < 16 => Count(lens, l))
  }

  function Total(lens: seq<nat>, k: nat): nat {
    if k == 0 then 0 else Total(lens, k - 1) + Count(lens, k)
  }

  lemma {:induction false} TotalSnoc(lens: seq<nat>, l: nat, k: nat)
    ensures Total(lens + [l], k) == Total(lens, k) + (if 1 <= l <= k then 1 else 0)
  {
    if k > 0 {
      TotalSnoc(lens, l, k - 1);
      assert (lens + [l])[..|lens|] == lens;
    }
  }

  lemma {:induction false} TotalBound(lens: seq<nat>, k: nat)
    ensures Total(lens, k) <= |lens|
  {
    if |lens| == 0 {
      TotalEmpty(k);
      assert lens == [];
    } else {
      var t, l := lens[..|lens| - 1], lens[|lens| - 1];
      TotalBound(t, k);
      TotalSnoc(t, l, k);
      assert lens == t + [l];
    }
  }

  lemma {:induction false} TotalEmpty(k: nat)
    ensures Total([], k) == 0
  {
    if k > 0 {
      TotalEmpty(k - 1);
    }
  }

  /** The counts, per length, behind the two node counts of a complete code. */
  lemma Shares(lens: seq<nat>) returns (p: nat, q10: nat, q11: nat, q12: nat, r: nat)
    requires Kraft(lens) == FULL
    ensures 0 <= Inner9(lens) <= 512 && 0 <= Inner12(lens) <= 8 * Inner9(lens)
    ensures p + q10 + q11 + q12 + r <= |lens|
    ensures p >= Ones(512 - Inner9(lens))
    ensures 8 * Inner9(lens) == 4 * q10 + 2 * q11 + q12 + Inner12(lens)
    ensures r >= 2 * Inner12(lens)
  {
    hide Count, Start, Pow2, Ones, Weighted, Sum, Total, Counts;
    var c := Counts(lens);
    TotalBound(lens, 15);
    TotalValues(lens);
    var m := [c[9], c[8], c[7], c[6], c[5], c[4], c[3], c[2], c[1]];
    OnesSum(m);
    SumValues(m);
    p, q10, q11, q12, r := Sum(m), c[10], c[11], c[12], c[13] + c[14] + c[15];
    KraftEquation(lens, m);
    Quotients(Weighted(m), 4 * c[10] + 2 * c[11] + c[12], 4 * c[13] + 2 * c[14] + c[15]);
  }

  lemma KraftEquation(lens: seq<nat>, m: seq<nat>)
    requires Kraft(lens) == FULL
    requires var c := Counts(lens); m == [c[9], c[8], c[7], c[6], c[5], c[4], c[3], c[2], c[1]]
    ensures var c := Counts(lens);
      var w, x, y := Weighted(m), 4 * c[10] + 2 * c[11] + c[12], 4 * c[13] + 2 * c[14] + c[15];
      FULL - Start(lens, 10) == 128 * (512 - w) == 16 * x + 2 * y && FULL - Start(lens, 13) == 2 * y
  {
    hide Count, Start, Pow2, Weighted, Sum, Counts;
    StartLow(lens);
    StartHigh(lens);
    SumValues(m);
  }

  lemma NodeUnits(lens: seq<nat>)
    requires Kraft(lens) == FULL
    ensures Start(lens, 10) == 128 * (512 - Inner9(lens))
    ensures Start(lens, 13) == 16 * (4096 - Inner12(lens))
  {
    hide Count, Start, Pow2, Weighted;
    var c := Counts(lens);
    var m := [c[9], c[8], c[7], c[6], c[5], c[4], c[3], c[2], c[1]];
    KraftEquation(lens, m);
    Quotients(Weighted(m), 4 * c[10] + 2 * c[11] + c[12], 4 * c[13] + 2 * c[14] + c[15]);
  }

  lemma Quotients(w: int, x: int, y: int)
    requires 128 * (512 - w) == 16 * x + 2 * y
    ensures 128 * (512 - w) / 128 == 512 - w
    ensures 2 * y / 16 == 8 * (512 - w) - x && y == 8 * (2 * y / 16)
  {
    assert 2 * y == 16 * (8 * (512 - w) - x);
  }

  lemma SumValues(m: seq<nat>)
    requires |m| == 9
    ensures Sum(m) == m[0] + m[1] + m[2] + m[3] + m[4] + m[5] + m[6] + m[7] + m[8]
    ensures Weighted(m) == m[0] + 2 * m[1] + 4 * m[2] + 8 * m[3] + 16 * m[4] + 32 * m[5] + 64 * m[6] + 128 * m[7] + 256 * m[8]
  {
    assert Sum(m[5..]) == m[5] + m[6] + m[7] + m[8] && Weighted(m[5..]) == m[5] + 2 * m[6] + 4 * m[7] + 8 * m[8] by {
      Peel(m, 5);
      Peel(m, 6);
      Peel(m, 7);
      Peel(m, 8);
    }
    Peel(m, 0);
    Peel(m, 1);
    Peel(m, 2);
    Peel(m, 3);
    Peel(m, 4);
    assert m[0..] == m;
  }

  lemma Peel(m: seq<nat>, i: nat)
    requires i < |m|
    ensures Sum(m[i..]) == m[i] + Sum(m[i + 1..])
    ensures Weighted(m[i..]) == m[i] + 2 * Weighted(m[i + 1..])
    ensures Sum(m[|m|..]) == 0 == Weighted(m[|m|..])
  {
    assert m[i..][1..] == m[i + 1..];
  }

  lemma TotalValues(lens: seq<nat>)
    ensures var c := Counts(lens);
      Total(lens, 15) == c[1] + c[2] + c[3] + c[4] + c[5] + c[6] + c[7] + c[8] + c[9]
                       + c[10] + c[11] + c[12] + c[13] + c[14] + c[15]
  {
    var c := Counts(lens);
    hide Count;
    assert Total(lens, 1) == c[1];
    assert Total(lens, 2) == Total(lens, 1) + c[2];
    assert Total(lens, 3) == Total(lens, 2) + c[3];
    assert Total(lens, 4) == Total(lens, 3) + c[4];
    assert Total(lens, 5) == Total(lens, 4) + c[5];
    assert Total(lens, 6) == Total(lens, 5) + c[6];
    assert Total(lens, 7) == Total(lens, 6) + c[7];
    assert Total(lens, 8) == Total(lens, 7) + c[8];
    assert Total(lens, 9) == Total(lens, 8) + c[9];
    assert Total(lens, 10) == Total(lens, 9) + c[10];
    assert Total(lens, 11) == Total(lens, 10) + c[11];
    assert Total(lens, 12) == Total(lens, 11) + c[12];
    assert Total(lens, 13) == Total(lens, 12) + c[13];
    assert Total(lens, 14) == Total(lens, 13) + c[14];
    assert Total(lens, 15) == Total(lens, 14) + c[15];
  }

  lemma StartLow(lens: seq<nat>)
    ensures var c := Counts(lens);
      Start(lens, 10) == 128 * (256 * c[1] + 128 * c[2] + 64 * c[3] + 32 * c[4] + 16 * c[5] + 8 * c[6] + 4 * c[7] + 2 * c[8] + c[9])
  {
    hide Count, Start, Pow2;
    Powers();
    StartOne(lens);
    StartStep(lens, 1);
    StartStep(lens, 2);
    StartStep(lens, 3);
    StartStep(lens, 4);
    StartStep(lens, 5);
    StartStep(lens, 6);
    StartStep(lens, 7);
    StartStep(lens, 8);
    StartStep(lens, 9);
  }

  lemma StartHigh(lens: seq<nat>)
    ensures var c := Counts(lens);
      && Start(lens, 13) == Start(lens, 10) + 64 * c[10] + 32 * c[11] + 16 * c[12]
      && Start(lens, 16) == Start(lens, 13) + 8 * c[13] + 4 * c[14] + 2 * c[15]
  {
    hide Count, Start, Pow2;
    Powers();
    StartStep(lens, 10);
    StartStep(lens, 11);
    StartStep(lens, 12);
    StartStep(lens, 13);
    StartStep(lens, 14);
    StartStep(lens, 15);
  }

  lemma LastDigit(n: nat) returns (m: nat, d: nat)
    ensures n == 2 * m + d && d <= 1 && Ones(n) == d + Ones(m)
  {
    m, d := n / 2, n % 2;
  }

  lemma DigitSum(a: int, h: int, d0: int, d1: int, d2: int, d3: int, d4: int)
    requires 0 <= d0 <= 1 && 0 <= d1 <= 1 && 0 <= d2 <= 1 && 0 <= d3 <= 1 && 0 <= d4 <= 1
    requires 512 - a == 32 * h + 16 * d4 + 8 * d3 + 4 * d2 + 2 * d1 + d0
    requires 1 <= a <= 45
    ensures h == 15 || h == 14
    ensures h == 15 ==> 4 * (d0 + d1 + d2 + d3 + d4 + 4) + a == 48 - 12 * d4 - 4 * d3 + 2 * d1 + 3 * d0
    ensures h == 15 && a >= 18 ==> d4 == 0
    ensures h == 14 ==> 4 * (d0 + d1 + d2 + d3 + d4 + 3) + a >= 60
  {
  }

  lemma OnesEnds()
    ensures Ones(15) == 4 && Ones(14) == 3
  {
  }

  lemma OnesDigits(a: nat) returns (d0: nat, d1: nat, d2: nat, d3: nat, d4: nat, h: nat)
    requires 1 <= a <= 45
    ensures d0 <= 1 && d1 <= 1 && d2 <= 1 && d3 <= 1 && d4 <= 1
    ensures 512 - a == 32 * h + 16 * d4 + 8 * d3 + 4 * d2 + 2 * d1 + d0
    ensures Ones(512 - a) == d0 + d1 + d2 + d3 + d4 + Ones(h)
  {
    hide Ones;
    var n1, n2, n3, n4;
    n1, d0 := LastDigit(512 - a);
    n2, d1 := LastDigit(n1);
    n3, d2 := LastDigit(n2);
    n4, d3 := LastDigit(n3);
    h, d4 := LastDigit(n4);
  }

  lemma OnesTable(a: nat)
    requires 1 <= a <= 45
    ensures 4 * Ones(512 - a) + a >= 30
    ensures a >= 18 ==> 4 * Ones(512 - a) + a >= if a == 20 || a == 24 then 44 else 46
  {
    hide Ones;
    OnesEnds();
    var d0, d1, d2, d3, d4, h := OnesDigits(a);
    DigitSum(a, h, d0, d1, d2, d3, d4);
    if h == 15 && a >= 18 {
      if d3 == 1 {
        assert a == 24 - 4 * d2 - 2 * d1 - d0;
      }
    }
  }

  /** A literal/length code of at most 286 symbols fits a table of 1760 slots. */
  lemma Fits286(lens: seq<nat>)
    requires Kraft(lens) == FULL && |lens| <= 286
    ensures Slots(lens) <= 1760
  {
    var p, q10, q11, q12, r := Shares(lens);
    var a, b := Inner9(lens), Inner12(lens);
    hide Inner9, Inner12, Ones, Kraft;
    if a + b >= 157 {
      assert 4 * p + a + 7 * (a + b - 157) + 2 * q11 + 3 * q12 <= 45;
      OnesTable(a);
    }
  }

  /** A distance code of at most 30 symbols fits a table of 608 slots. */
  lemma Fits30(lens: seq<nat>)
    requires Kraft(lens) == FULL && |lens| <= 30
    ensures Slots(lens) <= 608
  {
    var p, q10, q11, q12, r := Shares(lens);
    var a, b := Inner9(lens), Inner12(lens);
    hide Inner9, Inner12, Ones, Kraft;
    if a + b >= 13 {
      assert 4 * p + a + 7 * (a + b - 13) + 2 * q11 + 3 * q12 <= 29;
      OnesTable(a);
    }
  }

  /** Codes of at most nine bits need the first block only. */
  lemma {:induction false} ShortCodes(lens: seq<nat>, l: nat)
    requires forall i :: 0 <= i < |lens| ==> lens[i] <= 9
    requires 10 <= l <= 16
    ensures Start(lens, l) == Start(lens, 10)
  {
    if l > 10 {
      ShortCodes(lens, l - 1);
      NoneLonger(lens, l - 1);
    }
  }

  lemma {:induction false} NoneLonger(lens: seq<nat>, l: nat)
    requires forall i :: 0 <= i < |lens| ==> lens[i] < l
    ensures Count(lens, l) == 0
  {
    if |lens| > 0 {
      NoneLonger(lens[..|lens| - 1], l);
    }
  }

  lemma FitsShort(lens: seq<nat>)
    requires Kraft(lens) == FULL && forall i :: 0 <= i < |lens| ==> lens[i] <= 9
    ensures Slots(lens) == 512
  {
    ShortCodes(lens, 13);
    ShortCodes(lens, 16);
  }
}

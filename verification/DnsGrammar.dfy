/** The names that encode_domain_name of arlib/dns.cpp accepts, told character by character. */
module DnsGrammar {
  import opened Bits
  import opened DnsNames

  /** a to z, 0 to 9 and the dash. */
  predicate Plain(c: byte) {
    c == 45 || 48 <= c <= 57 || 97 <= c <= 122
  }

  predicate Dotless(s: seq<byte>, i: nat, j: nat)
    requires i <= j <= |s|
  {
    forall k :: i <= k < j ==> s[k] != 46
  }

  /** Nothing but labels of 1 to 63 plain characters, with a dot between any two. */
  ghost predicate Labelled(s: seq<byte>) {
    && |s| > 0 && s[0] != 46 && s[|s| - 1] != 46
    && (forall i :: 0 <= i < |s| ==> Plain(s[i]) || s[i] == 46)
    && (forall i :: 0 < i < |s| ==> s[i - 1] != 46 || s[i] != 46)
    && (forall i, j :: 0 <= i <= j <= |s| && Dotless(s, i, j) ==> j - i <= 63)
  }

  /** Where the last label begins. */
  function LastStart(s: seq<byte>): (t: nat)
    ensures t <= |s|
  {
    if |s| == 0 then 0 else if s[|s| - 1] == 46 then |s| else LastStart(s[..|s| - 1])
  }

  predicate LetterLast(s: seq<byte>) {
    var t := LastStart(s);
    t < |s| && 97 <= s[t] <= 122
  }

  /** A name is accepted if it has at most 253 characters, is labelled, and its last label begins with a letter. */
  lemma GrammarExactly(s: seq<byte>)
    ensures Accepted(s) <==> Labelled(s) && LetterLast(s) && |s| <= 253
  {
    hide Labelled, LetterLast, Text;
    if Accepted(s) {
      var ls :| Legal(ls) && Text(ls) == s;
      TextLabelled(ls);
    }
    if Labelled(s) && LetterLast(s) && |s| <= 253 {
      var ls := FindLabels(s);
      TextLabelled(ls);
      assert Legal(ls);
    }
  }

  lemma {:induction false} TextLabelled(ls: seq<octets>)
    requires GoodLabels(ls) && |ls| > 0
    ensures Labelled(Text(ls)) && |ls[|ls| - 1]| > 0 && (LetterLast(Text(ls)) <==> Letter(ls[|ls| - 1][0]))
  {
    hide Labelled, LetterLast, Text, GoodLabel, Letter;
    TextIs(ls);
    assert GoodLabel(ls[0]);
    if |ls| == 1 {
      OneLabel(ls[0]);
    } else {
      TextLabelled(ls[1..]);
      MoreLabelled(ls[0], Text(ls[1..]));
      LastMoves(ls[0], Text(ls[1..]));
    }
  }

  lemma PlainLabel(l: octets)
    ensures GoodLabel(l) <==> 1 <= |l| <= 63 && forall i :: 0 <= i < |l| ==> Plain(l[i])
  {
  }

  lemma {:induction false} OneStart(l: seq<byte>)
    requires Dotless(l, 0, |l|)
    ensures LastStart(l) == 0
  {
    if |l| > 0 {
      OneStart(l[..|l| - 1]);
    }
  }

  lemma OneLabel(l: octets)
    requires GoodLabel(l)
    ensures Labelled(l) && (LetterLast(l) <==> Letter(l[0]))
  {
    PlainLabel(l);
    hide GoodLabel;
    OneStart(l);
  }

  /** One label more, in front. */
  lemma MoreLabelled(l: octets, s: seq<byte>)
    requires GoodLabel(l) && Labelled(s)
    ensures Labelled(l + [DOT] + s)
  {
    PlainLabel(l);
    hide GoodLabel;
    var t, n := l + [DOT] + s, |l| + 1;
    assert t[n - 1] == 46 && t[..n - 1] == l && t[n..] == s;
    forall i, j | 0 <= i <= j <= |t| && Dotless(t, i, j)
      ensures j - i <= 63
    {
      if i >= n {
        assert Dotless(s, i - n, j - n);
      } else {
        assert !(i <= n - 1 < j);
      }
    }
  }

  lemma {:induction false} LastMoves(l: octets, s: seq<byte>)
    ensures LastStart(l + [DOT] + s) == |l| + 1 + LastStart(s)
    ensures LetterLast(l + [DOT] + s) <==> LetterLast(s)
    decreases |s|
  {
    var t := l + [DOT] + s;
    if |s| > 0 {
      assert t[..|t| - 1] == l + [DOT] + s[..|s| - 1] && t[|t| - 1] == s[|s| - 1];
      LastMoves(l, s[..|s| - 1]);
    }
  }

  /** The first dot, or the end. */
  function FirstDotAt(s: seq<byte>): (k: nat)
    ensures k <= |s| && Dotless(s, 0, k) && (k < |s| ==> s[k] == 46)
  {
    if |s| == 0 || s[0] == 46 then 0 else 1 + FirstDotAt(s[1..])
  }

  /** The labels of a text. */
  lemma {:induction false} FindLabels(s: seq<byte>) returns (ls: seq<octets>)
    requires Labelled(s)
    ensures |ls| > 0 && GoodLabels(ls) && Text(ls) == s
    decreases |s|
  {
    var k := FirstDotAt(s);
    PlainLabel(s[..k]);
    if k == |s| {
      assert s[..k] == s;
      ls := [s];
    } else {
      RestLabelled(s, k);
      assert s == s[..k] + [DOT] + s[k + 1..];
      hide Labelled, GoodLabel;
      var more := FindLabels(s[k + 1..]);
      ls := [s[..k]] + more;
      assert ls[1..] == more;
    }
  }

  lemma RestLabelled(s: seq<byte>, k: nat)
    requires Labelled(s) && k < |s| && s[k] == 46
    ensures Labelled(s[k + 1..])
  {
    var r := s[k + 1..];
    forall i, j | 0 <= i <= j <= |r| && Dotless(r, i, j)
      ensures j - i <= 63
    {
      assert Dotless(s, i + k + 1, j + k + 1) by {
        assert forall x :: i + k + 1 <= x < j + k + 1 ==> s[x] == r[x - k - 1];
      }
    }
  }
}

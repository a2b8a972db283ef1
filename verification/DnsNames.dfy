/** Domain names of arlib/dns.cpp: how they are encoded, and how one in a packet is compared with another. */
module DnsNames {
  import opened Bits
  import opened Wrappers

  type octets = seq<byte>

  // ----- sections 3.1 and 4.1.4 of RFC 1035 -----

  /** Where the two bytes of a pointer point to. */
  function Pointer(high: byte, low: byte): nat {
    high % 64 * 256 + low
  }

  /** The labels that are at pos in a packet: up to a zero byte, or to a pointer to an earlier place where the
      rest of them is. */
  predicate Denotes(p: seq<byte>, pos: nat, ls: seq<octets>)
    decreases |ls|, pos
  {
    && pos < |p|
    && if p[pos] == 0 then |ls| == 0
       else if p[pos] < 64 then
         var next := pos + 1 + p[pos];
         next <= |p| && |ls| > 0 && ls[0] == p[pos + 1..next] && Denotes(p, next, ls[1..])
       else
         && p[pos] >= 192 && pos + 1 < |p|
         && Pointer(p[pos], p[pos + 1]) < pos && Denotes(p, Pointer(p[pos], p[pos + 1]), ls)
  }

  function Sizes(ls: seq<octets>): nat {
    if |ls| == 0 then 0 else Sizes(ls[..|ls| - 1]) + 1 + |ls[|ls| - 1]|
  }

  /** How many bytes the labels take without compression, with the zero byte at the end. */
  function Size(ls: seq<octets>): nat {
    Sizes(ls) + 1
  }

  lemma {:induction false} SizesConcat(a: seq<octets>, b: seq<octets>)
    ensures Sizes(a + b) == Sizes(a) + Sizes(b)
    decreases |b|
  {
    if |b| == 0 {
      assert a + b == a;
    } else {
      assert (a + b)[..|a + b| - 1] == a + b[..|b| - 1];
      SizesConcat(a, b[..|b| - 1]);
    }
  }

  /** A place denotes one name at most. */
  lemma {:induction false} DenotesOne(p: seq<byte>, pos: nat, a: seq<octets>, b: seq<octets>)
    requires Denotes(p, pos, a) && Denotes(p, pos, b)
    ensures a == b
    decreases |a|, pos
  {
    if p[pos] == 0 {
    } else if p[pos] < 64 {
      DenotesOne(p, pos + 1 + p[pos], a[1..], b[1..]);
      assert a == [a[0]] + a[1..] && b == [b[0]] + b[1..];
    } else {
      DenotesOne(p, Pointer(p[pos], p[pos + 1]), a, b);
    }
  }

  /** The first labels have been read up to pos. */
  ghost predicate Leads(p: seq<byte>, from: nat, seen: seq<octets>, pos: nat) {
    forall ls :: Denotes(p, from, ls) <==> seen <= ls && Denotes(p, pos, ls[|seen|..])
  }

  lemma LeadsNowhere(p: seq<byte>, from: nat)
    ensures Leads(p, from, [], from)
  {
    forall ls: seq<octets>
      ensures Denotes(p, from, ls) <==> [] <= ls && Denotes(p, from, ls[0..])
    {
      assert ls[0..] == ls;
    }
  }

  /** What is at pos begins with this label and goes on at next, or is over if it is empty. */
  ghost predicate Begins(p: seq<byte>, pos: nat, l: octets, next: nat) {
    forall ls :: Denotes(p, pos, ls) <==> if |l| == 0 then |ls| == 0 else |ls| > 0 && ls[0] == l && Denotes(p, next, ls[1..])
  }

  lemma LeadsOn(p: seq<byte>, from: nat, seen: seq<octets>, pos: nat, l: octets, next: nat)
    requires Leads(p, from, seen, pos) && |l| > 0 && Begins(p, pos, l, next)
    ensures Leads(p, from, seen + [l], next)
  {
    var k := |seen|;
    forall ls
      ensures Denotes(p, from, ls) <==> seen + [l] <= ls && Denotes(p, next, ls[k + 1..])
    {
      if |ls| > k {
        assert ls[k..][1..] == ls[k + 1..] && ls[k..][0] == ls[k];
        assert seen + [l] <= ls <==> seen <= ls && ls[k] == l by {
          if seen <= ls && ls[k] == l {
            assert ls[..k + 1] == seen + [l];
          }
        }
      }
    }
  }

  ghost predicate Nothing(p: seq<byte>, pos: nat) {
    forall ls :: !Denotes(p, pos, ls)
  }

  ghost predicate SamePlace(p: seq<byte>, a: nat, b: nat) {
    forall ls :: Denotes(p, a, ls) <==> Denotes(p, b, ls)
  }

  lemma NotMoved(p: seq<byte>, a: nat)
    ensures SamePlace(p, a, a)
  {
  }

  lemma MovedOn(p: seq<byte>, a: nat, b: nat, l: octets, next: nat)
    requires SamePlace(p, a, b)
    ensures Begins(p, b, l, next) ==> Begins(p, a, l, next)
    ensures Nothing(p, b) ==> Nothing(p, a)
  {
    hide Denotes;
  }

  lemma AtZero(p: seq<byte>, pos: nat)
    requires pos < |p| && p[pos] == 0
    ensures Begins(p, pos, [], pos + 1)
  {
  }

  lemma AtLabel(p: seq<byte>, pos: nat)
    requires pos < |p| && 0 < p[pos] < 64 && pos + 1 + p[pos] <= |p|
    ensures Begins(p, pos, p[pos + 1..pos + 1 + p[pos]], pos + 1 + p[pos])
  {
  }

  lemma AtPointer(p: seq<byte>, a: nat, pos: nat)
    requires SamePlace(p, a, pos) && pos + 1 < |p| && p[pos] >= 192 && Pointer(p[pos], p[pos + 1]) < pos
    ensures SamePlace(p, a, Pointer(p[pos], p[pos + 1]))
  {
  }

  lemma AtNothing(p: seq<byte>, pos: nat)
    requires pos < |p| ==> p[pos] != 0
    requires pos < |p| && p[pos] < 64 ==> pos + 1 + p[pos] > |p|
    requires pos + 1 < |p| && p[pos] >= 192 ==> Pointer(p[pos], p[pos + 1]) >= pos
    ensures Nothing(p, pos)
  {
  }

  class Stream {
    const packet: seq<byte>
    var at: nat

    constructor (packet: seq<byte>, at: nat)
      ensures this.packet == packet && this.at == at
    {
      this.packet, this.at := packet, at;
    }

    function Remaining(): int
      reads this
    {
      |packet| - at
    }

    method U8() returns (b: byte)
      requires at < |packet|
      modifies this
      ensures b == packet[old(at)] && at == old(at) + 1
    {
      b := packet[at];
      at := at + 1;
    }

    /** get_label: the next label, wherever the pointers lead; empty at the end of the name. */
    method GetLabel() returns (ok: bool, ret: octets)
      modifies this
      ensures ok ==> Begins(packet, old(at), ret, at) && |ret| < 64
      ensures !ok ==> Nothing(packet, old(at))
    {
      ok, ret := false, [];
      ghost var start := at;
      NotMoved(packet, start);
      hide Begins, Nothing, SamePlace;
      while true
        invariant SamePlace(packet, start, at)
        decreases at
      {
        var lastPos := at;
        MovedOn(packet, start, lastPos, [], lastPos + 1);
        if Remaining() < 1 {
          AtNothing(packet, lastPos);
          return;
        }
        var b := U8();
        if b == 0 {
          AtZero(packet, lastPos);
          ok := true;
          return;
        } else if b < 64 {
          if Remaining() < b {
            AtNothing(packet, lastPos);
            return;
          }
          ret := packet[at..at + b];
          at := at + b;
          ok := true;
          AtLabel(packet, lastPos);
          MovedOn(packet, start, lastPos, ret, at);
          return;
        } else if b >= 192 {
          if Remaining() < 1 {
            AtNothing(packet, lastPos);
            return;
          }
          var low := U8();
          var pos := Pointer(b, low);
          if pos >= lastPos {
            AtNothing(packet, lastPos);
            return;
          }
          AtPointer(packet, start, lastPos);
          at := pos;
        } else {
          AtNothing(packet, lastPos);
          return;
        }
      }
    }
  }

  /** same_name, both streams being passed by value. */
  method SameName(first: Stream, second: Stream) returns (same: bool)
    ensures same <==> exists ls :: Denotes(first.packet, first.at, ls) && Denotes(second.packet, second.at, ls) && Size(ls) <= 254
  {
    var f := new Stream(first.packet, first.at);
    var s := new Stream(second.packet, second.at);
    var lenSeen := 0;
    ghost var seen: seq<octets> := [];
    LeadsNowhere(f.packet, f.at);
    LeadsNowhere(s.packet, s.at);
    hide Leads, Begins, Denotes, Sizes;
    SizesNone();
    while true
      invariant fresh(f) && fresh(s) && f != s && f.packet == first.packet && s.packet == second.packet
      invariant Leads(f.packet, first.at, seen, f.at) && Leads(s.packet, second.at, seen, s.at)
      invariant lenSeen == Sizes(seen) < 255
      decreases 255 - lenSeen
    {
      ghost var a, b := f.at, s.at;
      var ok, l1 := f.GetLabel();
      if !ok {
        LeadsWrong(f.packet, first.at, seen, a);
        return false;
      }
      var l2;
      ok, l2 := s.GetLabel();
      if !ok {
        LeadsWrong(s.packet, second.at, seen, b);
        return false;
      }
      if l1 != l2 {
        LeadsApart(f.packet, first.at, a, l1, f.at, s.packet, second.at, b, l2, s.at, seen);
        return false;
      }
      lenSeen := lenSeen + 1 + |l1|;
      if lenSeen >= 255 {
        LeadsFar(f.packet, first.at, seen, a, l1, f.at);
        return false;
      }
      if |l1| == 0 {
        LeadsToEnd(f.packet, first.at, seen, a, f.at);
        LeadsToEnd(s.packet, second.at, seen, b, s.at);
        return true;
      }
      LeadsOn(f.packet, first.at, seen, a, l1, f.at);
      LeadsOn(s.packet, second.at, seen, b, l1, s.at);
      SizesConcat(seen, [l1]);
      SizesOne(l1);
      seen := seen + [l1];
    }
  }

  lemma SizesNone()
    ensures Sizes([]) == 0
  {
  }

  lemma SizesOne(l: octets)
    ensures Sizes([l]) == 1 + |l|
  {
    assert [l][..0] == [];
  }

  lemma LeadsWrong(p: seq<byte>, from: nat, seen: seq<octets>, pos: nat)
    requires Leads(p, from, seen, pos) && Nothing(p, pos)
    ensures Nothing(p, from)
  {
    hide Denotes;
  }

  lemma LeadsToEnd(p: seq<byte>, from: nat, seen: seq<octets>, pos: nat, next: nat)
    requires Leads(p, from, seen, pos) && Begins(p, pos, [], next)
    ensures Denotes(p, from, seen)
  {
    hide Denotes;
    assert seen <= seen && seen[|seen|..] == [];
  }

  /** A name that goes on with l takes as much at least. */
  lemma LeadsFar(p: seq<byte>, from: nat, seen: seq<octets>, pos: nat, l: octets, next: nat)
    requires Leads(p, from, seen, pos) && Begins(p, pos, l, next)
    ensures forall ls :: Denotes(p, from, ls) ==> Size(ls) >= Sizes(seen) + 1 + |l|
  {
    forall ls | Denotes(p, from, ls)
      ensures Size(ls) >= Sizes(seen) + 1 + |l|
    {
      hide Denotes, Sizes;
      var k := |seen|;
      assert ls == seen + ls[k..];
      SizesConcat(seen, ls[k..]);
      if |l| > 0 {
        assert ls[k..] == [l] + ls[k..][1..];
        SizesConcat([l], ls[k..][1..]);
        SizesOne(l);
      }
    }
  }

  lemma LeadsApart(p: seq<byte>, from1: nat, pos1: nat, l1: octets, next1: nat, q: seq<byte>, from2: nat, pos2: nat, l2: octets, next2: nat,
                   seen: seq<octets>)
    requires Leads(p, from1, seen, pos1) && Begins(p, pos1, l1, next1) && Leads(q, from2, seen, pos2) && Begins(q, pos2, l2, next2)
    requires l1 != l2
    ensures forall ls :: !(Denotes(p, from1, ls) && Denotes(q, from2, ls))
  {
    hide Denotes;
  }

  // ----- what comes after a name -----

  /** Where what follows the name at pos begins. */
  function After(p: seq<byte>, pos: nat): Option<nat>
    decreases |p| - pos
  {
    if pos >= |p| then None
    else if p[pos] == 0 then Some(pos + 1)
    else if p[pos] < 64 then (if pos + 1 + p[pos] <= |p| then After(p, pos + 1 + p[pos]) else None)
    else if p[pos] >= 192 && pos + 1 < |p| then Some(pos + 2)
    else None
  }

  lemma {:induction false} NamesEnd(p: seq<byte>, pos: nat, ls: seq<octets>)
    requires Denotes(p, pos, ls)
    ensures After(p, pos).Some?
    decreases |ls|
  {
    if 0 < p[pos] < 64 {
      NamesEnd(p, pos + 1 + p[pos], ls[1..]);
    }
  }

  /** skip_name */
  method SkipName(stream: Stream) returns (ok: bool)
    modifies stream
    ensures ok <==> After(stream.packet, old(stream.at)).Some?
    ensures ok ==> After(stream.packet, old(stream.at)) == Some(stream.at)
  {
    while true
      invariant After(stream.packet, stream.at) == After(stream.packet, old(stream.at))
      decreases |stream.packet| - stream.at
    {
      if stream.Remaining() < 1 {
        return false;
      }
      var b := stream.U8();
      if b == 0 {
        return true;
      } else if b < 64 {
        if stream.Remaining() < b {
          return false;
        }
        stream.at := stream.at + b;
      } else if b >= 192 {
        if stream.Remaining() < 1 {
          return false;
        }
        var low := stream.U8();
        return true;
      } else {
        return false;
      }
    }
  }

  /** same_name_skip; skip_name does not fail when its result is ignored. */
  method SameNameSkip(first: Stream, second: Stream) returns (same: bool)
    modifies second
    ensures same <==> exists ls :: Denotes(first.packet, old(first.at), ls) && Denotes(second.packet, old(second.at), ls) && Size(ls) <= 254
    ensures second.at == old(second.at) || same
    ensures same ==> After(second.packet, old(second.at)) == Some(second.at)
  {
    same := SameName(first, second);
    hide Denotes;
    if same {
      ghost var ls :| Denotes(first.packet, first.at, ls) && Denotes(second.packet, second.at, ls) && Size(ls) <= 254;
      NamesEnd(second.packet, second.at, ls);
      var skipped := SkipName(second);
    }
  }

  // ----- names as text -----

  predicate Letter(c: byte) {
    97 <= c <= 122
  }

  predicate LabelChar(c: byte) {
    Letter(c) || 48 <= c <= 57 || c == 45
  }

  const DOT: byte := 46

  predicate GoodLabel(l: octets) {
    1 <= |l| <= 63 && forall i :: 0 <= i < |l| ==> LabelChar(l[i])
  }

  predicate GoodLabels(ls: seq<octets>) {
    forall i :: 0 <= i < |ls| ==> GoodLabel(ls[i])
  }

  function Text(ls: seq<octets>): seq<byte> {
    if |ls| == 0 then [] else if |ls| == 1 then ls[0] else ls[0] + [DOT] + Text(ls[1..])
  }

  /** The names that are accepted: the last label begins with a letter. */
  predicate Legal(ls: seq<octets>) {
    |ls| > 0 && GoodLabels(ls) && |Text(ls)| <= 253 && Letter(ls[|ls| - 1][0])
  }

  function Encoded(ls: seq<octets>): seq<byte>
    requires GoodLabels(ls)
  {
    if |ls| == 0 then [] else [|ls[0]|] + ls[0] + Encoded(ls[1..])
  }

  lemma Assoc5(a: seq<byte>, b: seq<byte>, c: seq<byte>, d: seq<byte>, e: seq<byte>)
    ensures a + b + (c + d + e) == (a + b + c) + d + e
  {
  }

  lemma {:induction false} EncodedMore(ls: seq<octets>, l: octets)
    requires GoodLabels(ls) && GoodLabel(l)
    ensures GoodLabels(ls + [l]) && Encoded(ls + [l]) == Encoded(ls) + [|l|] + l
  {
    if |ls| == 0 {
      assert ls + [l] == [l] && [l][1..] == [];
    } else {
      assert (ls + [l])[1..] == ls[1..] + [l];
      EncodedMore(ls[1..], l);
      hide GoodLabel, LabelChar;
      Assoc5([|ls[0]|], ls[0], Encoded(ls[1..]), [|l|], l);
    }
  }

  lemma {:induction false} EncodedSize(ls: seq<octets>)
    requires GoodLabels(ls)
    ensures |Encoded(ls)| == Sizes(ls) && (|ls| > 0 ==> Sizes(ls) == |Text(ls)| + 1)
  {
    if |ls| > 0 {
      EncodedSize(ls[1..]);
      assert ls == [ls[0]] + ls[1..];
      SizesConcat([ls[0]], ls[1..]);
      SizesOne(ls[0]);
    }
  }

  /** An encoding denotes its labels, wherever it is in a packet. */
  lemma {:induction false} EncodedDenotes(before: seq<byte>, ls: seq<octets>, after: seq<byte>)
    requires GoodLabels(ls)
    ensures Denotes(before + Encoded(ls) + [0] + after, |before|, ls)
    decreases |ls|
  {
    var p := before + Encoded(ls) + [0] + after;
    if |ls| > 0 {
      var l := ls[0];
      var more := before + ([|l|] + l);
      assert p == more + Encoded(ls[1..]) + [0] + after;
      EncodedDenotes(more, ls[1..], after);
      assert p[|before|] == |l| && p[|before| + 1..|before| + 1 + |l|] == l;
    }
  }

  /** If a place later in the packet is where the labels end, what comes after them is what comes after it. */
  lemma {:induction false} AfterLabels(before: seq<byte>, ls: seq<octets>, rest: seq<byte>)
    requires GoodLabels(ls)
    ensures var p := before + Encoded(ls) + rest; After(p, |before|) == After(p, |before| + |Encoded(ls)|)
    decreases |ls|
  {
    var p := before + Encoded(ls) + rest;
    if |ls| > 0 {
      var l := ls[0];
      var more := before + ([|l|] + l);
      assert p == more + Encoded(ls[1..]) + rest;
      AfterLabels(more, ls[1..], rest);
      assert p[|before|] == |l|;
    } else {
      assert before + Encoded(ls) == before;
    }
  }

  /** A name ends with a zero byte, or with a pointer, which has two bytes. */
  lemma AfterExactly(before: seq<byte>, ls: seq<octets>, h: byte, l: byte, rest: seq<byte>)
    requires GoodLabels(ls)
    ensures After(before + Encoded(ls) + ([0] + rest), |before|) == Some(|before| + |Encoded(ls)| + 1)
    ensures h >= 192 ==> After(before + Encoded(ls) + ([h, l] + rest), |before|) == Some(|before| + |Encoded(ls)| + 2)
    ensures 64 <= h < 192 ==> After(before + Encoded(ls) + ([h, l] + rest), |before|) == None
    ensures h >= 192 ==> After(before + Encoded(ls) + [h], |before|) == None
  {
    hide *;
    AfterThere(before, ls, [0] + rest);
    AfterThere(before, ls, [h, l] + rest);
    AfterThere(before, ls, [h]);
  }

  lemma AfterThere(before: seq<byte>, ls: seq<octets>, rest: seq<byte>)
    requires GoodLabels(ls) && |rest| > 0
    ensures var e := |before| + |Encoded(ls)|;
      var a := After(before + Encoded(ls) + rest, |before|);
      if rest[0] == 0 then a == Some(e + 1) else if rest[0] >= 192 && |rest| > 1 then a == Some(e + 2) else rest[0] >= 64 ==> a == None
  {
    hide *;
    AfterLabels(before, ls, rest);
    Middle(before + Encoded(ls), rest);
    AfterOne(before + Encoded(ls) + rest, |before| + |Encoded(ls)|);
  }

  lemma Middle(a: seq<byte>, b: seq<byte>)
    ensures |b| > 0 ==> (a + b)[|a|] == b[0]
    ensures |b| > 1 ==> (a + b)[|a| + 1] == b[1]
  {
  }

  lemma AfterOne(p: seq<byte>, e: nat)
    requires e < |p|
    ensures p[e] == 0 ==> After(p, e) == Some(e + 1)
    ensures p[e] >= 192 ==> After(p, e) == if e + 1 < |p| then Some(e + 2) else None
    ensures 64 <= p[e] < 192 ==> After(p, e) == None
  {
  }

  /** Labels, and then whatever is denoted where they end. */
  lemma {:induction false} DenotesLabels(before: seq<byte>, ls: seq<octets>, rest: seq<byte>, more: seq<octets>)
    requires GoodLabels(ls)
    ensures var p := before + Encoded(ls) + rest;
      Denotes(p, |before| + |Encoded(ls)|, more) ==> Denotes(p, |before|, ls + more)
    decreases |ls|
  {
    var p := before + Encoded(ls) + rest;
    if |ls| > 0 {
      var l := ls[0];
      var next := before + ([|l|] + l);
      assert p == next + Encoded(ls[1..]) + rest;
      DenotesLabels(next, ls[1..], rest, more);
      assert p[|before|] == |l| && p[|before| + 1..|before| + 1 + |l|] == l;
      assert (ls + more)[1..] == ls[1..] + more && (ls + more)[0] == l;
    } else {
      assert ls + more == more;
    }
  }

  /** Labels that end in a pointer to an earlier place k denote those labels followed by what k denotes, and nothing
      if the pointer does not go back. The pointer is 11 in two bits and k in fourteen, the higher byte first. */
  lemma PointerDenotes(before: seq<byte>, ls: seq<octets>, k: nat, rest: seq<byte>, more: seq<octets>)
    requires GoodLabels(ls) && k < 16384
    ensures var p := before + Encoded(ls) + ([192 + k / 256, k % 256] + rest);
      && (k < |before| + |Encoded(ls)| && Denotes(p, k, more) ==> Denotes(p, |before|, ls + more))
      && (k >= |before| + |Encoded(ls)| ==> Nothing(p, |before| + |Encoded(ls)|))
  {
    var h, l := 192 + k / 256, k % 256;
    var p, e := before + Encoded(ls) + ([h, l] + rest), |before| + |Encoded(ls)|;
    DenotesLabels(before, ls, [h, l] + rest, more);
    hide Encoded;
    assert p[e] == h && p[e + 1] == l;
    assert Pointer(h, l) == k;
    if k >= e {
      AtNothing(p, e);
    }
  }

  /** The two other combinations of the first two bits are reserved. */
  lemma ReservedNothing(p: seq<byte>, pos: nat)
    requires pos < |p| && 64 <= p[pos] < 192
    ensures Nothing(p, pos)
  {
  }

  lemma FirstDot(l: octets, more: seq<byte>, s: seq<byte>, k: nat)
    requires GoodLabel(l) && k <= |s| && forall i :: 0 <= i < k ==> LabelChar(s[i])
    requires k < |s| ==> !LabelChar(s[k])
    ensures l + [DOT] + more == s <==> k < |s| && s[k] == DOT && l == s[..k] && more == s[k + 1..]
  {
    var m, t := |l|, l + [DOT] + more;
    assert t[m] == DOT && t[..m] == l && t[m + 1..] == more;
    assert forall i :: 0 <= i < m ==> t[i] == l[i];
    if t == s {
      FirstOnly(s, m, k);
    }
    if k < |s| {
      assert s == s[..k] + [s[k]] + s[k + 1..];
    }
  }

  lemma FirstOnly(s: seq<byte>, m: nat, k: nat)
    requires m < |s| && !LabelChar(s[m]) && forall i :: 0 <= i < m ==> LabelChar(s[i])
    requires k <= |s| && (k < |s| ==> !LabelChar(s[k])) && forall i :: 0 <= i < k ==> LabelChar(s[i])
    ensures m == k
  {
  }

  lemma OnlyLabel(l: octets, s: seq<byte>, k: nat)
    requires GoodLabel(l) && k < |s| && !LabelChar(s[k])
    ensures l != s
  {
  }

  /** A text and its labels up to the first character that is not one of a label. */
  lemma TextCases(ls: seq<octets>, s: seq<byte>, k: nat)
    requires |ls| > 0 && GoodLabels(ls) && k <= |s| && forall i :: 0 <= i < k ==> LabelChar(s[i])
    requires k < |s| ==> !LabelChar(s[k])
    ensures 1 <= |ls[0]| <= 63
    ensures k == |s| ==> (Text(ls) == s <==> ls == [s])
    ensures k < |s| && s[k] == DOT ==> (Text(ls) == s <==> |ls| > 1 && ls[0] == s[..k] && Text(ls[1..]) == s[k + 1..])
    ensures k < |s| && s[k] != DOT ==> Text(ls) != s
  {
    TextIs(ls);
    assert GoodLabel(ls[0]);
    hide Text, GoodLabel, LabelChar;
    if |ls| > 1 {
      FirstDot(ls[0], Text(ls[1..]), s, k);
    } else if k < |s| {
      OnlyLabel(ls[0], s, k);
    }
  }

  lemma TextIs(ls: seq<octets>)
    requires |ls| > 0
    ensures Text(ls) == if |ls| == 1 then ls[0] else ls[0] + [DOT] + Text(ls[1..])
    ensures |ls| == 1 ==> ls == [ls[0]]
    ensures GoodLabels(ls) ==> 1 <= |ls[0]| <= 63
  {
  }

  /** The labels up to some dot are found, and rest is the text after it. */
  ghost predicate Found(addr: seq<byte>, done: seq<octets>, rest: seq<byte>) {
    forall ls :: GoodLabels(ls) && |ls| > 0 ==>
      (Text(ls) == addr <==> |done| < |ls| && done <= ls && Text(ls[|done|..]) == rest)
  }

  lemma FoundNone(addr: seq<byte>)
    ensures Found(addr, [], addr)
  {
    forall ls: seq<octets>
      ensures ls[0..] == ls
    {
    }
  }

  lemma FoundMore(addr: seq<byte>, done: seq<octets>, rest: seq<byte>, k: nat)
    requires Found(addr, done, rest) && k < |rest| && rest[k] == DOT && forall i :: 0 <= i < k ==> LabelChar(rest[i])
    ensures Found(addr, done + [rest[..k]], rest[k + 1..])
  {
    var next := done + [rest[..k]];
    forall ls | GoodLabels(ls) && |ls| > 0
      ensures Text(ls) == addr <==> |next| < |ls| && next <= ls && Text(ls[|next|..]) == rest[k + 1..]
    {
      assert Text(ls) == addr <==> |done| < |ls| && done <= ls && Text(ls[|done|..]) == rest;
      OneMore(ls, done, rest, k);
    }
  }

  lemma OneMore(ls: seq<octets>, done: seq<octets>, rest: seq<byte>, k: nat)
    requires GoodLabels(ls) && k < |rest| && rest[k] == DOT && forall i :: 0 <= i < k ==> LabelChar(rest[i])
    ensures var n := |done|;
      (n < |ls| && done <= ls && Text(ls[n..]) == rest)
        <==> (n + 1 < |ls| && done + [rest[..k]] <= ls && Text(ls[n + 1..]) == rest[k + 1..])
  {
    var n, l := |done|, rest[..k];
    DotIsNone();
    if n < |ls| {
      var tail := ls[n..];
      TailGood(ls, n);
      hide GoodLabels, Text, LabelChar;
      TextCases(tail, rest, k);
      assert tail[1..] == ls[n + 1..] && tail[0] == ls[n];
      Longer(done, l, ls);
    } else {
      hide Text;
    }
  }

  lemma DotIsNone()
    ensures !LabelChar(DOT)
  {
  }

  lemma TailGood(ls: seq<octets>, n: nat)
    requires GoodLabels(ls) && n < |ls|
    ensures GoodLabels(ls[n..])
  {
    hide GoodLabel;
  }

  lemma Longer(a: seq<octets>, x: octets, b: seq<octets>)
    requires |a| < |b|
    ensures a + [x] <= b <==> a <= b && b[|a|] == x
  {
    if a <= b && b[|a|] == x {
      assert b[..|a| + 1] == a + [x];
    }
  }

  /** No labels make up the text if one is too short or too long or has a wrong character. */
  lemma FoundWrong(addr: seq<byte>, done: seq<octets>, rest: seq<byte>, k: nat)
    requires Found(addr, done, rest) && k <= |rest| && (forall i :: 0 <= i < k ==> LabelChar(rest[i]))
    requires k < |rest| ==> !LabelChar(rest[k])
    requires k == 0 || k > 63 || (k < |rest| && rest[k] != DOT)
    ensures !Accepted(addr)
  {
    forall ls | Legal(ls)
      ensures Text(ls) != addr
    {
      if |done| < |ls| {
        var tail := ls[|done|..];
        assert GoodLabels(tail);
        TextCases(tail, rest, k);
        hide Text, GoodLabel, LabelChar;
      }
    }
  }

  lemma FoundLast(addr: seq<byte>, done: seq<octets>, rest: seq<byte>)
    requires Found(addr, done, rest) && GoodLabels(done) && GoodLabel(rest)
    ensures GoodLabels(done + [rest]) && Text(done + [rest]) == addr
    ensures forall ls :: GoodLabels(ls) && |ls| > 0 && Text(ls) == addr ==> ls == done + [rest]
  {
    var all := done + [rest];
    assert GoodLabels(all) && done <= all && all[|done|..] == [rest];
    forall ls | GoodLabels(ls) && |ls| > 0 && Text(ls) == addr
      ensures ls == all
    {
      var tail := ls[|done|..];
      assert GoodLabels(tail);
      TextCases(tail, rest, |rest|);
      assert ls == done + tail;
    }
  }

  ghost predicate Accepted(addr: seq<byte>) {
    exists ls :: Legal(ls) && Text(ls) == addr
  }

  /** What was there, and then the encoding. */
  ghost predicate Written(addr: seq<byte>, before: seq<byte>, now: seq<byte>) {
    exists ls :: Legal(ls) && Text(ls) == addr && now == before + Encoded(ls) + [0]
  }

  /** The decision at the end of the text. */
  lemma FoundAll(addr: seq<byte>, done: seq<octets>, rest: seq<byte>, from: seq<byte>)
    requires Found(addr, done, rest) && GoodLabels(done) && GoodLabel(rest) && |addr| <= 253
    ensures !Letter(rest[0]) ==> !Accepted(addr)
    ensures Letter(rest[0]) ==> Accepted(addr) && Written(addr, from, from + Encoded(done + [rest]) + [0])
  {
    FoundLast(addr, done, rest);
    hide Text, Found, GoodLabel, Encoded;
    if Letter(rest[0]) {
      assert Legal(done + [rest]);
    }
  }

  lemma IsGood(l: octets)
    requires 1 <= |l| <= 63 && forall i :: 0 <= i < |l| ==> LabelChar(l[i])
    ensures GoodLabel(l)
  {
  }

  lemma NotLong(addr: seq<byte>)
    requires |addr| > 253
    ensures !Accepted(addr)
  {
  }

  /** A bytestreamw over a fixed buffer. */
  class Writer {
    var buf: array<byte>
    var at: nat

    ghost predicate Valid()
      reads this
    {
      at <= buf.Length
    }

    ghost function Contents(): (s: seq<byte>)
      reads this, buf
      requires Valid()
      ensures |s| == at
    {
      buf[..at]
    }

    constructor (size: nat)
      ensures Valid() && fresh(buf) && buf.Length == size && Contents() == []
    {
      buf, at := new byte[size], 0;
    }

    method U8(b: byte)
      requires Valid() && at < buf.Length
      modifies this`at, buf
      ensures Valid() && Contents() == old(Contents()) + [b]
    {
      buf[at] := b;
      at := at + 1;
    }

    method Bytes(s: seq<byte>)
      requires Valid() && at + |s| <= buf.Length
      modifies this`at, buf
      ensures Valid() && Contents() == old(Contents()) + s
    {
      forall i | 0 <= i < |s| {
        buf[at + i] := s[i];
      }
      at := at + |s|;
      assert buf[..at] == old(buf[..at]) + s;
    }
  }

  method WriteLabel(out: Writer, l: octets, ghost before: seq<byte>, ghost done: seq<octets>)
    requires out.Valid() && out.at + 1 + |l| <= out.buf.Length
    requires GoodLabel(l) && GoodLabels(done) && out.Contents() == before + Encoded(done)
    modifies out`at, out.buf
    ensures out.Valid() && out.at == old(out.at) + 1 + |l| && GoodLabels(done + [l])
    ensures out.Contents() == before + Encoded(done + [l])
  {
    EncodedMore(done, l);
    IsShort(l);
    hide Encoded, GoodLabel;
    out.U8(|l|);
    out.Bytes(l);
    assert before + Encoded(done) + [|l|] + l == before + (Encoded(done) + [|l|] + l);
  }

  lemma IsShort(l: octets)
    requires GoodLabel(l)
    ensures |l| <= 63
  {
  }

  function Slice(s: seq<byte>, from: nat, to: nat): (r: seq<byte>)
    requires from <= to <= |s|
    ensures |r| == to - from
  {
    s[from..to]
  }

  /** Where the scan stands: labels are done, and the next one has so far only characters of a label. */
  ghost predicate Scanned(addr: seq<byte>, done: seq<octets>, labelStart: nat, it: nat) {
    && labelStart <= it <= |addr|
    && (forall i :: labelStart <= i < it ==> LabelChar(addr[i]))
    && GoodLabels(done) && Found(addr, done, addr[labelStart..])
  }

  lemma ScanStart(addr: seq<byte>)
    ensures Scanned(addr, [], 0, 0) && GoodLabels([]) && Encoded([]) == []
  {
    FoundNone(addr);
    hide Found;
    assert addr[0..] == addr;
  }

  lemma ScanOn(addr: seq<byte>, done: seq<octets>, labelStart: nat, it: nat)
    requires Scanned(addr, done, labelStart, it) && it < |addr| && LabelChar(addr[it])
    ensures Scanned(addr, done, labelStart, it + 1)
  {
    hide Found, LabelChar, GoodLabels;
  }

  lemma ScanEnd(addr: seq<byte>, done: seq<octets>, labelStart: nat, it: nat)
    requires Scanned(addr, done, labelStart, it) && (it < |addr| ==> !LabelChar(addr[it]))
    ensures it == labelStart || it - labelStart > 63 ==> !Accepted(addr)
    ensures it < |addr| && addr[it] != DOT ==> !Accepted(addr)
    ensures 1 <= it - labelStart <= 63 ==> GoodLabel(Slice(addr, labelStart, it))
  {
    hide *;
    ScanChars(addr, done, labelStart, it);
    var rest, k := addr[labelStart..], it - labelStart;
    assert k < |rest| ==> rest[k] == addr[it];
    if 1 <= k <= 63 {
      SliceIs(addr, labelStart, it);
      IsGood(Slice(addr, labelStart, it));
    }
    if k == 0 || k > 63 || (it < |addr| && addr[it] != DOT) {
      FoundWrong(addr, done, rest, k);
    }
  }

  lemma SliceIs(s: seq<byte>, a: nat, b: nat)
    requires a <= b <= |s|
    ensures forall i :: 0 <= i < b - a ==> Slice(s, a, b)[i] == s[a..][i]
  {
  }

  lemma Cut(s: seq<byte>, a: nat, b: nat)
    requires a <= b < |s|
    ensures s[a..][b - a] == s[b] && s[a..][b - a + 1..] == s[b + 1..] && s[a..][..b - a] == Slice(s, a, b)
  {
  }

  lemma CutChars(s: seq<byte>, a: nat, b: nat)
    requires a <= b <= |s| && forall i :: a <= i < b ==> LabelChar(s[i])
    ensures forall i :: 0 <= i < b - a ==> LabelChar(s[a..][i])
  {
    hide LabelChar;
  }

  lemma GoodMore(ls: seq<octets>, l: octets)
    requires GoodLabels(ls) && GoodLabel(l)
    ensures GoodLabels(ls + [l])
  {
    hide GoodLabel;
  }

  lemma ScanChars(addr: seq<byte>, done: seq<octets>, labelStart: nat, it: nat)
    requires Scanned(addr, done, labelStart, it)
    ensures labelStart <= it <= |addr| && GoodLabels(done) && Found(addr, done, addr[labelStart..])
    ensures forall i :: 0 <= i < it - labelStart ==> LabelChar(addr[labelStart..][i])
  {
    hide LabelChar, Found, GoodLabels;
    CutChars(addr, labelStart, it);
  }

  lemma ScanBegin(addr: seq<byte>, done: seq<octets>, labelStart: nat)
    requires labelStart <= |addr| && GoodLabels(done) && Found(addr, done, addr[labelStart..])
    ensures Scanned(addr, done, labelStart, labelStart)
  {
    hide LabelChar, Found, GoodLabels;
  }

  lemma ScanDot(addr: seq<byte>, done: seq<octets>, labelStart: nat, it: nat)
    requires Scanned(addr, done, labelStart, it) && it < |addr| && addr[it] == DOT
    requires labelStart <= it && GoodLabel(Slice(addr, labelStart, it))
    ensures Scanned(addr, done + [Slice(addr, labelStart, it)], it + 1, it + 1)
  {
    hide *;
    ScanChars(addr, done, labelStart, it);
    Cut(addr, labelStart, it);
    FoundMore(addr, done, addr[labelStart..], it - labelStart);
    GoodMore(done, Slice(addr, labelStart, it));
    ScanBegin(addr, done + [Slice(addr, labelStart, it)], it + 1);
  }

  lemma ScanAll(addr: seq<byte>, done: seq<octets>, labelStart: nat, before: seq<byte>)
    requires Scanned(addr, done, labelStart, |addr|) && |addr| <= 253 && GoodLabel(Slice(addr, labelStart, |addr|))
    ensures var l := Slice(addr, labelStart, |addr|);
      && GoodLabels(done + [l]) && labelStart < |addr|
      && (Letter(addr[labelStart]) <==> Accepted(addr))
      && (Letter(addr[labelStart]) ==> Written(addr, before, before + Encoded(done + [l]) + [0]))
  {
    var l := Slice(addr, labelStart, |addr|);
    assert addr[labelStart..] == l;
    EncodedMore(done, l);
    FoundAll(addr, done, l, before);
    hide Found, LabelChar, GoodLabels, Accepted, Written, Encoded, Letter;
  }

  method WriteEnd(addr: seq<byte>, out: Writer, labelStart: nat, ghost before: seq<byte>, ghost done: seq<octets>) returns (ok: bool)
    requires out.Valid() && out.at < out.buf.Length
    requires Scanned(addr, done, labelStart, |addr|) && |addr| <= 253 && labelStart <= |addr| && GoodLabel(Slice(addr, labelStart, |addr|))
    requires GoodLabels(done + [Slice(addr, labelStart, |addr|)]) && out.Contents() == before + Encoded(done + [Slice(addr, labelStart, |addr|)])
    modifies out`at, out.buf
    ensures out.Valid() && out.at == old(out.at) + 1
    ensures ok <==> Accepted(addr)
    ensures ok ==> Written(addr, before, out.Contents())
  {
    hide *;
    ScanAll(addr, done, labelStart, before);
    out.U8(0);
    ok := Letter(addr[labelStart]);
  }

  /** The end of a label. */
  method EndLabel(addr: seq<byte>, out: Writer, labelStart: nat, it: nat, ghost before: seq<byte>, ghost done: seq<octets>) returns (stop: bool, ok: bool)
    requires Scanned(addr, done, labelStart, it) && labelStart <= it <= |addr| && labelStart <= 254 && (it < |addr| ==> !LabelChar(addr[it]))
    requires out.Valid() && out.at == |before| + labelStart && |before| + 256 <= out.buf.Length
    requires GoodLabels(done) && out.Contents() == before + Encoded(done)
    modifies out`at, out.buf
    ensures out.Valid() && |before| + labelStart <= out.at <= |before| + 255
    ensures stop ==> (ok <==> Accepted(addr)) && (ok ==> Written(addr, before, out.Contents()))
    ensures !stop ==> it < |addr| && it <= 253 && out.at == |before| + it + 1 && GoodLabels(done + [Slice(addr, labelStart, it)])
    ensures !stop ==> Scanned(addr, done + [Slice(addr, labelStart, it)], it + 1, it + 1)
    ensures !stop ==> out.Contents() == before + Encoded(done + [Slice(addr, labelStart, it)])
  {
    hide *;
    stop, ok := true, false;
    if it > 253 {
      NotLong(addr);
      return;
    }
    ScanEnd(addr, done, labelStart, it);
    var labelLen := it - labelStart;
    if labelLen == 0 || labelLen > 63 {
      return;
    }
    WriteLabel(out, Slice(addr, labelStart, it), before, done);
    if it == |addr| {
      ok := WriteEnd(addr, out, labelStart, before, done);
      return;
    }
    if addr[it] != DOT {
      return;
    }
    ScanDot(addr, done, labelStart, it);
    stop := false;
  }

  /** encode_domain_name: accepts exactly the legal names, and writes 255 bytes at most whether it does or not. */
  method EncodeDomainName(addr: seq<byte>, out: Writer) returns (ok: bool)
    requires out.Valid() && out.at + 256 <= out.buf.Length
    modifies out`at, out.buf
    ensures out.Valid() && old(out.at) <= out.at <= old(out.at) + 255
    ensures ok <==> Accepted(addr)
    ensures ok ==> Written(addr, old(out.Contents()), out.Contents())
  {
    ghost var before := out.Contents();
    ghost var done: seq<octets> := [];
    var labelStart, it := 0, 0;
    ScanStart(addr);
    hide *;
    while true
      invariant Scanned(addr, done, labelStart, it) && labelStart <= it <= |addr| && labelStart <= 254 && GoodLabels(done)
      invariant out.Valid() && out.at == |before| + labelStart && out.Contents() == before + Encoded(done)
      decreases |addr| - it
    {
      if it < |addr| && LabelChar(addr[it]) {
        ScanOn(addr, done, labelStart, it);
        it := it + 1;
        continue;
      }
      var stop;
      stop, ok := EndLabel(addr, out, labelStart, it, before, done);
      if stop {
        return;
      }
      done := done + [Slice(addr, labelStart, it)];
      it := it + 1;
      labelStart := it;
    }
  }

  // ----- names that are too long to be found again -----

  /** A name in a packet is recognised as the one that was asked for exactly if it is that name, and at most 252
      characters long; names may have 253. */
  lemma AnswerExact(ls: seq<octets>, p: seq<byte>, pos: nat)
    requires Legal(ls)
    ensures (exists m :: Denotes(Encoded(ls) + [0], 0, m) && Denotes(p, pos, m) && Size(m) <= 254)
      <==> Denotes(p, pos, ls) && |Text(ls)| <= 252
  {
    EncodedSize(ls);
    EncodedDenotes([], ls, []);
    var q := Encoded(ls) + [0];
    assert [] + Encoded(ls) + [0] + [] == q;
    forall m | Denotes(q, 0, m)
      ensures m == ls
    {
      DenotesOne(q, 0, m, ls);
    }
    hide Denotes, Encoded, Text;
  }

  /** Any accepted name, encoded and compared with itself as a server would send it back. */
  method Echo(addr: seq<byte>) returns (ok: bool, same: bool)
    ensures ok <==> Accepted(addr)
    ensures ok ==> (same <==> |addr| <= 252)
  {
    var out := new Writer(256);
    ok := EncodeDomainName(addr, out);
    same := false;
    if ok {
      var query := out.buf[..out.at];
      EchoExact(addr, query);
      hide *;
      var q := new Stream(query, 0);
      var p := new Stream(query, 0);
      same := SameName(q, p);
    }
  }

  lemma EchoExact(addr: seq<byte>, query: seq<byte>)
    requires Written(addr, [], query)
    ensures (exists m :: Denotes(query, 0, m) && Denotes(query, 0, m) && Size(m) <= 254) <==> |addr| <= 252
  {
    hide Denotes, Text, Encoded;
    var ls :| Legal(ls) && Text(ls) == addr && query == [] + Encoded(ls) + [0];
    hide Legal, GoodLabels;
    assert query == Encoded(ls) + [0];
    EncodedDenotes([], ls, []);
    assert [] + Encoded(ls) + [0] + [] == query;
    AnswerExact(ls, query, 0);
  }

  function Letters(n: nat): octets {
    seq(n, i => 97)
  }

  /** There are accepted names of 253 characters. */
  lemma Longest() returns (addr: seq<byte>)
    ensures |addr| == 253 && Accepted(addr)
  {
    var a, b := Letters(63), Letters(61);
    var ls := [a, a, a, b];
    assert ls[1..] == [a, a, b] && [a, a, b][1..] == [a, b] && [a, b][1..] == [b];
    assert Text([b]) == b;
    assert Text([a, b]) == a + [DOT] + b;
    assert Text([a, a, b]) == a + [DOT] + Text([a, b]);
    assert Text(ls) == a + [DOT] + Text([a, a, b]);
    addr := Text(ls);
    assert GoodLabels(ls) && Letter(b[0]);
    assert Legal(ls);
  }
}

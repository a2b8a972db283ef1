/** Runs that starve on output and later, in the same block, on input. */
module MixedRuns {
  import opened Bits
  import opened Canonical
  import opened DeflateSpec
  import opened DeflateLaws
  import opened DeflateEncode
  import DeflateParse
  import FixedCodes
  import InflateRuns
  import opened I = Inflator

  /** Input ran out in the symbol loop while m_state may still name an earlier pause for output: going on from
      there is right exactly when that is not so, or when the stream is wrong and is found to be wrong still. */
  lemma ResumeExact(inf: Inflator, m: Outcome)
    requires inf.Answered(MoreInput, m)
    ensures inf.PointOk(inf.Entry())
    ensures inf.MeaningAt(inf.Entry()) == m <==> !inf.Pausing() || (m == Fail && inf.MeaningAt(inf.Entry()) == Fail)
    ensures m.Done? && inf.Pausing() && inf.MeaningAt(inf.Entry()).Done? ==> |inf.MeaningAt(inf.Entry()).out| > |m.out|
  {
    var t, pos, out, final := inf.T(), inf.Pos(), inf.emitted, inf.Final();
    var lit, dist := inf.symbolCode.lens, inf.distanceCode.lens;
    inf.StarvedParts(m);
    hide Tokens, Raw, Inflator.InputOk, Inflator.Tables, Stream, Inflator.T, Inflator.Final;
    if inf.state == Litbyte {
      TokensParallel(t, pos, out + [inf.savedA], out, lit, dist, final);
    } else if inf.state == State.Copy && inf.savedB <= |out| {
      TokensParallel(t, pos, Extend(out, inf.savedB, inf.savedA), out, lit, dist, final);
    }
  }

  /** The output with the old literal, or the old copy, once more. */
  ghost function Repeated(inf: Inflator): seq<byte>
    reads inf`state, inf`savedA, inf`savedB, inf`emitted
    requires inf.Pausing() && (inf.state == State.Copy ==> 1 <= inf.savedB <= |inf.emitted|)
    requires inf.state == Litbyte ==> inf.savedA < 256
  {
    if inf.state == Litbyte then inf.emitted + [inf.savedA] else Extend(inf.emitted, inf.savedB, inf.savedA)
  }

  /** What going on gives then, whether the stream is right or wrong: exactly if what is left encodes tokens and
      blocks that reach back no further than the output with the repetition. */
  lemma StaleExact(inf: Inflator, m: Outcome, total: seq<byte>, end: nat)
    requires inf.Answered(MoreInput, m) && inf.Pausing()
    ensures inf.InputOk() && inf.PointOk(inf.Entry()) && (inf.state == Litbyte ==> inf.savedA < 256) && (inf.state == State.Copy ==> 1 <= inf.savedB)
    ensures inf.MeaningAt(inf.Entry()) == Done(total, end) <==>
      && (inf.state == State.Copy ==> inf.savedB <= |inf.emitted|)
      && exists ts, bs :: DeflateParse.GoesOn(ts, bs, inf.T(), inf.Pos(), Repeated(inf), inf.symbolCode.lens, inf.distanceCode.lens, inf.Final(), total, end)
  {
    hide *;
    StaleIs(inf, m);
    if inf.state == State.Copy && inf.savedB > |inf.emitted| {
      return;
    }
    DeflateParse.TokensExactly(inf.T(), inf.Pos(), Repeated(inf), inf.symbolCode.lens, inf.distanceCode.lens, inf.Final(), total, end);
  }

  lemma StaleIs(inf: Inflator, m: Outcome)
    requires inf.Answered(MoreInput, m) && inf.Pausing()
    ensures inf.InputOk() && inf.Pos() >= 0 && inf.PointOk(inf.Entry()) && (inf.state == Litbyte || inf.state == State.Copy)
    ensures (inf.state == Litbyte ==> inf.savedA < 256) && (inf.state == State.Copy ==> 1 <= inf.savedB)
    ensures Usable(inf.symbolCode.lens) && Usable(inf.distanceCode.lens)
    ensures inf.MeaningAt(inf.Entry()) ==
      if inf.state == State.Copy && inf.savedB > |inf.emitted| then Fail
      else Tokens(inf.T(), inf.Pos(), Repeated(inf), inf.symbolCode.lens, inf.distanceCode.lens, inf.Final())
  {
    inf.StarvedParts(m);
    UsableTables(inf);
    hide Tokens, Raw, Stream, Usable, Extend, Inflator.OutputOk, Inflator.Tables, Inflator.T, Inflator.Final, Window;
  }

  lemma UsableTables(inf: Inflator)
    ensures inf.Tables() ==> Usable(inf.symbolCode.lens) && Usable(inf.distanceCode.lens)
  {
    hide Usable;
  }

  /** So a run that goes on from such a state never gives the right output. */
  method ResumeStale(inf: Inflator, piece: seq<byte>, last: bool, ghost m: Outcome) returns (r: Ret)
    requires inf.Answered(MoreInput, m) && m.Done? && inf.Pausing()
    requires inf.fed + |piece| <= |inf.total| && piece == inf.total[inf.fed..inf.fed + |piece|]
    requires last ==> inf.fed + |piece| == |inf.total|
    modifies inf, inf.huffSymbol, inf.huffDistance, inf.cur
    ensures r == RetDone ==> |inf.emitted| > |m.out|
  {
    hide Inflator.MeaningAt, Inflator.PointOk, Inflator.Valid, Inflator.Answered, Inflator.Entry;
    ResumeExact(inf, m);
    inf.StarvedParts(m);
    inf.ValidParts();
    ghost var stale := inf.MeaningAt(inf.Entry());
    inf.SetInput(piece, last);
    r := inf.Inflate();
    if r == RetDone {
      inf.DoneParts(stale);
    }
  }

  /** Input in any pieces and output in buffers of any sizes, each the old one enlarged. It stops, with
      MoreInput, when input runs out in the symbol loop while m_state names an earlier pause for output; up to
      there it is right, and ResumeStale tells what going on would give. */
  method InflateMixed(pieces: seq<seq<byte>>, sizes: seq<nat>) returns (r: Ret, written: seq<byte>, inf: Inflator)
    requires |pieces| > 0 && |sizes| > 0 && forall i, j :: 0 <= i < j < |sizes| ==> sizes[i] <= sizes[j]
    ensures fresh(inf)
    ensures var m := InflateRuns.Inflated(InflateRuns.Flatten(pieces));
      match r
      case RetDone => m.Done? && m.out == written
      case RetError => m == Fail
      case MoreOutput => |written| == sizes[|sizes| - 1] && (m.Done? ==> written < m.out)
      case MoreInput => inf.Answered(MoreInput, m) && inf.Pausing()
  {
    hide *;
    ghost var m := InflateRuns.Inflated(InflateRuns.Flatten(pieces));
    var buffer := new byte[sizes[0]];
    InflateRuns.FlattenNone(pieces);
    inf := InflateRuns.BeginEmpty(InflateRuns.Flatten(pieces), buffer);
    PausingNow(inf);
    var k, g := 0, 1;
    r := MoreInput;
    var stale := false;
    while (r == MoreInput && !stale) || (r == MoreOutput && g < |sizes|)
      invariant fresh(inf) && fresh(inf.huffSymbol) && fresh(inf.huffDistance) && fresh(buffer)
      invariant k <= |pieces| && 1 <= g <= |sizes| && buffer.Length == sizes[g - 1]
      invariant inf.Answered(r, m) && (r == MoreOutput ==> inf.Owing(inf.Entry())) && (r == MoreInput ==> (stale <==> inf.Pausing()))
      invariant inf.total == InflateRuns.Flatten(pieces) && inf.inLast == (k == |pieces|)
      invariant inf.fed == |InflateRuns.Flatten(pieces[..k])| && inf.cur == buffer && inf.prev == null
      decreases |pieces| - k + |sizes| - g, if r == MoreInput || r == MoreOutput then 1 else 0
    {
      if r == MoreInput {
        InflateRuns.NextPiece(inf, pieces, k);
        k := k + 1;
      } else {
        buffer := Larger(inf, sizes[g], m);
        g := g + 1;
      }
      r := inf.Inflate();
      stale := inf.state == Litbyte || inf.state == State.Copy;
      PausingNow(inf);
    }
    written := [];
    if r == RetDone {
      inf.DoneParts(m);
      written := buffer[..inf.outAt];
    } else if r == RetError {
      InflateRuns.Erred(inf, m);
    } else if r == MoreOutput {
      inf.PausedParts(m);
      inf.ValidParts();
      inf.FullOutput();
      written := buffer[..];
      InflateRuns.OwingMore(inf, m);
    }
  }

  lemma PausingNow(inf: Inflator)
    ensures inf.Pausing() <==> inf.state == Litbyte || inf.state == State.Copy
  {
  }

  /** ret.resize, and set_output_grow. */
  method Larger(inf: Inflator, size: nat, ghost meant: Outcome) returns (larger: array<byte>)
    requires inf.Answered(MoreOutput, meant) && inf.prev == null && size >= inf.cur.Length
    modifies inf`cur
    ensures fresh(larger) && larger.Length == size && inf.cur == larger
    ensures inf.Valid() && inf.PointOk(inf.Entry()) && inf.MeaningAt(inf.Entry()) == meant
  {
    hide *;
    inf.PausedParts(meant);
    inf.ValidParts();
    inf.FullOutput();
    larger := new byte[size];
    ghost var was := inf.cur[..];
    forall i | 0 <= i < inf.cur.Length {
      larger[i] := inf.cur[i];
    }
    assert larger[..inf.cur.Length] == was;
    inf.SetOutputGrow(larger);
  }

  /** A fixed block of two letters a, and padding. */
  function Example(): (e: seq<byte>)
    ensures |e| == 8
  {
    [0x4B, 0x4C, 0x04, 0, 0, 0, 0, 0]
  }

  /** What it means, and what going on from a saved letter means after both letters. */
  lemma ExampleMeaning()
    ensures var s := Stream(Example());
      && Block(s, 0, []) == Done([97, 97], 26)
      && Tokens(s, 19, [97, 97] + [97], FixedLiteral(), FixedDistance(), true) == Done([97, 97] + [97], 26)
      && Field(s, 0, 3) == 3
  {
    var s := Stream(Example());
    var ts: seq<token>, none: seq<token> := [Literal(97), Literal(97)], [];
    ExampleIs();
    hide *;
    ExampleBits(s);
    ExampleTokens(s, ts);
    ExampleOut(ts);
    FixedUsable();
    TokensRoundTrip(s, 3, [], FixedLiteral(), FixedDistance(), true, ts);
    TokensRoundTrip(s, 19, [97, 97] + [97], FixedLiteral(), FixedDistance(), true, none);
    NextCases(s, 26, [97, 97], true);
    NextCases(s, 26, [97, 97] + [97], true);
    BlockCases(s, 0, []);
    Powers();
    FieldAt(s, 0, 3, 3);
  }

  lemma ExampleIs()
    ensures Example() == [0x4B, 0x4C, 0x04, 0, 0, 0, 0, 0]
  {
  }

  function ExampleCodes(): Codes {
    Codes(FixedLiteral(), FixedDistance(), true)
  }

  /** Without room for output it pauses at the first letter; with room for three bytes it goes on to the end of
      the second letter, where fewer than 48 bits are left. */
  lemma ExampleCourses(entry: I.Point)
    ensures var s := Stream(Example());
      && Literals(s, 3, [], 0, 64, ExampleCodes(), entry) == Pauses(97, 11, [], ExampleCodes())
      && Literals(s, 11, [97], 2, 64, ExampleCodes(), entry) == Starves(19, [97] + [97], ExampleCodes(), entry)
      && Literals(s, 3, [], 3, 64, ExampleCodes(), entry) == Starves(19, [97] + [97], ExampleCodes(), entry)
  {
    var none: seq<byte> := [];
    assert none + [97] == [97];
    var s := Stream(Example());
    ExampleIs();
    hide Stream, Example, Decode, FixedLiteral, FixedDistance, Codeword, StartsWith, MsbOf, BitsOf;
    ExampleBits(s);
    FixedCodes.FixedCodewords(97);
    FixedUsable();
    SymbolAt(FixedLiteral(), s, 3, 97);
    SymbolAt(FixedLiteral(), s, 11, 97);
  }

  // ----- runs that go on from a stale state -----

  /** A block of fixed codes that begins with a letter a; its first bytes data are what is supplied, all of it, but
      not marked as the end. m is what it means. With room for no output at first and then for as much as comes,
      input runs out at pos, out being the output then; stale is what going on from the old letter means. */
  datatype Case = Case(data: seq<byte>, m: Outcome, pos: nat, out: seq<byte>, stale: Outcome)

  ghost predicate Fits(c: Case) {
    && c.stale.Done? && |c.stale.out| > 0 && |c.data| >= 2
    && var s, n := Stream(c.data), 8 * |c.data|;
       && Block(s, 0, []) == c.m && Field(s, 0, 3) == 3
       && Literals(s, 3, [], 0, n, ExampleCodes(), AtTokens) == Pauses(97, 11, [], ExampleCodes())
       && Literals(s, 11, [97], |c.stale.out| - 1, n, ExampleCodes(), AtLiteral(97)) == Starves(c.pos, c.out, ExampleCodes(), AtLiteral(97))
       && Tokens(s, c.pos, c.out + [97], FixedLiteral(), FixedDistance(), true) == c.stale
  }

  ghost predicate Standing(inf: Inflator, data: seq<byte>, pos: nat, out: seq<byte>)
    reads inf
  {
    && inf.total == data && inf.fed == |data| && !inf.inLast && inf.prev == null
    && inf.Pos() == pos && inf.emitted == out && inf.CodesNow() == ExampleCodes() && inf.Entry() == AtLiteral(97)
  }

  /** All of the input is there, and room for so much output. */
  method Prepared(data: seq<byte>, size: nat, ghost m: Outcome) returns (inf: Inflator)
    requires |data| >= 2 && Block(Stream(data), 0, []) == m && Field(Stream(data), 0, 3) == 3
    ensures fresh(inf) && fresh(inf.huffSymbol) && fresh(inf.huffDistance) && fresh(inf.cur)
    ensures inf.total == data && inf.fed == |data| && !inf.inLast && inf.prev == null && inf.emitted == [] && inf.outAt == 0
    ensures inf.Valid() && inf.PointOk(inf.Entry()) && inf.MeaningAt(inf.Entry()) == m && inf.cur.Length == size
    ensures inf.CourseOf(inf.Entry()) == Literals(Stream(data), 3, [], size, 8 * |data|, ExampleCodes(), AtTokens)
  {
    hide Block, Tokens, Stream, Field, Literals, FixedLiteral, FixedDistance, Inflator.InputOk;
    hide Inflator.OutputOk, Inflator.Separate, Inflator.CourseOf;
    inf := new Inflator(data);
    inf.SetInput(data, false);
    var buffer := new byte[size];
    inf.SetOutputFirst(buffer);
    FixedIsNext(inf);
    inf.BlockCourse();
  }

  lemma FixedIsNext(inf: Inflator)
    requires inf.InputOk() && inf.Pos() == 0 && |inf.total| >= 2 && Field(Stream(inf.total), 0, 3) == 3
    ensures inf.FixedNext() && inf.T() == Stream(inf.total)
  {
    hide Stream, Inflator.InputOk, Field;
  }

  method FirstCall(ghost c: Case, data: seq<byte>) returns (inf: Inflator, r: Ret)
    requires Fits(c) && data == c.data
    ensures fresh(inf) && fresh(inf.huffSymbol) && fresh(inf.huffDistance) && fresh(inf.cur)
    ensures r == MoreOutput && inf.Answered(r, c.m) && Standing(inf, c.data, 11, [])
  {
    hide *;
    FitsStart(c);
    inf := Prepared(data, 0, c.m);
    r := inf.Inflate();
    PausesThere(inf, c.data, r);
  }

  lemma FitsStart(c: Case)
    requires Fits(c)
    ensures |c.data| >= 2 && Block(Stream(c.data), 0, []) == c.m && Field(Stream(c.data), 0, 3) == 3 && c.stale.Done? && |c.stale.out| > 0
    ensures Literals(Stream(c.data), 3, [], 0, 8 * |c.data|, ExampleCodes(), AtTokens) == Pauses(97, 11, [], ExampleCodes())
  {
    hide Block, Stream, Field, Literals, Tokens;
  }

  lemma PausesThere(inf: Inflator, data: seq<byte>, r: Ret)
    requires inf.total == data && inf.fed == |data| && !inf.inLast && inf.prev == null
    requires inf.Met(r, Pauses(97, 11, [], ExampleCodes()))
    ensures r == MoreOutput && Standing(inf, data, 11, [])
  {
    hide ExampleCodes;
  }

  lemma StandingParts(inf: Inflator, data: seq<byte>, pos: nat, out: seq<byte>)
    requires Standing(inf, data, pos, out)
    ensures inf.total == data && inf.fed == |data| && !inf.inLast && inf.prev == null && inf.T() == Stream(data)
    ensures inf.Pos() == pos && inf.emitted == out && inf.CodesNow() == ExampleCodes() && inf.Entry() == AtLiteral(97)
  {
    hide Stream, ExampleCodes;
  }

  lemma StandsThere(inf: Inflator, data: seq<byte>, r: Ret, pos: nat, out: seq<byte>)
    requires inf.total == data && inf.fed == |data| && !inf.inLast && inf.prev == null
    requires inf.Met(r, Starves(pos, out, ExampleCodes(), AtLiteral(97)))
    ensures r == MoreInput && Standing(inf, data, pos, out)
  {
    hide ExampleCodes;
  }

  /** set_output_grow, and what comes next then. */
  method Regrow(inf: Inflator, buffer: array<byte>, ghost c: Case)
    requires Fits(c) && inf.Answered(MoreOutput, c.m) && Standing(inf, c.data, 11, []) && buffer.Length == |c.stale.out|
    requires (inf.huffSymbol as object) != buffer && (inf.huffDistance as object) != buffer
    modifies inf`cur
    ensures inf.Valid() && inf.PointOk(inf.Entry()) && inf.MeaningAt(inf.Entry()) == c.m && inf.cur == buffer
    ensures inf.CourseOf(inf.Entry()) == Starves(c.pos, c.out, ExampleCodes(), AtLiteral(97))
  {
    hide *;
    StandingParts(inf, c.data, 11, []);
    FirstRoom(inf, buffer, c.m);
    CourseThere(inf, c);
  }

  method FirstRoom(inf: Inflator, buffer: array<byte>, ghost m: Outcome)
    requires inf.Answered(MoreOutput, m) && inf.prev == null && |inf.emitted| == 0
    requires (inf.huffSymbol as object) != buffer && (inf.huffDistance as object) != buffer
    modifies inf`cur
    ensures inf.Valid() && inf.PointOk(inf.Entry()) && inf.MeaningAt(inf.Entry()) == m && inf.cur == buffer && inf.outAt == 0
    ensures inf.Pos() == old(inf.Pos()) && inf.CodesNow() == old(inf.CodesNow()) && inf.Entry() == old(inf.Entry())
  {
    hide *;
    inf.PausedParts(m);
    inf.ValidParts();
    inf.FullOutput();
    NothingWritten(inf.cur, buffer);
    inf.SetOutputGrow(buffer);
  }

  lemma NothingWritten(a: array<byte>, b: array<byte>)
    ensures a.Length == 0 ==> b[..a.Length] == a[..]
  {
  }

  lemma CourseThere(inf: Inflator, c: Case)
    requires Fits(c) && inf.Valid() && inf.Entry() == AtLiteral(97) && inf.PointOk(inf.Entry()) && !inf.inLast
    requires inf.T() == Stream(c.data) && inf.fed == |c.data| && inf.Pos() == 11 && |inf.emitted| == 0 && inf.CodesNow() == ExampleCodes()
    requires inf.cur.Length == |c.stale.out| && inf.outAt == 0
    ensures inf.CourseOf(inf.Entry()) == Starves(c.pos, c.out, ExampleCodes(), AtLiteral(97))
  {
    hide *;
    FitsSecond(c);
    inf.LiteralCourse(97);
    assert inf.emitted + [97] == [97];
  }

  lemma FitsSecond(c: Case)
    requires Fits(c)
    ensures |c.stale.out| > 0
    ensures Literals(Stream(c.data), 11, [97], |c.stale.out| - 1, 8 * |c.data|, ExampleCodes(), AtLiteral(97)) == Starves(c.pos, c.out, ExampleCodes(), AtLiteral(97))
  {
    hide Block, Stream, Field, Literals, Tokens;
  }

  method SecondCall(inf: Inflator, buffer: array<byte>, ghost c: Case) returns (r: Ret)
    requires Fits(c) && inf.Answered(MoreOutput, c.m) && Standing(inf, c.data, 11, []) && buffer.Length == |c.stale.out|
    requires (inf.huffSymbol as object) != buffer && (inf.huffDistance as object) != buffer
    modifies inf, inf.huffSymbol, inf.huffDistance, buffer
    ensures r == MoreInput && inf.Answered(r, c.m) && Standing(inf, c.data, c.pos, c.out) && inf.cur == buffer
  {
    hide *;
    StandingParts(inf, c.data, 11, []);
    Regrow(inf, buffer, c);
    r := inf.Inflate();
    StandsThere(inf, c.data, r, c.pos, c.out);
  }

  /** The end of the input is announced. */
  method Announce(inf: Inflator, ghost c: Case)
    requires Fits(c) && inf.Answered(MoreInput, c.m) && Standing(inf, c.data, c.pos, c.out)
    modifies inf`input, inf`inAt, inf`inLast, inf`fed
    ensures inf.Valid() && inf.PointOk(inf.Entry()) && inf.MeaningAt(inf.Entry()) == c.stale && inf.inLast && inf.prev == null
  {
    hide *;
    StandingParts(inf, c.data, c.pos, c.out);
    Stale(inf, c);
    inf.StarvedParts(c.m);
    inf.ValidParts();
    var nothing: seq<byte> := [];
    assert nothing == inf.total[inf.fed..inf.fed];
    inf.SetInput(nothing, true);
  }

  method ThirdCall(inf: Inflator, ghost c: Case) returns (r: Ret)
    requires Fits(c) && inf.Answered(MoreInput, c.m) && Standing(inf, c.data, c.pos, c.out) && inf.cur.Length == |c.stale.out|
    modifies inf, inf.huffSymbol, inf.huffDistance, inf.cur
    ensures r == RetDone && inf.cur == old(inf.cur) && inf.cur[..] == c.stale.out
  {
    hide *;
    FitsStart(c);
    Announce(inf, c);
    r := inf.Inflate();
    JustFits(inf, r, c.stale);
    inf.DoneParts(c.stale);
    assert inf.cur[..] == inf.cur[..inf.cur.Length];
  }

  /** With all input there and just enough room, the end is reached. */
  lemma JustFits(inf: Inflator, r: Ret, m: Outcome)
    requires inf.Answered(r, m) && m.Done? && inf.inLast && inf.prev == null && inf.cur.Length >= |m.out|
    requires r == MoreOutput ==> inf.Owing(inf.Entry())
    ensures r == RetDone
  {
    hide *;
    if r == RetError {
      InflateRuns.Erred(inf, m);
    } else if r == MoreInput {
      inf.StarvedParts(m);
    } else if r == MoreOutput {
      inf.PausedParts(m);
      inf.ValidParts();
      inf.FullOutput();
      InflateRuns.OwingMore(inf, m);
    }
  }

  lemma Stale(inf: Inflator, c: Case)
    requires Fits(c) && inf.Answered(MoreInput, c.m) && Standing(inf, c.data, c.pos, c.out)
    ensures inf.InputOk() && inf.PointOk(inf.Entry()) && inf.MeaningAt(inf.Entry()) == c.stale
  {
    hide *;
    FitsStale(c);
    StandingParts(inf, c.data, c.pos, c.out);
    PausingThere(inf);
    StaleIs(inf, c.m);
    CodesThere(inf);
  }

  lemma FitsStale(c: Case)
    requires Fits(c)
    ensures Tokens(Stream(c.data), c.pos, c.out + [97], FixedLiteral(), FixedDistance(), true) == c.stale
  {
    hide Block, Stream, Field, Literals, Tokens;
  }

  lemma PausingThere(inf: Inflator)
    requires inf.Entry() == AtLiteral(97)
    ensures inf.Pausing() && inf.state == Litbyte && inf.savedA == 97 && Repeated(inf) == inf.emitted + [97]
  {
  }

  lemma CodesThere(inf: Inflator)
    requires inf.CodesNow() == ExampleCodes()
    ensures inf.symbolCode.lens == FixedLiteral() && inf.distanceCode.lens == FixedDistance() && inf.Final()
  {
    hide FixedLiteral, FixedDistance;
  }

  /** The whole run: the input is supplied, not marked as the last; there is no room for output, then room for as
      much as comes, then word that the input has ended. */
  method StaleCase(data: seq<byte>, size: nat, ghost c: Case) returns (r1: Ret, r2: Ret, r3: Ret, out: seq<byte>)
    requires Fits(c) && data == c.data && size == |c.stale.out|
    ensures r1 == MoreOutput && r2 == MoreInput && r3 == RetDone && out == c.stale.out
  {
    hide *;
    var inf;
    inf, r1 := FirstCall(c, data);
    var buffer := new byte[size];
    r2 := SecondCall(inf, buffer, c);
    r3 := ThirdCall(inf, c);
    out := buffer[..];
  }

  /** The right output is two letters; three come out. */
  method StaleRun() returns (r1: Ret, r2: Ret, r3: Ret, out: seq<byte>)
    ensures r1 == MoreOutput && r2 == MoreInput && r3 == RetDone && out == [97, 97] + [97]
    ensures Block(Stream(Example()), 0, []) == Done([97, 97], 26)
  {
    ExampleMeaning();
    ExampleFits();
    hide *;
    ghost var c := Case(Example(), Done([97, 97], 26), 19, [97] + [97], Done([97, 97] + [97], 26));
    assert |c.stale.out| == 3;
    r1, r2, r3, out := StaleCase(Example(), 3, c);
  }

  lemma ExampleFits()
    ensures Fits(Case(Example(), Done([97, 97], 26), 19, [97] + [97], Done([97, 97] + [97], 26)))
  {
    ExampleMeaning();
    ExampleCourses(AtTokens);
    ExampleCourses(AtLiteral(97));
    TwoLetters();
    hide Block, Stream, Example, Field, Literals, Tokens, ExampleCodes, FixedLiteral, FixedDistance;
  }

  lemma TwoLetters()
    ensures var one: seq<byte> := [97]; var two: seq<byte> := [97, 97]; one + [97] == two && |two + [97]| == 3
  {
  }

  // ----- unused_input -----

  /** Where the decompressor stands when it has read both letters and wants more input. */
  ghost predicate Reading(inf: Inflator)
    reads inf, inf.cur, inf.prev, inf.huffSymbol, inf.huffDistance
  {
    inf.Answered(MoreInput, Done([97, 97], 26)) && !inf.Pausing() && inf.total == Example() && inf.fed == 8 && inf.prev == null && inf.cur.Length == 3
  }

  method ReadLetters() returns (inf: Inflator, r: Ret)
    ensures fresh(inf) && fresh(inf.huffSymbol) && fresh(inf.huffDistance) && fresh(inf.cur)
    ensures r == MoreInput && Reading(inf)
  {
    ExampleMeaning();
    ExampleCourses(AtTokens);
    hide *;
    inf := Prepared(Example(), 3, Done([97, 97], 26));
    r := inf.Inflate();
    StarvesThere(inf, r);
  }

  lemma StarvesThere(inf: Inflator, r: Ret)
    requires inf.Answered(r, Done([97, 97], 26)) && inf.total == Example() && inf.fed == 8 && inf.prev == null && inf.cur.Length == 3
    requires inf.Met(r, Starves(19, [97] + [97], ExampleCodes(), AtTokens))
    ensures r == MoreInput && Reading(inf)
  {
    hide Example, ExampleCodes, Inflator.Answered;
  }

  /** The last piece of input, which is empty. */
  method EndLetters(inf: Inflator) returns (r: Ret)
    requires Reading(inf)
    modifies inf, inf.huffSymbol, inf.huffDistance, inf.cur
    ensures r == RetDone && inf.InputOk() && 0 <= inf.nbits && inf.Pos() == 26 && inf.fed == 8 && inf.input == []
  {
    hide *;
    ghost var m := Done([97, 97], 26);
    NextIsEmpty(inf);
    var nothing: seq<byte> := [];
    inf.SetInput(nothing, true);
    r := inf.Inflate();
    assert |m.out| == 2;
    JustFits(inf, r, m);
    inf.DoneParts(m);
  }

  lemma NextIsEmpty(inf: Inflator)
    requires Reading(inf)
    ensures inf.Valid() && inf.PointOk(inf.Entry()) && inf.MeaningAt(inf.Entry()) == Done([97, 97], 26)
    ensures !inf.inLast && inf.inAt == |inf.input| && inf.fed == 8 == |inf.total| && inf.prev == null && inf.cur.Length == 3
    ensures inf.total[inf.fed..inf.fed] == []
  {
    inf.StarvedParts(Done([97, 97], 26));
    hide Example, Inflator.Answered, Inflator.Valid, Inflator.PointOk, Inflator.MeaningAt;
  }

  /** A run after which unused_input does not count the bytes of the last piece of input: that is empty, and the
      answer is four. */
  method UnusedRun() returns (inf: Inflator, r1: Ret, r2: Ret, n: nat)
    ensures r1 == MoreInput && r2 == RetDone && inf.input == [] && n == 4 && inf.UnusedOfLast() == 0
  {
    hide *;
    inf, r1 := ReadLetters();
    r2 := EndLetters(inf);
    FromEight(inf);
    n := inf.UnusedInput();
  }

  lemma FromEight(inf: Inflator)
    requires inf.fed == 8 && inf.input == []
    ensures inf.LastFrom() == 8
  {
  }

  lemma ExampleTokens(s: bits, ts: seq<token>)
    requires ts == [Literal(97), Literal(97)]
    requires StartsWith(s, 3, MsbOf(145, 8)) && StartsWith(s, 11, MsbOf(145, 8)) && StartsWith(s, 19, Zeros(7))
    ensures HaveCodes(ts, FixedLiteral(), FixedDistance()) && HaveCodes([], FixedLiteral(), FixedDistance())
    ensures var e := TokensBits(ts, FixedLiteral(), FixedDistance()); |e| == 23 && StartsWith(s, 3, e)
    ensures var e := TokensBits([], FixedLiteral(), FixedDistance()); |e| == 7 && StartsWith(s, 19, e)
  {
    var c, z := MsbOf(145, 8), Zeros(7);
    FixedCodes.FixedCodewords(97);
    hide FixedLiteral, FixedDistance, Codeword, StartsWith, MsbOf;
    var more: seq<token>, none: seq<token> := [Literal(97)], [];
    assert ts[1..] == more && more[1..] == none;
    assert TokensBits(none, FixedLiteral(), FixedDistance()) == z;
    assert TokensBits(more, FixedLiteral(), FixedDistance()) == c + z;
    assert TokensBits(ts, FixedLiteral(), FixedDistance()) == c + (c + z);
    DeflateParse.Join(s, 11, c, z);
    DeflateParse.Join(s, 3, c, c + z);
  }

  lemma ExampleOut(ts: seq<token>)
    requires ts == [Literal(97), Literal(97)]
    ensures Reaching(ts, 0) && Expand(ts, []) == [97, 97] && Reaching([], 2) && Reaching([], 3)
    ensures Expand([], [97, 97]) == [97, 97] && Expand([], [97, 97] + [97]) == [97, 97] + [97]
  {
    var more, out: seq<byte>, none: seq<token> := [Literal(97)], [], [];
    assert ts[1..] == more && more[1..] == none;
    assert Apply(Literal(97), out) == [97] && Apply(Literal(97), [97]) == [97, 97];
    assert Expand(none, [97, 97]) == [97, 97];
    assert Expand(more, [97]) == Expand(none, [97, 97]);
  }

  /** The first 26 bits of the example. */
  predicate ExampleStart(s: bits) {
    && |s| >= 26 && s[0] && s[1] && !s[2]
    && LetterAt(s, 3) && LetterAt(s, 11)
    && forall i :: 19 <= i < 26 ==> !s[i]
  }

  predicate LetterAt(s: bits, p: nat)
    requires p + 8 <= |s|
  {
    s[p] && !s[p + 1] && !s[p + 2] && s[p + 3] && !s[p + 4] && !s[p + 5] && !s[p + 6] && s[p + 7]
  }

  lemma ExampleBits(s: bits)
    requires s == Stream([0x4B, 0x4C, 0x04, 0, 0, 0, 0, 0])
    ensures StartsWith(s, 0, BitsOf(3, 3)) && StartsWith(s, 3, MsbOf(145, 8)) && StartsWith(s, 11, MsbOf(145, 8)) && StartsWith(s, 19, Zeros(7))
  {
    hide Stream, BitsOf, MsbOf, StartsWith;
    ExampleBytes(s);
    HeaderAt(s);
    LetterStarts(s, 3);
    LetterStarts(s, 11);
    ZerosStart(s, 19, 7);
  }

  lemma ZerosStart(s: bits, p: nat, n: nat)
    requires p + n <= |s| && forall i :: p <= i < p + n ==> !s[i]
    ensures StartsWith(s, p, Zeros(n))
  {
    assert s[p..p + n] == Zeros(n);
  }

  lemma HeaderAt(s: bits)
    requires |s| >= 3 && s[0] && s[1] && !s[2]
    ensures StartsWith(s, 0, BitsOf(3, 3))
  {
    var h := BitsOf(3, 3);
    assert h[0] && h[1] && !h[2];
    assert s[0..3] == h;
  }

  lemma LetterStarts(s: bits, p: nat)
    requires p + 8 <= |s| && LetterAt(s, p)
    ensures StartsWith(s, p, MsbOf(145, 8))
  {
    hide MsbOf;
    var c := MsbOf(145, 8);
    LetterCode(c);
    assert s[p..p + 8] == c;
  }

  lemma LetterCode(c: bits)
    requires c == MsbOf(145, 8)
    ensures LetterAt(c, 0)
  {
  }

  lemma ExampleBytes(s: bits)
    requires s == Stream([0x4B, 0x4C, 0x04, 0, 0, 0, 0, 0])
    ensures ExampleStart(s)
  {
    hide Stream, BitsOf;
    var d: seq<byte> := [0x4B, 0x4C, 0x04, 0, 0, 0, 0, 0];
    EightBits(s, d, 0, 0);
    EightBits(s, d, 1, 8);
    EightBits(s, d, 2, 16);
    EightBits(s, d, 3, 24);
    ExampleValues();
  }

  lemma EightBits(s: bits, d: seq<byte>, k: nat, p: nat)
    requires s == Stream(d) && k < |d| && p == 8 * k
    ensures p + 8 <= |s| && var b := BitsOf(d[k], 8);
      && s[p] == b[0] && s[p + 1] == b[1] && s[p + 2] == b[2] && s[p + 3] == b[3]
      && s[p + 4] == b[4] && s[p + 5] == b[5] && s[p + 6] == b[6] && s[p + 7] == b[7]
  {
    hide Stream, BitsOf;
    ByteAt(d, k);
    var b := BitsOf(d[k], 8);
    assert s[p + 0] == b[0];
  }

  lemma ByteAt(d: seq<byte>, k: nat)
    requires k < |d|
    ensures forall i :: 0 <= i < 8 ==> Stream(d)[8 * k + i] == BitsOf(d[k], 8)[i]
  {
    hide BitsOf;
    I.StreamSlice(d, k, 1);
    var t, b := Stream(d)[8 * k..8 * (k + 1)], BitsOf(d[k], 8);
    assert d[k..k + 1] == [d[k]];
    assert t == b;
    forall i | 0 <= i < 8
      ensures Stream(d)[8 * k + i] == b[i]
    {
      assert t[i] == b[i];
    }
  }

  lemma ExampleValues()
    ensures var a := BitsOf(0x4B, 8); a[0] && a[1] && !a[2] && a[3] && !a[4] && !a[5] && a[6] && !a[7]
    ensures var b := BitsOf(0x4C, 8); !b[0] && !b[1] && b[2] && b[3] && !b[4] && !b[5] && b[6] && !b[7]
    ensures var c := BitsOf(0x04, 8); !c[0] && !c[1] && c[2] && !c[3] && !c[4] && !c[5] && !c[6] && !c[7]
    ensures var z := BitsOf(0, 8); !z[0] && !z[1]
  {
    hide BitsOf;
    Value1();
    Value2();
    Value3();
    Value4();
  }

  lemma Value1()
    ensures var a := BitsOf(0x4B, 8); a[0] && a[1] && !a[2] && a[3] && !a[4] && !a[5] && a[6] && !a[7]
  {
  }

  lemma Value2()
    ensures var b := BitsOf(0x4C, 8); !b[0] && !b[1] && b[2] && b[3] && !b[4] && !b[5] && b[6] && !b[7]
  {
  }

  lemma Value3()
    ensures var c := BitsOf(0x04, 8); !c[0] && !c[1] && c[2] && !c[3] && !c[4] && !c[5] && !c[6] && !c[7]
  {
  }

  lemma Value4()
    ensures var z := BitsOf(0, 8); !z[0] && !z[1]
  {
  }
}

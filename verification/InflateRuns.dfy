/** Whole runs of the decompressor: the one-shot functions of arlib/deflate-decomp.cpp, and the ways its
    interface allows input and output to be handed over in pieces. */
module InflateRuns {
  import opened Bits
  import opened Canonical
  import opened DeflateSpec
  import opened DeflateLaws
  import E = DeflateEncode
  import opened I = Inflator

  /** What a complete raw DEFLATE stream decompresses to. */
  function Inflated(input: seq<byte>): Outcome {
    Block(Stream(input), 0, [])
  }

  /** The whole bytes of input left over after a successful run. */
  function Unused(input: seq<byte>, end: nat): int {
    |input| - (end + 7) / 8
  }

  method Begin(input: seq<byte>, buffer: array<byte>) returns (inf: Inflator)
    ensures fresh(inf) && fresh(inf.huffSymbol) && fresh(inf.huffDistance) && inf.Valid()
    ensures inf.PointOk(inf.Entry()) && inf.MeaningAt(inf.Entry()) == Inflated(input)
    ensures inf.total == input && inf.inLast && inf.prev == null && inf.cur == buffer && inf.emitted == [] && inf.outAt == 0
  {
    hide Block, Stream, Inflator.MeaningAt, Inflator.PointOk, Inflator.InputOk, Inflator.OutputOk, Inflator.Separate;
    inf := new Inflator(input);
    inf.SetInput(input, true);
    inf.SetOutputFirst(buffer);
  }

  method Resized(buffer: array<byte>) returns (larger: array<byte>)
    ensures fresh(larger) && larger.Length == 2 * buffer.Length && larger[..buffer.Length] == buffer[..]
  {
    larger := new byte[2 * buffer.Length];
    forall i | 0 <= i < buffer.Length {
      larger[i] := buffer[i];
    }
  }

  /** bytearray inflate(bytesr): the whole output, from a buffer that doubles as needed. */
  method InflateBytes(input: seq<byte>) returns (ret: seq<byte>)
    ensures ret == match Inflated(input)
      case Done(out, end) => if Unused(input, end) == 0 then out else []
      case Fail => []
  {
    hide Inflated, Inflator.MeaningAt, Inflator.PointOk, Inflator.Valid, Inflator.Answered, Inflator.Entry, Inflator.Bound, Inflator.LastFrom, Inflator.UnusedOfLast;
    var buffer := new byte[if 4096 >= |input| * 8 then 4096 else |input| * 8];
    var inf := Begin(input, buffer);
    ghost var bound := inf.Bound(inf.Entry());
    var r := inf.Inflate();
    while r == MoreOutput
      invariant fresh(inf) && fresh(inf.huffSymbol) && fresh(inf.huffDistance) && fresh(buffer) && buffer.Length >= 4096
      invariant inf.Answered(r, Inflated(input))
      invariant inf.total == input && inf.inLast && inf.prev == null && inf.cur == buffer
      invariant r == MoreOutput ==> inf.Bound(inf.Entry()) <= bound
      decreases bound + 258 * 8 - buffer.Length
    {
      buffer := Enlarge(inf, input, buffer);
      r := inf.Inflate();
    }
    ret := [];
    if r == RetDone {
      inf.DoneParts(Inflated(input));
      var unused := inf.UnusedInput();
      if unused == 0 {
        ret := buffer[..inf.outAt];
      }
    } else if r == RetError {
      Erred(inf, Inflated(input));
    } else {
      inf.StarvedParts(Inflated(input));
    }
  }

  lemma Erred(inf: Inflator, m: Outcome)
    requires inf.Answered(RetError, m)
    ensures m == Fail
  {
  }

  /** ret.resize(ret.size()*2); inf.set_output_grow(ret) */
  method Enlarge(inf: Inflator, input: seq<byte>, buffer: array<byte>) returns (larger: array<byte>)
    requires inf.Answered(MoreOutput, Inflated(input)) && inf.prev == null && inf.cur == buffer
    modifies inf`cur
    ensures fresh(larger) && larger.Length == 2 * buffer.Length && inf.cur == larger
    ensures inf.Valid() && inf.PointOk(inf.Entry()) && inf.MeaningAt(inf.Entry()) == Inflated(input)
    ensures buffer.Length <= inf.Bound(inf.Entry()) + 258 * 8
    ensures inf.Bound(inf.Entry()) == old(inf.Bound(inf.Entry()))
  {
    hide *;
    inf.PausedParts(Inflated(input));
    inf.ValidParts();
    inf.FullOutput();
    inf.BoundLow(inf.Entry());
    larger := Resized(buffer);
    inf.SetOutputGrow(larger);
  }

  /** A pause for output says that the output is longer than what has been written. */
  lemma OwingMore(inf: Inflator, m: Outcome)
    requires inf.InputOk() && inf.PointOk(inf.Entry()) && inf.MeaningAt(inf.Entry()) == m && inf.Owing(inf.Entry())
    ensures m.Done? ==> inf.emitted < m.out
  {
    var t, pos, out, final := inf.T(), inf.Pos(), inf.emitted, inf.Final();
    var lit, dist := inf.symbolCode.lens, inf.distanceCode.lens;
    hide Tokens, Raw, Inflator.InputOk, Inflator.Tables, Stream, Inflator.T, Inflator.Final;
    match inf.Entry()
    case AtLiteral(symbol) => TokensParallel(t, pos, out + [symbol], [], lit, dist, final);
    case AtCopy(count, back) =>
      if back <= |out| {
        TokensParallel(t, pos, Extend(out, back, count), [], lit, dist, final);
        ExtendPrefix(out, back, count);
      }
    case AtRaw(len) => RawMore(t, pos, out, len, final);
    case _ =>
  }

  lemma RawMore(s: bits, pos: nat, out: seq<byte>, len: nat, final: bool)
    requires len > 0
    ensures var m := Raw(s, pos, out, len, final); m.Done? ==> out < m.out
  {
    hide Raw, Field;
    RawStep(s, pos, out, len, final);
    if pos + 8 <= |s| {
      RawParallel(s, pos + 8, out + [Field(s, pos, 8)], [], len - 1, final);
    }
  }

  /** bool inflate(bytesw, bytesr): true exactly when the output fits the buffer and nothing is left over. */
  method InflateExact(out: array<byte>, input: seq<byte>) returns (ok: bool)
    modifies out
    ensures var m := Inflated(input);
      ok == (m.Done? && |m.out| == out.Length && Unused(input, m.end) == 0)
    ensures ok ==> out[..] == Inflated(input).out
  {
    hide Inflated, Inflator.MeaningAt, Inflator.PointOk, Inflator.Valid, Inflator.Answered, Inflator.Entry, Inflator.Bound, Inflator.Owing;
    var inf := Begin(input, out);
    var r := inf.Inflate();
    ok := false;
    if r == RetDone {
      inf.DoneParts(Inflated(input));
      var unused := inf.UnusedInput();
      ok := inf.outAt == out.Length && unused == 0;
    } else if r == RetError {
      Erred(inf, Inflated(input));
    } else if r == MoreInput {
      inf.StarvedParts(Inflated(input));
    } else {
      inf.PausedParts(Inflated(input));
      inf.ValidParts();
      inf.FullOutput();
      OwingMore(inf, Inflated(input));
    }
  }

  // ----- output in chunks -----

  /** Decompresses into chunks of at least 32 KB, each handed to set_output_next when the one before is
      full; they may be different arrays or the same one again and again. The bytes of a full chunk are
      taken when it is full. */
  method InflateChunks(input: seq<byte>, chunks: seq<array<byte>>) returns (r: Ret, written: seq<byte>)
    requires |chunks| > 0 && forall i :: 0 <= i < |chunks| ==> chunks[i].Length >= 32768
    modifies set i | 0 <= i < |chunks| :: chunks[i]
    ensures r != MoreInput
    ensures r == RetDone ==> Inflated(input).Done? && Inflated(input).out == written
    ensures r == RetError ==> Inflated(input) == Fail
    ensures r == MoreOutput ==> |written| >= 32768 * |chunks|
    ensures r == MoreOutput && Inflated(input).Done? ==> written < Inflated(input).out
  {
    hide *;
    var inf := Begin(input, chunks[0]);
    var k := 1;
    written := [];
    r := inf.Inflate();
    while r == MoreOutput && k < |chunks|
      invariant fresh(inf) && fresh(inf.huffSymbol) && fresh(inf.huffDistance) && 1 <= k <= |chunks|
      invariant inf.Answered(r, Inflated(input)) && (r == MoreOutput ==> inf.Owing(inf.Entry()))
      invariant inf.total == input && inf.inLast && inf.cur == chunks[k - 1]
      invariant |inf.emitted| - inf.outAt == |written| && written <= inf.emitted
      invariant |written| >= 32768 * (k - 1)
    {
      written := NextChunk(inf, input, written, chunks[k]);
      k := k + 1;
      r := inf.Inflate();
    }
    if r == RetDone {
      inf.DoneParts(Inflated(input));
      written := written + inf.cur[..inf.outAt];
    } else if r == RetError {
      Erred(inf, Inflated(input));
    } else if r == MoreInput {
      inf.StarvedParts(Inflated(input));
    } else {
      inf.PausedParts(Inflated(input));
      inf.ValidParts();
      inf.FullOutput();
      written := written + inf.cur[..];
      OwingMore(inf, Inflated(input));
    }
  }

  method NextChunk(inf: Inflator, input: seq<byte>, written: seq<byte>, chunk: array<byte>) returns (w: seq<byte>)
    requires inf.Answered(MoreOutput, Inflated(input)) && inf.cur.Length >= 32768 && chunk.Length >= 32768
    requires inf.outAt <= |inf.emitted| && written == inf.emitted[..|inf.emitted| - inf.outAt]
    requires (inf.huffSymbol as object) != chunk && (inf.huffDistance as object) != chunk
    modifies inf`prev, inf`cur, inf`outAt
    ensures inf.Valid() && inf.PointOk(inf.Entry()) && inf.MeaningAt(inf.Entry()) == Inflated(input)
    ensures inf.cur == chunk && inf.outAt == 0 && w == inf.emitted == written + old(inf.cur[..])
  {
    hide *;
    inf.PausedParts(Inflated(input));
    inf.ValidParts();
    inf.FullOutput();
    w := written + inf.cur[..];
    inf.SetOutputNext(chunk);
  }

  // ----- input in chunks -----

  function Flatten(pieces: seq<seq<byte>>): seq<byte> {
    if |pieces| == 0 then [] else Flatten(pieces[..|pieces| - 1]) + pieces[|pieces| - 1]
  }

  lemma FlattenNone(pieces: seq<seq<byte>>)
    ensures Flatten(pieces[..0]) == []
  {
  }

  lemma {:induction false} FlattenAt(pieces: seq<seq<byte>>, k: nat)
    requires k < |pieces|
    ensures var a, b := |Flatten(pieces[..k])|, |Flatten(pieces[..k + 1])|;
      a + |pieces[k]| == b <= |Flatten(pieces)| && Flatten(pieces)[a..b] == pieces[k]
    decreases |pieces|
  {
    var n := |pieces| - 1;
    if k == n {
      assert pieces[..k + 1] == pieces;
    } else {
      FlattenAt(pieces[..n], k);
      assert pieces[..n][..k] == pieces[..k] && pieces[..n][..k + 1] == pieces[..k + 1];
      assert pieces[..n][k] == pieces[k];
    }
  }

  /** Decompresses input that arrives in pieces, the last one marked, into one buffer. */
  method InflatePieces(pieces: seq<seq<byte>>, buffer: array<byte>) returns (r: Ret, written: seq<byte>)
    requires |pieces| > 0
    modifies buffer
    ensures r != MoreInput
    ensures r == RetDone ==> Inflated(Flatten(pieces)).Done? && Inflated(Flatten(pieces)).out == written <= buffer[..]
    ensures r == RetError ==> Inflated(Flatten(pieces)) == Fail
    ensures r == MoreOutput ==> |written| == buffer.Length
    ensures r == MoreOutput && Inflated(Flatten(pieces)).Done? ==> written < Inflated(Flatten(pieces)).out
  {
    hide *;
    FlattenNone(pieces);
    var inf := BeginEmpty(Flatten(pieces), buffer);
    var k := 0;
    r := MoreInput;
    while r == MoreInput
      invariant fresh(inf) && fresh(inf.huffSymbol) && fresh(inf.huffDistance) && k <= |pieces|
      invariant inf.Answered(r, Inflated(Flatten(pieces))) && (r == MoreOutput ==> inf.Owing(inf.Entry()))
      invariant inf.total == Flatten(pieces) && inf.inLast == (k == |pieces|) && inf.fed == |Flatten(pieces[..k])|
      invariant inf.cur == buffer && inf.prev == null && (r == MoreInput ==> !inf.Pausing())
      decreases |pieces| - k, if r == MoreInput then 1 else 0
    {
      NextPiece(inf, pieces, k);
      k := k + 1;
      r := inf.Inflate();
    }
    written := [];
    if r == RetDone {
      inf.DoneParts(Inflated(Flatten(pieces)));
      written := buffer[..inf.outAt];
    } else if r == RetError {
      Erred(inf, Inflated(Flatten(pieces)));
    } else {
      inf.PausedParts(Inflated(Flatten(pieces)));
      inf.ValidParts();
      inf.FullOutput();
      written := buffer[..];
      OwingMore(inf, Inflated(Flatten(pieces)));
    }
  }

  method BeginEmpty(ghost input: seq<byte>, buffer: array<byte>) returns (inf: Inflator)
    ensures fresh(inf) && fresh(inf.huffSymbol) && fresh(inf.huffDistance) && inf.total == input && inf.fed == 0
    ensures inf.Answered(MoreInput, Inflated(input)) && !inf.inLast && inf.prev == null && inf.cur == buffer && !inf.Pausing()
  {
    hide Block, Stream, Inflator.MeaningAt, Inflator.PointOk, Inflator.InputOk, Inflator.OutputOk, Inflator.Separate;
    inf := new Inflator(input);
    inf.SetOutputFirst(buffer);
  }

  method NextPiece(inf: Inflator, pieces: seq<seq<byte>>, k: nat)
    requires inf.Answered(MoreInput, Inflated(Flatten(pieces))) && inf.total == Flatten(pieces) && !inf.Pausing()
    requires k <= |pieces| && inf.inLast == (k == |pieces|) && inf.fed == |Flatten(pieces[..k])|
    modifies inf`input, inf`inAt, inf`inLast, inf`fed
    ensures inf.Valid() && inf.PointOk(inf.Entry()) && inf.MeaningAt(inf.Entry()) == Inflated(Flatten(pieces))
    ensures k < |pieces| && inf.inLast == (k + 1 == |pieces|) && inf.fed == |Flatten(pieces[..k + 1])|
  {
    hide Flatten, Inflated, Inflator.MeaningAt, Inflator.PointOk, Inflator.Valid, Inflator.Answered, Inflator.Entry;
    inf.StarvedParts(Inflated(Flatten(pieces)));
    FlattenAt(pieces, k);
    assert pieces[..|pieces|] == pieces;
    inf.SetInput(pieces[k], k + 1 == |pieces|);
  }

  /** The bytes left over are those that begin after the end of the stream. */
  lemma UnusedExactly(input: seq<byte>, end: nat, k: nat)
    requires k < |input|
    ensures Unused(input, end) == k <==> 8 * (|input| - k - 1) < end <= 8 * (|input| - k)
  {
  }

  // ----- the inverse of encoding -----

  /** An encoding of blocks, padded to whole bytes, decompresses to what the blocks stand for, with nothing
      left over: so InflateBytes returns it, and InflateExact finds it in a buffer of that size. */
  lemma InverseOfEncoding(bs: seq<E.Coded>, input: seq<byte>)
    requires E.AllWritable(bs) && E.AllReach(bs, [])
    requires StartsWith(Stream(input), 0, E.StreamBits(bs, 0)) && 8 * |input| < |E.StreamBits(bs, 0)| + 8
    ensures Inflated(input) == Done(E.StreamOut(bs, []), |E.StreamBits(bs, 0)|)
    ensures Unused(input, |E.StreamBits(bs, 0)|) == 0
  {
    hide E.AllWritable, E.AllReach, E.StreamBits, E.StreamOut, Block, Stream;
    E.RoundTrip(Stream(input), 0, [], bs);
    assert |E.StreamBits(bs, 0)| <= 8 * |input|;
  }
}

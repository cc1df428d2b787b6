/**
 The frame format that `cycle_buffer` reads back out of its byte stream: a native (little-endian)
 four-byte total length, one byte holding the id length plus one, the id, and the data.
 */
module Framing {
  import opened Bytes

  const HEADER := 4
  const PREFIX := 5

  datatype RawFrame = Frame(id: Message, data: Message) {
    /** The frames the format can express and the reader will hand back. */
    predicate Valid() {
      && |id| <= 254
      && |id| + |data| >= 1
      && Length() <= INT32_MAX
    }

    function Length(): int {
      PREFIX + |id| + |data|
    }

    function Encode(): Message
      requires Valid()
    {
      Int32Bytes(Length()) + [|id| + 1] + id + data
    }
  }

  type Frame = f: RawFrame | f.Valid() witness Frame([], [0])

  /** What one framed read does: nothing, a thrown `length_error`, or a frame handed back. */
  datatype FrameResult = NoFrame | Corrupt | Got(frame: Frame)

  function Int32Bytes(v: int): (s: Message)
    requires 0 <= v <= INT32_MAX
    ensures |s| == HEADER
  {
    [v % 256, v / 0x100 % 256, v / 0x1_0000 % 256, v / 0x100_0000]
  }

  /** The signed value of four little-endian bytes. */
  function Int32Of(s: Message): int
    requires |s| == HEADER
  {
    var b0: int, b1: int, b2: int, b3: int := s[0], s[1], s[2], s[3];
    var u := b0 + 0x100 * b1 + 0x1_0000 * b2 + 0x100_0000 * b3;
    if u <= INT32_MAX then u else u - 0x1_0000_0000
  }

  lemma Int32RoundTrip(v: int)
    requires 0 <= v <= INT32_MAX
    ensures Int32Of(Int32Bytes(v)) == v
  {
    var a, b := v / 0x100, v / 0x1_0000;
    assert b == a / 0x100;
    assert v / 0x100_0000 == b / 0x100;
  }

  /** Splits the bytes of one frame, `whole`, into id and data. */
  function ParseFrame(whole: Message): (r: FrameResult)
    requires PREFIX < |whole| <= INT32_MAX
    ensures r.Got? ==> r.frame.Length() == |whole|
  {
    var len2 := whole[HEADER];
    if len2 == 0 || HEADER + len2 > |whole| then Corrupt
    else
      var f := Frame(whole[PREFIX..HEADER + len2], whole[HEADER + len2..]);
      assert f.Length() == |whole|;
      Got(f)
  }

  /** The meaning of a framed read of the buffered bytes `s`. */
  function DecodeHead(s: Message): (r: FrameResult)
    ensures r.Got? ==> r.frame.Length() <= |s|
  {
    if |s| <= PREFIX then NoFrame
    else
      var len := Int32Of(s[..HEADER]);
      if len < 0 then Corrupt
      else if len > |s| || len <= PREFIX then NoFrame
      else ParseFrame(s[..len])
  }

  /** The bytes a framed read leaves behind. */
  function AfterHead(s: Message): (rest: Message)
  {
    match DecodeHead(s)
    case Got(f) => s[f.Length()..]
    case _ => s
  }

  lemma DecodeWhole(f: Frame, rest: Message)
    ensures DecodeHead(f.Encode() + rest) == Got(f)
    ensures AfterHead(f.Encode() + rest) == rest
  {
    var s := f.Encode() + rest;
    assert s[..HEADER] == Int32Bytes(f.Length());
    Int32RoundTrip(f.Length());
    assert s[HEADER] == |f.id| + 1;
    assert s[PREFIX..PREFIX + |f.id|] == f.id;
    assert s[PREFIX + |f.id|..f.Length()] == f.data;
  }

  /** Four bytes, lowest first, as a signed number of 32 bits. */
  lemma Int32IsSigned(b: Message)
    requires |b| == HEADER
    ensures var u := b[0] as int + 0x100 * b[1] as int + 0x1_0000 * b[2] as int + 0x100_0000 * b[3] as int;
            && -0x8000_0000 <= Int32Of(b) <= 0x7fff_ffff
            && (Int32Of(b) == u || Int32Of(b) == u - 0x1_0000_0000)
  {
  }

  /** The layout: total length in four bytes, lowest first; id length plus one; the id; the data. */
  lemma EncodeLayout(f: Frame)
    ensures var s := f.Encode();
            && |s| == 5 + |f.id| + |f.data|
            && s[0] as int + 0x100 * s[1] as int + 0x1_0000 * s[2] as int + 0x100_0000 * s[3] as int == |s|
            && s[4] == |f.id| + 1 && s[5..5 + |f.id|] == f.id && s[5 + |f.id|..] == f.data
  {
    Int32RoundTrip(f.Length());
    assert f.Encode()[..HEADER] == Int32Bytes(f.Length());
  }

  /** A read hands back a frame only if the bytes begin with the encoding of that frame, and takes just those. */
  lemma DecodeIsSound(s: Message)
    requires DecodeHead(s).Got?
    ensures s == DecodeHead(s).frame.Encode() + AfterHead(s)
  {
    var f := DecodeHead(s).frame;
    Int32Unique(s[..HEADER]);
    assert s[..HEADER] == Int32Bytes(f.Length());
    assert s[HEADER] == |f.id| + 1;
    assert s[..f.Length()] == s[..HEADER] + [s[HEADER]] + f.id + f.data;
    assert s == s[..f.Length()] + s[f.Length()..];
  }

  /** Nothing is handed back, and nothing is wrong, while the frame is incomplete or its length says it is empty. */
  lemma NoFrameYet(s: Message)
    ensures DecodeHead(s) == NoFrame <==>
            |s| <= 5 || Int32Of(s[..4]) > |s| || 0 <= Int32Of(s[..4]) <= 5
    ensures !DecodeHead(s).Got? ==> AfterHead(s) == s
  {
  }

  lemma Int32Unique(b: Message)
    requires |b| == HEADER && Int32Of(b) >= 0
    ensures Int32Of(b) <= INT32_MAX && Int32Bytes(Int32Of(b)) == b
  {
    var b0: int, b1: int, b2: int, b3: int, v := b[0], b[1], b[2], b[3], Int32Of(b);
    assert v % 256 == b0 && v / 0x100 == b1 + 0x100 * b2 + 0x1_0000 * b3;
    assert v / 0x100 % 256 == b1 && v / 0x1_0000 == b2 + 0x100 * b3;
    assert v / 0x1_0000 % 256 == b2 && v / 0x100_0000 == b3;
  }

  lemma DecodePartial(f: Frame, part: Message)
    requires part < f.Encode()
    ensures DecodeHead(part) == NoFrame && AfterHead(part) == part
  {
    if |part| > PREFIX {
      assert part[..HEADER] == Int32Bytes(f.Length());
      Int32RoundTrip(f.Length());
    }
  }

  function EncodeAll(frames: seq<Frame>): (s: Message)
  {
    if frames == [] then [] else frames[0].Encode() + EncodeAll(frames[1..])
  }

  /** One use of the buffer by a framing client: append a chunk, or try to read a frame. */
  datatype Op = Chunk(bytes: Message) | TryRead

  datatype Trace = Trace(results: seq<FrameResult>, left: Message)

  /** The results of a run of operations on the buffered bytes `s`, and what is left in the buffer. */
  function Run(s: Message, ops: seq<Op>): (t: Trace)
    decreases ops
  {
    if ops == [] then Trace([], s)
    else match ops[0]
      case Chunk(b) => Run(s + b, ops[1..])
      case TryRead =>
        var t := Run(AfterHead(s), ops[1..]);
        Trace([DecodeHead(s)] + t.results, t.left)
  }

  function Written(ops: seq<Op>): (s: Message)
  {
    if ops == [] then []
    else (if ops[0].Chunk? then ops[0].bytes else []) + Written(ops[1..])
  }

  /** The frames among the results; a read that found no whole frame contributes nothing. */
  function Frames(results: seq<FrameResult>): (fs: seq<Frame>)
  {
    if results == [] then []
    else (if results[0].Got? then [results[0].frame] else []) + Frames(results[1..])
  }

  lemma ReadFromStream(frames: seq<Frame>, s: Message, future: Message)
    requires s + future == EncodeAll(frames)
    ensures DecodeHead(s) == NoFrame || (frames != [] && DecodeHead(s) == Got(frames[0]))
    ensures DecodeHead(s) == NoFrame <==> frames == [] || |s| < |frames[0].Encode()|
    ensures DecodeHead(s).Got? ==> AfterHead(s) + future == EncodeAll(frames[1..])
  {
    if frames != [] {
      var e := frames[0].Encode();
      var whole := EncodeAll(frames);
      if |s| < |e| {
        assert s == whole[..|s|] == e[..|s|];
        DecodePartial(frames[0], s);
      } else {
        assert s[..|e|] == whole[..|e|] == e;
        assert s == e + s[|e|..];
        DecodeWhole(frames[0], s[|e|..]);
        assert s[|e|..] + future == whole[|e|..];
      }
    }
  }

  /** The reads of trace `t` handed back the first `k` frames in order, and the rest is still to be read. */
  ghost predicate Delivers(t: Trace, frames: seq<Frame>, k: nat, future: Message) {
    && k <= |frames|
    && Corrupt !in t.results
    && Frames(t.results) == frames[..k]
    && t.left + future == EncodeAll(frames[k..])
  }

  lemma DeliversGot(t: Trace, frames: seq<Frame>, k: nat, future: Message)
    requires frames != [] && Delivers(t, frames[1..], k, future)
    ensures Delivers(Trace([Got(frames[0])] + t.results, t.left), frames, k + 1, future)
  {
  }

  lemma DeliversNone(t: Trace, frames: seq<Frame>, k: nat, future: Message)
    requires Delivers(t, frames, k, future)
    ensures Delivers(Trace([NoFrame] + t.results, t.left), frames, k, future)
  {
  }

  /** Prepending one read to a run of later operations that delivers what that read leaves to be read. */
  lemma ReadThenDelivers(frames: seq<Frame>, s: Message, t: Trace, rest: Message, future: Message, k: nat)
    returns (k': nat)
    requires s + rest == EncodeAll(frames)
    requires Delivers(t, if DecodeHead(s) == NoFrame then frames else frames[1..], k, future)
    ensures Delivers(Trace([DecodeHead(s)] + t.results, t.left), frames, k', future)
  {
    ReadFromStream(frames, s, rest);
    if DecodeHead(s) == NoFrame {
      DeliversNone(t, frames, k, future);
      k' := k;
    } else {
      DeliversGot(t, frames, k, future);
      k' := k + 1;
    }
  }

  /**
   However a stream of frames is cut into chunks, and wherever the reads fall between the chunks, the
   reads hand back the frames in order and nothing else; what is left is exactly the rest of the stream.
   */
  lemma {:induction false} ChunkingIsTransparent(frames: seq<Frame>, s: Message, ops: seq<Op>, future: Message)
    returns (k: nat)
    requires s + Written(ops) + future == EncodeAll(frames)
    ensures Delivers(Run(s, ops), frames, k, future)
    decreases ops
  {
    hide RawFrame.Encode, DecodeHead;
    if ops == [] {
      k := 0;
      assert s + [] + future == s + future;
    } else if ops[0].Chunk? {
      assert s + Written(ops) + future == (s + ops[0].bytes) + Written(ops[1..]) + future;
      k := ChunkingIsTransparent(frames, s + ops[0].bytes, ops[1..], future);
    } else {
      var rest := Written(ops[1..]) + future;
      assert s + rest == EncodeAll(frames) by {
        assert s + Written(ops) + future == s + rest;
      }
      ReadFromStream(frames, s, rest);
      assert AfterHead(s) + Written(ops[1..]) + future == AfterHead(s) + rest;
      k := ChunkingIsTransparent(if DecodeHead(s) == NoFrame then frames else frames[1..],
                                 AfterHead(s), ops[1..], future);
      k := ReadThenDelivers(frames, s, Run(AfterHead(s), ops[1..]), rest, future, k);
    }
  }

  function Reads(tries: nat): (ops: seq<Op>)
  {
    if tries == 0 then [] else [TryRead] + Reads(tries - 1)
  }

  lemma HeadOfStream(frames: seq<Frame>)
    ensures frames == [] ==> DecodeHead(EncodeAll(frames)) == NoFrame
    ensures frames != [] ==> DecodeHead(EncodeAll(frames)) == Got(frames[0])
    ensures frames != [] ==> AfterHead(EncodeAll(frames)) == EncodeAll(frames[1..])
  {
    if frames != [] {
      DecodeWhole(frames[0], EncodeAll(frames[1..]));
    }
  }

  lemma RunRead(s: Message, tries: nat)
    ensures var t := Run(AfterHead(s), Reads(tries));
            Run(s, Reads(tries + 1)) == Trace([DecodeHead(s)] + t.results, t.left)
  {
  }

  lemma {:induction false} DrainEmpty(tries: nat)
    ensures Delivers(Run([], Reads(tries)), [], 0, [])
  {
    if tries > 0 {
      RunRead([], tries - 1);
      DrainEmpty(tries - 1);
      DeliversNone(Run([], Reads(tries - 1)), [], 0, []);
    }
  }

  /** A whole stream is drained by as many reads as it holds frames. */
  lemma {:induction false} DrainReadsAll(frames: seq<Frame>, tries: nat)
    requires tries >= |frames|
    ensures Delivers(Run(EncodeAll(frames), Reads(tries)), frames, |frames|, [])
  {
    hide RawFrame.Encode, DecodeHead, AfterHead, Delivers, Run, Reads;
    if frames == [] {
      DrainEmpty(tries);
    } else {
      var s := EncodeAll(frames);
      HeadOfStream(frames);
      RunRead(s, tries - 1);
      DrainReadsAll(frames[1..], tries - 1);
      DeliversGot(Run(AfterHead(s), Reads(tries - 1)), frames, |frames| - 1, []);
    }
  }

  lemma {:induction false} RunAppend(s: Message, a: seq<Op>, b: seq<Op>)
    ensures Run(s, a + b).results == Run(s, a).results + Run(Run(s, a).left, b).results
    ensures Run(s, a + b).left == Run(Run(s, a).left, b).left
    decreases a
  {
    if a == [] {
      assert a + b == b;
    } else {
      assert (a + b)[1..] == a[1..] + b;
      match a[0]
      case Chunk(bytes) => RunAppend(s + bytes, a[1..], b);
      case TryRead => RunAppend(AfterHead(s), a[1..], b);
    }
  }

  lemma {:induction false} FramesAppend(a: seq<FrameResult>, b: seq<FrameResult>)
    ensures Frames(a + b) == Frames(a) + Frames(b)
  {
    if a == [] {
      assert a + b == b;
    } else {
      assert (a + b)[1..] == a[1..] + b;
      FramesAppend(a[1..], b);
      Associative(if a[0].Got? then [a[0].frame] else [], Frames(a[1..]), Frames(b));
    }
  }

  lemma DeliversThen(a: Trace, b: Trace, frames: seq<Frame>, k: nat)
    requires Delivers(a, frames, k, [])
    requires Delivers(b, frames[k..], |frames| - k, [])
    ensures Frames(a.results + b.results) == frames
    ensures b.left == []
  {
    FramesAppend(a.results, b.results);
    assert frames[k..][..|frames| - k] == frames[k..];
    assert b.left + [] == b.left;
  }

  /** Round trip: any chunking of a list of frames, any interleaved reads, then enough reads, returns the list. */
  lemma FramingRoundTrip(frames: seq<Frame>, ops: seq<Op>, tries: nat)
    requires Written(ops) == EncodeAll(frames)
    requires tries >= |frames|
    ensures Frames(Run([], ops + Reads(tries)).results) == frames
    ensures Run([], ops + Reads(tries)).left == []
  {
    assert [] + Written(ops) + [] == EncodeAll(frames);
    var k := ChunkingIsTransparent(frames, [], ops, []);
    var mid := Run([], ops);
    assert mid.left + [] == mid.left;
    DrainReadsAll(frames[k..], tries);
    DeliversThen(mid, Run(mid.left, Reads(tries)), frames, k);
    RunAppend([], ops, Reads(tries));
  }
}

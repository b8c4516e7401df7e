/**
 * The container layout that Encoder::finalize produces: a header of six
 * little-endian uint32 lengths, then the six streams, both in the fixed order
 * field, size-control, size-data, content-control, content-data, binary.
 *
 * ParseFrame is a reference reader for that layout; the lemmas show that the
 * layout is exactly invertible whenever every stream is shorter than 2^32
 * bytes, and not otherwise.
 */
module NimbleFrame {
  import opened Bytes

  datatype Option<T> = None | Some(value: T)

  /** The six streams of one encoding session, after the chunk encoders are flushed. */
  datatype Streams = Streams(
    field: seq<uint8>,
    sizeControl: seq<uint8>,
    sizeData: seq<uint8>,
    contentControl: seq<uint8>,
    contentData: seq<uint8>,
    binary: seq<uint8>)

  const StreamCount: nat := 6

  /** 6 * sizeof(std::uint32_t) */
  const HeaderSize: nat := 24

  /** The streams in the order the header describes them and the body lays them out. */
  function Segments(s: Streams): seq<seq<uint8>>
  {
    [s.field, s.sizeControl, s.sizeData, s.contentControl, s.contentData, s.binary]
  }

  function FromSegments(ss: seq<seq<uint8>>): Streams
    requires |ss| == StreamCount
  {
    Streams(ss[0], ss[1], ss[2], ss[3], ss[4], ss[5])
  }

  /**
   * The header field that describes one stream: four bytes that read back as
   * the stream's length whenever that length fits in 32 bits.
   */
  function LengthField(segment: seq<uint8>): (f: seq<uint8>)
    ensures |f| == Uint32Size
    ensures |segment| < Two32 ==> DecodeLE32(f) as int == |segment|
  {
    DecodeLE32OfLE32(Truncate32(|segment|));
    LE32(Truncate32(|segment|))
  }

  /** The length fields of the given streams, one after another: four bytes per stream. */
  function HeaderOf(ss: seq<seq<uint8>>): (h: seq<uint8>)
    ensures |h| == Uint32Size * |ss|
  {
    if ss == [] then [] else LengthField(ss[0]) + HeaderOf(ss[1..])
  }

  /**
   * The framed buffer: the 24-byte header, then every stream's bytes in the
   * same order.
   */
  function Frame(s: Streams): (b: seq<uint8>)
    ensures |b| == HeaderSize + TotalLength(Segments(s))
    ensures b[..HeaderSize] == HeaderOf(Segments(s))
  {
    ConcatLength(Segments(s));
    HeaderOf(Segments(s)) + Concat(Segments(s))
  }

  /** Every length can be written into a 32-bit header field unchanged. */
  predicate AllFit(ss: seq<seq<uint8>>)
  {
    forall i :: 0 <= i < |ss| ==> |ss[i]| < Two32
  }

  predicate Fits(s: Streams)
  {
    AllFit(Segments(s))
  }

  function Lengths(ss: seq<seq<uint8>>): (lens: seq<nat>)
    ensures |lens| == |ss|
    ensures forall i :: 0 <= i < |ss| ==> lens[i] == |ss[i]|
  {
    if ss == [] then [] else [|ss[0]|] + Lengths(ss[1..])
  }

  /** Reads consecutive four-byte little-endian length fields. */
  function DecodeHeader(h: seq<uint8>): (lens: seq<nat>)
    requires |h| % Uint32Size == 0
    ensures |lens| * Uint32Size == |h|
    ensures forall i :: 0 <= i < |lens| ==> lens[i] < Two32
    decreases |h|
  {
    if h == [] then [] else [DecodeLE32(h[..Uint32Size]) as nat] + DecodeHeader(h[Uint32Size..])
  }

  /** Cuts body into consecutive pieces of the given lengths, which must use it up exactly. */
  function Split(body: seq<uint8>, lens: seq<nat>): (r: Option<seq<seq<uint8>>>)
    ensures r.Some? ==> |r.value| == |lens|
    decreases |lens|
  {
    if lens == [] then
      if body == [] then Some([]) else None
    else if |body| < lens[0] then None
    else
      match Split(body[lens[0]..], lens[1..])
      case None => None
      case Some(rest) => Some([body[..lens[0]]] + rest)
  }

  /** Reads a framed buffer back into its six streams; None when it is not one. */
  function ParseFrame(b: seq<uint8>): Option<Streams>
  {
    if |b| < HeaderSize then None
    else
      match Split(b[HeaderSize..], DecodeHeader(b[..HeaderSize]))
      case None => None
      case Some(ss) => Some(FromSegments(ss))
  }

  /** Header field i describes stream i. */
  lemma {:induction false} HeaderOfAt(ss: seq<seq<uint8>>, i: nat)
    requires i < |ss|
    ensures |HeaderOf(ss)| == Uint32Size * |ss|
    ensures HeaderOf(ss)[Uint32Size * i .. Uint32Size * i + Uint32Size] == LengthField(ss[i])
  {
    if i > 0 {
      HeaderOfAt(ss[1..], i - 1);
      assert HeaderOf(ss) == LengthField(ss[0]) + HeaderOf(ss[1..]);
    }
  }

  /** A header written for streams that fit decodes to their exact lengths. */
  lemma {:induction false} DecodeHeaderOf(ss: seq<seq<uint8>>)
    requires AllFit(ss)
    ensures |HeaderOf(ss)| % Uint32Size == 0
    ensures DecodeHeader(HeaderOf(ss)) == Lengths(ss)
  {
    if ss != [] {
      var h := HeaderOf(ss);
      assert h[..Uint32Size] == LengthField(ss[0]);
      assert h[Uint32Size..] == HeaderOf(ss[1..]);
      DecodeLE32OfLE32(Truncate32(|ss[0]|));
      assert AllFit(ss[1..]) by {
        forall i | 0 <= i < |ss[1..]| ensures |ss[1..][i]| < Two32 {
          assert ss[1..][i] == ss[i + 1];
        }
      }
      DecodeHeaderOf(ss[1..]);
    }
  }

  /**
   * Streams whose lengths are what a header decodes to fit in 32 bits, and
   * that header is exactly the one written for them.
   */
  lemma {:induction false} HeaderOfDecoded(h: seq<uint8>, ss: seq<seq<uint8>>)
    requires |h| % Uint32Size == 0
    requires Lengths(ss) == DecodeHeader(h)
    ensures AllFit(ss)
    ensures HeaderOf(ss) == h
    decreases |h|
  {
    if h != [] {
      var lens := DecodeHeader(h);
      assert |ss[0]| == lens[0] == DecodeLE32(h[..Uint32Size]) as int;
      LE32OfDecodeLE32(h[..Uint32Size]);
      assert Lengths(ss[1..]) == Lengths(ss)[1..];
      HeaderOfDecoded(h[Uint32Size..], ss[1..]);
      assert h == h[..Uint32Size] + h[Uint32Size..];
      forall i | 0 <= i < |ss| ensures |ss[i]| < Two32 {
        if i > 0 {
          assert ss[1..][i - 1] == ss[i];
        }
      }
    }
  }

  /** Cutting a chain at its own buffers' lengths gives the buffers back. */
  lemma {:induction false} SplitConcat(ss: seq<seq<uint8>>)
    ensures Split(Concat(ss), Lengths(ss)) == Some(ss)
  {
    if ss != [] {
      var body := Concat(ss);
      assert body[..|ss[0]|] == ss[0];
      assert body[|ss[0]|..] == Concat(ss[1..]);
      SplitConcat(ss[1..]);
      assert [ss[0]] + ss[1..] == ss;
    }
  }

  /** What Split cuts out are pieces of the given lengths that make up the body. */
  lemma {:induction false} SplitSound(body: seq<uint8>, lens: seq<nat>, ss: seq<seq<uint8>>)
    requires Split(body, lens) == Some(ss)
    ensures Concat(ss) == body
    ensures Lengths(ss) == lens
    decreases |lens|
  {
    if lens != [] {
      var rest := Split(body[lens[0]..], lens[1..]).value;
      SplitSound(body[lens[0]..], lens[1..], rest);
      assert ss == [body[..lens[0]]] + rest;
      assert ss[1..] == rest;
      assert body == body[..lens[0]] + body[lens[0]..];
    }
  }

  lemma SegmentsOfFromSegments(ss: seq<seq<uint8>>)
    requires |ss| == StreamCount
    ensures Segments(FromSegments(ss)) == ss
  {
  }

  lemma UnfoldCons(x: seq<uint8>, rest: seq<seq<uint8>>)
    ensures HeaderOf([x] + rest) == LengthField(x) + HeaderOf(rest)
    ensures Concat([x] + rest) == x + Concat(rest)
    ensures TotalLength([x] + rest) == |x| + TotalLength(rest)
  {
    assert ([x] + rest)[1..] == rest;
  }

  /** The six streams, one list element at a time. */
  lemma SegmentsCons(s: Streams)
    ensures Segments(s) == [s.field] + ([s.sizeControl] + ([s.sizeData] + ([s.contentControl]
                           + ([s.contentData] + ([s.binary] + [])))))
  {
  }

  /** HeaderOf over the six streams. */
  lemma UnfoldHeader(s: Streams)
    ensures HeaderOf(Segments(s)) == LengthField(s.field) + LengthField(s.sizeControl) + LengthField(s.sizeData)
                                     + LengthField(s.contentControl) + LengthField(s.contentData) + LengthField(s.binary)
  {
    SegmentsCons(s);
    var t6: seq<seq<uint8>> := [];
    var t5 := [s.binary] + t6;
    var t4 := [s.contentData] + t5;
    var t3 := [s.contentControl] + t4;
    var t2 := [s.sizeData] + t3;
    var t1 := [s.sizeControl] + t2;
    UnfoldCons(s.binary, t6);
    UnfoldCons(s.contentData, t5);
    UnfoldCons(s.contentControl, t4);
    UnfoldCons(s.sizeData, t3);
    UnfoldCons(s.sizeControl, t2);
    UnfoldCons(s.field, t1);
    var a, b, c, d, e, f := LengthField(s.field), LengthField(s.sizeControl), LengthField(s.sizeData),
                            LengthField(s.contentControl), LengthField(s.contentData), LengthField(s.binary);
    assert HeaderOf(Segments(s)) == a + (b + (c + (d + (e + (f + [])))));
    assert a + (b + (c + (d + (e + (f + []))))) == a + b + c + d + e + f;
  }

  /** Concat and TotalLength over the six streams. */
  lemma UnfoldBody(s: Streams)
    ensures Concat(Segments(s)) == s.field + s.sizeControl + s.sizeData + s.contentControl + s.contentData + s.binary
    ensures TotalLength(Segments(s)) == |s.field| + |s.sizeControl| + |s.sizeData|
                                        + |s.contentControl| + |s.contentData| + |s.binary|
  {
    SegmentsCons(s);
    var t6: seq<seq<uint8>> := [];
    var t5 := [s.binary] + t6;
    var t4 := [s.contentData] + t5;
    var t3 := [s.contentControl] + t4;
    var t2 := [s.sizeData] + t3;
    var t1 := [s.sizeControl] + t2;
    UnfoldCons(s.binary, t6);
    UnfoldCons(s.contentData, t5);
    UnfoldCons(s.contentControl, t4);
    UnfoldCons(s.sizeData, t3);
    UnfoldCons(s.sizeControl, t2);
    UnfoldCons(s.field, t1);
    assert Concat(Segments(s)) == s.field + (s.sizeControl + (s.sizeData + (s.contentControl + (s.contentData + (s.binary + [])))));
    assert s.field + (s.sizeControl + (s.sizeData + (s.contentControl + (s.contentData + (s.binary + [])))))
        == s.field + s.sizeControl + s.sizeData + s.contentControl + s.contentData + s.binary;
  }

  /** The frame is 24 header bytes plus every stream's bytes. */
  lemma FrameLength(s: Streams)
    ensures |Frame(s)| == HeaderSize + TotalLength(Segments(s))
    ensures TotalLength(Segments(s)) == |s.field| + |s.sizeControl| + |s.sizeData|
                                        + |s.contentControl| + |s.contentData| + |s.binary|
  {
    ConcatLength(Segments(s));
    UnfoldBody(s);
  }

  /**
   * Header field i (bytes 4i to 4i+4) is stream i's length, truncated to 32
   * bits; when the streams fit it decodes to the length exactly.
   */
  lemma FrameHeaderField(s: Streams, i: nat)
    requires i < StreamCount
    ensures Uint32Size * i + Uint32Size <= |Frame(s)|
    ensures Frame(s)[Uint32Size * i .. Uint32Size * i + Uint32Size] == LE32(Truncate32(|Segments(s)[i]|))
    ensures Fits(s) ==> DecodeLE32(Frame(s)[Uint32Size * i .. Uint32Size * i + Uint32Size]) as int == |Segments(s)[i]|
  {
    HeaderOfAt(Segments(s), i);
    DecodeLE32OfLE32(Truncate32(|Segments(s)[i]|));
  }

  /**
   * Stream i starts right after the header and the streams before it, and
   * occupies exactly its own length.
   */
  lemma FrameSegment(s: Streams, i: nat)
    requires i < StreamCount
    ensures HeaderSize + TotalLength(Segments(s)[..i]) + |Segments(s)[i]| <= |Frame(s)|
    ensures Frame(s)[HeaderSize + TotalLength(Segments(s)[..i]) ..
                     HeaderSize + TotalLength(Segments(s)[..i]) + |Segments(s)[i]|] == Segments(s)[i]
  {
    ConcatAt(Segments(s), i);
  }

  /** The layout written out: six length fields, then the six streams, in the same order. */
  lemma FrameLayout(s: Streams)
    ensures Frame(s) == LengthField(s.field) + LengthField(s.sizeControl) + LengthField(s.sizeData)
                        + LengthField(s.contentControl) + LengthField(s.contentData) + LengthField(s.binary)
                        + s.field + s.sizeControl + s.sizeData + s.contentControl + s.contentData + s.binary
  {
    UnfoldHeader(s);
    UnfoldBody(s);
  }

  /** Reading a frame back gives its streams exactly when every stream fits in 32 bits. */
  lemma ParseFrameOfFrame(s: Streams)
    ensures ParseFrame(Frame(s)) == Some(s) <==> Fits(s)
  {
    var ss := Segments(s);
    var b := Frame(s);
    assert b[..HeaderSize] == HeaderOf(ss);
    assert b[HeaderSize..] == Concat(ss);
    if Fits(s) {
      DecodeHeaderOf(ss);
      SplitConcat(ss);
    }
    if ParseFrame(b) == Some(s) {
      var parts := Split(b[HeaderSize..], DecodeHeader(b[..HeaderSize])).value;
      SplitSound(b[HeaderSize..], DecodeHeader(b[..HeaderSize]), parts);
      assert FromSegments(parts) == s;
      SegmentsOfFromSegments(parts);
      forall i | 0 <= i < |ss| ensures |ss[i]| < Two32 {
        assert Lengths(parts)[i] == |ss[i]|;
      }
    }
  }

  /** Whatever reads as a frame is the frame of what it reads as, and its streams fit. */
  lemma FrameOfParseFrame(b: seq<uint8>, s: Streams)
    requires ParseFrame(b) == Some(s)
    ensures Fits(s)
    ensures Frame(s) == b
  {
    var lens := DecodeHeader(b[..HeaderSize]);
    var ss := Split(b[HeaderSize..], lens).value;
    SplitSound(b[HeaderSize..], lens, ss);
    SegmentsOfFromSegments(ss);
    HeaderOfDecoded(b[..HeaderSize], ss);
    assert b == b[..HeaderSize] + b[HeaderSize..];
  }

  /** Two session outputs whose streams fit are equal only if all six streams are. */
  lemma FrameInjective(s: Streams, t: Streams)
    requires Fits(s) && Fits(t)
    requires Frame(s) == Frame(t)
    ensures s == t
  {
    ParseFrameOfFrame(s);
    ParseFrameOfFrame(t);
  }

  /**
   * When only the binary stream holds bytes, the first five header fields are
   * zero and the frame is 24 bytes longer than the binary stream.
   */
  lemma OnlyBinaryFrame(s: Streams)
    requires s.field == s.sizeControl == s.sizeData == s.contentControl == s.contentData == []
    ensures |Frame(s)| == HeaderSize + |s.binary|
    ensures Frame(s)[..20] == seq(20, _ => 0 as uint8)
    ensures Frame(s)[20..HeaderSize] == LE32(Truncate32(|s.binary|))
  {
    FrameLayout(s);
    FrameLength(s);
    assert LE32(0) == [0, 0, 0, 0];
  }
}

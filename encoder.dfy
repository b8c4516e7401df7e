/**
 * The nimble Encoder: a single-session byte-stream assembler. Field bytes go
 * to a paged field stream, size chunks to a raw-discipline chunk stream,
 * content chunks to a zigzag-discipline chunk stream and binary payloads to a
 * binary stream; finalize flushes both chunk streams, moves every stream out
 * and returns the header of six lengths followed by the six streams.
 *
 * The class Encoder is the object itself. Session, Step and Drain are its
 * abstract state, the effect of one write and what finalize lays out; the
 * lemmas at the end are about whole sequences of writes.
 */
module NimbleEncoder {
  import opened Bytes
  import opened NimbleFrame
  import opened FieldAppender
  import opened ChunkStreams

  /** One call of the write-side API. */
  datatype Write =
    | FieldBytes(bytes: seq<uint8>)
    | SizeChunk(chunk: uint32)
    | ContentChunk(chunk: uint32)
    | Binary(bytes: seq<uint8>)

  /** What an Encoder holds between writes. */
  datatype Session = Session(
    fieldPages: seq<seq<uint8>>,
    sizeChunks: seq<uint32>,
    contentChunks: seq<uint32>,
    binary: seq<uint8>)

  /** The state of a newly constructed Encoder: every stream empty. */
  const NewSession := Session([], [], [], [])

  /** The effect of one write: it reaches exactly one stream. */
  function Step(s: Session, w: Write): Session
  {
    match w
    case FieldBytes(bytes) => s.(fieldPages := Push(s.fieldPages, bytes))
    case SizeChunk(chunk) => s.(sizeChunks := s.sizeChunks + [chunk])
    case ContentChunk(chunk) => s.(contentChunks := s.contentChunks + [chunk])
    case Binary(bytes) => s.(binary := s.binary + bytes)
  }

  /** The state after the writes ws, made in order. */
  function Replay(s: Session, ws: seq<Write>): Session
    decreases |ws|
  {
    if ws == [] then s else Replay(Step(s, ws[0]), ws[1..])
  }

  /**
   * What finalize lays out for a session: the field pages read in order, the
   * size stream flushed with the raw discipline, the content stream with the
   * zigzag discipline, and the binary queue as it is.
   */
  function Drain(codec: ChunkCodec, s: Session): (r: Streams)
    ensures |r.field| == TotalLength(s.fieldPages)
    ensures r.binary == s.binary
    ensures r.sizeControl == codec.control(Raw, s.sizeChunks) && r.sizeData == codec.data(Raw, s.sizeChunks)
    ensures r.contentControl == codec.control(Zigzag, s.contentChunks)
         && r.contentData == codec.data(Zigzag, s.contentChunks)
  {
    ConcatLength(s.fieldPages);
    Streams(
      Concat(s.fieldPages),
      codec.control(Raw, s.sizeChunks),
      codec.data(Raw, s.sizeChunks),
      codec.control(Zigzag, s.contentChunks),
      codec.data(Zigzag, s.contentChunks),
      s.binary)
  }

  /**
   * IOBufQueue::move: the queue's chain, carrying exactly the queue's bytes,
   * or null exactly when nothing was written to it.
   */
  function Move(q: seq<uint8>): (o: Option<seq<uint8>>)
    ensures o.None? <==> q == []
    ensures o.Some? ==> o.value == q
  {
    if q == [] then None else Some(q)
  }

  /**
   * The length written for a moved queue: 0 for null, otherwise the chain's
   * data length, exact whenever it fits in 32 bits.
   */
  function ChainLengthBytes(o: Option<seq<uint8>>): (n: uint32)
    ensures o.None? ==> n == 0
    ensures o.Some? ==> (n as int - |o.value|) % Two32 == 0
    ensures o.Some? && |o.value| < Two32 ==> n as int == |o.value|
  {
    match o
    case None => 0
    case Some(chain) => Truncate32(|chain|)
  }

  /**
   * Chains a moved queue after the buffer built so far, unless it is null:
   * the buffer stays a prefix and the chain's bytes follow it.
   */
  function PrependToSizeHeader(buf: seq<uint8>, o: Option<seq<uint8>>): (r: seq<uint8>)
    ensures |buf| <= |r| && r[..|buf|] == buf
    ensures o.None? ==> r == buf
    ensures o.Some? ==> r[|buf|..] == o.value
  {
    match o
    case None => buf
    case Some(chain) => buf + chain
  }

  /**
   * A queue that was never written to is moved out as null, yet it is
   * described by the same zero length field and contributes the same (no)
   * bytes as an empty stream.
   */
  lemma MovedQueue(buf: seq<uint8>, q: seq<uint8>)
    ensures LE32(ChainLengthBytes(Move(q))) == LengthField(q)
    ensures PrependToSizeHeader(buf, Move(q)) == buf + q
  {
    if q == [] {
      assert buf + q == buf;
    }
  }

  /** The six length fields finalize writes, one moved queue after another, form the frame's header. */
  lemma HeaderFields(s: Streams)
    ensures [] + LE32(ChainLengthBytes(Move(s.field))) + LE32(ChainLengthBytes(Move(s.sizeControl)))
            + LE32(ChainLengthBytes(Move(s.sizeData))) + LE32(ChainLengthBytes(Move(s.contentControl)))
            + LE32(ChainLengthBytes(Move(s.contentData))) + LE32(ChainLengthBytes(Move(s.binary)))
         == HeaderOf(Segments(s))
  {
    MovedQueue([], s.field);
    MovedQueue([], s.sizeControl);
    MovedQueue([], s.sizeData);
    MovedQueue([], s.contentControl);
    MovedQueue([], s.contentData);
    MovedQueue([], s.binary);
    UnfoldHeader(s);
  }

  lemma ChainOne(p: seq<uint8>, h: seq<uint8>, x: seq<uint8>, q: seq<uint8>)
    requires p == h + x
    ensures PrependToSizeHeader(p, Move(q)) == h + (x + q)
  {
    MovedQueue(p, q);
  }

  /** Chaining the six moved queues after the header, in order, appends the streams' bytes. */
  lemma ChainStreams(h: seq<uint8>, s: Streams)
    ensures PrependToSizeHeader(PrependToSizeHeader(PrependToSizeHeader(PrependToSizeHeader(PrependToSizeHeader(
              PrependToSizeHeader(h, Move(s.field)), Move(s.sizeControl)), Move(s.sizeData)),
              Move(s.contentControl)), Move(s.contentData)), Move(s.binary))
         == h + Concat(Segments(s))
  {
    MovedQueue(h, s.field);
    var x1 := s.field;
    var p1 := PrependToSizeHeader(h, Move(s.field));
    ChainOne(p1, h, x1, s.sizeControl);
    var x2 := x1 + s.sizeControl;
    var p2 := PrependToSizeHeader(p1, Move(s.sizeControl));
    ChainOne(p2, h, x2, s.sizeData);
    var x3 := x2 + s.sizeData;
    var p3 := PrependToSizeHeader(p2, Move(s.sizeData));
    ChainOne(p3, h, x3, s.contentControl);
    var x4 := x3 + s.contentControl;
    var p4 := PrependToSizeHeader(p3, Move(s.contentControl));
    ChainOne(p4, h, x4, s.contentData);
    var x5 := x4 + s.contentData;
    var p5 := PrependToSizeHeader(p4, Move(s.contentData));
    ChainOne(p5, h, x5, s.binary);
    UnfoldBody(s);
  }

  /** The field bytes among ws, in call order. */
  function FieldBytesOf(ws: seq<Write>): seq<uint8>
    decreases |ws|
  {
    if ws == [] then []
    else (if ws[0].FieldBytes? then ws[0].bytes else []) + FieldBytesOf(ws[1..])
  }

  /** The size chunks among ws, in call order. */
  function SizeChunksOf(ws: seq<Write>): seq<uint32>
    decreases |ws|
  {
    if ws == [] then []
    else (if ws[0].SizeChunk? then [ws[0].chunk] else []) + SizeChunksOf(ws[1..])
  }

  /** The content chunks among ws, in call order. */
  function ContentChunksOf(ws: seq<Write>): seq<uint32>
    decreases |ws|
  {
    if ws == [] then []
    else (if ws[0].ContentChunk? then [ws[0].chunk] else []) + ContentChunksOf(ws[1..])
  }

  /** The binary payloads among ws, in call order. */
  function BinaryOf(ws: seq<Write>): seq<uint8>
    decreases |ws|
  {
    if ws == [] then []
    else (if ws[0].Binary? then ws[0].bytes else []) + BinaryOf(ws[1..])
  }

  /**
   * Each write changes only the stream it targets: a field write appends to
   * the field segment, a binary write to the binary segment, and a size
   * (content) chunk changes only the size (content) control and data
   * segments, which are the flush of the extended chunk sequence.
   */
  lemma WriteIsolation(codec: ChunkCodec, s: Session, w: Write)
    ensures var before := Drain(codec, s);
            var after := Drain(codec, Step(s, w));
            match w
            case FieldBytes(bytes) => after == before.(field := before.field + bytes)
            case SizeChunk(chunk) =>
              after == before.(sizeControl := codec.control(Raw, s.sizeChunks + [chunk]),
                               sizeData := codec.data(Raw, s.sizeChunks + [chunk]))
            case ContentChunk(chunk) =>
              after == before.(contentControl := codec.control(Zigzag, s.contentChunks + [chunk]),
                               contentData := codec.data(Zigzag, s.contentChunks + [chunk]))
            case Binary(bytes) => after == before.(binary := before.binary + bytes)
  {
  }

  /** After the writes ws every stream holds what it held, then what ws sent to it. */
  lemma ReplayState(s: Session, ws: seq<Write>)
    ensures Concat(Replay(s, ws).fieldPages) == Concat(s.fieldPages) + FieldBytesOf(ws)
    ensures Replay(s, ws).sizeChunks == s.sizeChunks + SizeChunksOf(ws)
    ensures Replay(s, ws).contentChunks == s.contentChunks + ContentChunksOf(ws)
    ensures Replay(s, ws).binary == s.binary + BinaryOf(ws)
  {
    ReplayField(s, ws);
    ReplaySizeChunks(s, ws);
    ReplayContentChunks(s, ws);
    ReplayBinary(s, ws);
  }

  lemma {:induction false} ReplayField(s: Session, ws: seq<Write>)
    ensures Concat(Replay(s, ws).fieldPages) == Concat(s.fieldPages) + FieldBytesOf(ws)
    decreases |ws|
  {
    if ws != [] {
      var w, rest := ws[0], ws[1..];
      ReplayField(Step(s, w), rest);
      if w.FieldBytes? {
        assert FieldBytesOf(ws) == w.bytes + FieldBytesOf(rest);
      } else {
        assert FieldBytesOf(ws) == [] + FieldBytesOf(rest);
      }
    }
  }

  lemma {:induction false} ReplaySizeChunks(s: Session, ws: seq<Write>)
    ensures Replay(s, ws).sizeChunks == s.sizeChunks + SizeChunksOf(ws)
    decreases |ws|
  {
    if ws != [] {
      var w, rest := ws[0], ws[1..];
      ReplaySizeChunks(Step(s, w), rest);
      if w.SizeChunk? {
        assert SizeChunksOf(ws) == [w.chunk] + SizeChunksOf(rest);
      } else {
        assert SizeChunksOf(ws) == [] + SizeChunksOf(rest);
      }
    }
  }

  lemma {:induction false} ReplayContentChunks(s: Session, ws: seq<Write>)
    ensures Replay(s, ws).contentChunks == s.contentChunks + ContentChunksOf(ws)
    decreases |ws|
  {
    if ws != [] {
      var w, rest := ws[0], ws[1..];
      ReplayContentChunks(Step(s, w), rest);
      if w.ContentChunk? {
        assert ContentChunksOf(ws) == [w.chunk] + ContentChunksOf(rest);
      } else {
        assert ContentChunksOf(ws) == [] + ContentChunksOf(rest);
      }
    }
  }

  lemma {:induction false} ReplayBinary(s: Session, ws: seq<Write>)
    ensures Replay(s, ws).binary == s.binary + BinaryOf(ws)
    decreases |ws|
  {
    if ws != [] {
      var w, rest := ws[0], ws[1..];
      ReplayBinary(Step(s, w), rest);
      if w.Binary? {
        assert BinaryOf(ws) == w.bytes + BinaryOf(rest);
      } else {
        assert BinaryOf(ws) == [] + BinaryOf(rest);
      }
    }
  }

  /**
   * The streams a session lays out depend on its writes only stream by
   * stream: the field segment is every field write in order, the size
   * segments are a function of the size chunks alone, the content segments of
   * the content chunks alone, and the binary segment is every binary write in
   * order.
   */
  lemma SessionStreams(codec: ChunkCodec, ws: seq<Write>)
    ensures Drain(codec, Replay(NewSession, ws)) ==
            Streams(FieldBytesOf(ws),
                    codec.control(Raw, SizeChunksOf(ws)), codec.data(Raw, SizeChunksOf(ws)),
                    codec.control(Zigzag, ContentChunksOf(ws)), codec.data(Zigzag, ContentChunksOf(ws)),
                    BinaryOf(ws))
  {
    ReplayState(NewSession, ws);
    var r := Replay(NewSession, ws);
    assert Concat(r.fieldPages) == [] + FieldBytesOf(ws) == FieldBytesOf(ws);
    assert r.sizeChunks == [] + SizeChunksOf(ws) == SizeChunksOf(ws);
    assert r.contentChunks == [] + ContentChunksOf(ws) == ContentChunksOf(ws);
    assert r.binary == [] + BinaryOf(ws) == BinaryOf(ws);
  }

  /**
   * Reading back the buffer of a session whose streams fit in 32 bits
   * recovers each stream exactly.
   */
  lemma SessionRoundTrip(codec: ChunkCodec, ws: seq<Write>)
    requires Fits(Drain(codec, Replay(NewSession, ws)))
    ensures ParseFrame(Frame(Drain(codec, Replay(NewSession, ws)))) ==
            Some(Streams(FieldBytesOf(ws),
                         codec.control(Raw, SizeChunksOf(ws)), codec.data(Raw, SizeChunksOf(ws)),
                         codec.control(Zigzag, ContentChunksOf(ws)), codec.data(Zigzag, ContentChunksOf(ws)),
                         BinaryOf(ws)))
  {
    SessionStreams(codec, ws);
    ParseFrameOfFrame(Drain(codec, Replay(NewSession, ws)));
  }

  /**
   * The order of writes to different streams does not matter: two sessions
   * that send the same bytes and chunks to each stream produce the same buffer.
   */
  lemma WriteOrderIrrelevant(codec: ChunkCodec, ws: seq<Write>, vs: seq<Write>)
    requires FieldBytesOf(ws) == FieldBytesOf(vs) && BinaryOf(ws) == BinaryOf(vs)
    requires SizeChunksOf(ws) == SizeChunksOf(vs) && ContentChunksOf(ws) == ContentChunksOf(vs)
    ensures Frame(Drain(codec, Replay(NewSession, ws))) == Frame(Drain(codec, Replay(NewSession, vs)))
  {
    SessionStreams(codec, ws);
    SessionStreams(codec, vs);
  }

  /**
   * The field segment does not depend on how the field bytes were cut into
   * calls: many small writes lay out the same as one write of their
   * concatenation.
   */
  lemma FieldWritesCoalesce(codec: ChunkCodec, pieces: seq<seq<uint8>>)
    ensures Frame(Drain(codec, Replay(NewSession, FieldWrites(pieces))))
         == Frame(Drain(codec, Step(NewSession, FieldBytes(Concat(pieces)))))
  {
    FieldWritesBytes(pieces);
    SessionStreams(codec, FieldWrites(pieces));
    var one := Step(NewSession, FieldBytes(Concat(pieces)));
    assert Concat(one.fieldPages) == Concat(pieces);
    assert one.sizeChunks == one.contentChunks == [] && one.binary == [];
    assert Drain(codec, Replay(NewSession, FieldWrites(pieces))) == Drain(codec, one);
  }

  function FieldWrites(pieces: seq<seq<uint8>>): (ws: seq<Write>)
    ensures |ws| == |pieces|
    ensures forall i :: 0 <= i < |ws| ==> ws[i] == FieldBytes(pieces[i])
  {
    seq(|pieces|, i requires 0 <= i < |pieces| => FieldBytes(pieces[i]))
  }

  lemma {:induction false} FieldWritesBytes(pieces: seq<seq<uint8>>)
    ensures FieldBytesOf(FieldWrites(pieces)) == Concat(pieces)
    ensures SizeChunksOf(FieldWrites(pieces)) == ContentChunksOf(FieldWrites(pieces)) == []
    ensures BinaryOf(FieldWrites(pieces)) == []
    decreases |pieces|
  {
    if pieces != [] {
      FieldWritesBytes(pieces[1..]);
      assert FieldWrites(pieces)[1..] == FieldWrites(pieces[1..]);
    }
  }

  /**
   * A session of binary writes only, with a chunk codec that writes nothing
   * for no chunks: the five other header fields are 0 and the buffer is 24
   * bytes longer than the binary payload.
   */
  lemma OnlyBinarySession(codec: ChunkCodec, ws: seq<Write>)
    requires SilentWhenIdle(codec)
    requires forall i :: 0 <= i < |ws| ==> ws[i].Binary?
    ensures |Frame(Drain(codec, Replay(NewSession, ws)))| == HeaderSize + |BinaryOf(ws)|
    ensures Frame(Drain(codec, Replay(NewSession, ws)))[..20] == seq(20, _ => 0 as uint8)
  {
    OnlyBinaryWrites(ws);
    SessionStreams(codec, ws);
    OnlyBinaryFrame(Drain(codec, Replay(NewSession, ws)));
  }

  lemma {:induction false} OnlyBinaryWrites(ws: seq<Write>)
    requires forall i :: 0 <= i < |ws| ==> ws[i].Binary?
    ensures FieldBytesOf(ws) == [] && SizeChunksOf(ws) == [] && ContentChunksOf(ws) == []
    decreases |ws|
  {
    if ws != [] {
      OnlyBinaryWrites(ws[1..]);
    }
  }

  /** The session of the example below: field bytes "ab", size chunk 3, binary "xyz". */
  const ExampleWrites := [FieldBytes([0x61, 0x62]), SizeChunk(3), Binary([0x78, 0x79, 0x7a])]

  /**
   * In the example session the field segment is "ab", the binary segment
   * "xyz", the size segments are the flush of the one chunk 3 and the content
   * segments the flush of no chunks.
   */
  lemma ExampleSessionStreams(codec: ChunkCodec)
    ensures Drain(codec, Replay(NewSession, ExampleWrites))
         == Streams([0x61, 0x62], codec.control(Raw, [3]), codec.data(Raw, [3]),
                    codec.control(Zigzag, []), codec.data(Zigzag, []), [0x78, 0x79, 0x7a])
  {
    var ws := ExampleWrites;
    var w2 := [Binary([0x78, 0x79, 0x7a])];
    var w1 := [SizeChunk(3)] + w2;
    assert ws == [FieldBytes([0x61, 0x62])] + w1 && w1[1..] == w2 && ws[1..] == w1;
    assert w2[1..] == [];
    assert FieldBytesOf(w2) == [] && SizeChunksOf(w2) == [] && ContentChunksOf(w2) == [];
    assert BinaryOf(w2) == [0x78, 0x79, 0x7a];
    assert FieldBytesOf(ws) == [0x61, 0x62] && SizeChunksOf(ws) == [3];
    assert ContentChunksOf(ws) == [] && BinaryOf(ws) == [0x78, 0x79, 0x7a];
    SessionStreams(codec, ws);
  }

  /**
   * With a codec that writes nothing for no chunks, the example's header says
   * 2 field bytes, no content bytes and 3 binary bytes.
   */
  lemma ExampleSessionHeader(codec: ChunkCodec)
    requires SilentWhenIdle(codec)
    ensures var b := Frame(Drain(codec, Replay(NewSession, ExampleWrites)));
            && |b| >= HeaderSize
            && b[..4] == [2, 0, 0, 0]
            && b[12..20] == [0, 0, 0, 0, 0, 0, 0, 0]
            && b[20..24] == [3, 0, 0, 0]
  {
    ExampleSessionStreams(codec);
    var s := Drain(codec, Replay(NewSession, ExampleWrites));
    assert s.contentControl == [] && s.contentData == [];
    FrameHeaderField(s, 0);
    FrameHeaderField(s, 3);
    FrameHeaderField(s, 4);
    FrameHeaderField(s, 5);
    var b := Frame(s);
    assert LE32(0) == [0, 0, 0, 0] && LE32(2) == [2, 0, 0, 0] && LE32(3) == [3, 0, 0, 0];
    assert b[12..20] == b[12..16] + b[16..20];
  }

  class Encoder {
    /** The bit-packing both chunk streams use. */
    const codec: ChunkCodec
    var fieldPages: seq<seq<uint8>>
    const sizeStream: ChunkStream
    const contentStream: ChunkStream
    var binaryData: seq<uint8>
    /** Set by finalize; the encoder is not used afterwards. */
    ghost var finalized: bool

    ghost predicate Valid()
      reads this, sizeStream, contentStream
    {
      && sizeStream != contentStream
      && sizeStream.repr == Raw && contentStream.repr == Zigzag
      && sizeStream.codec == codec && contentStream.codec == codec
      && sizeStream.finalized == finalized && contentStream.finalized == finalized
      && PagesBounded(fieldPages)
    }

    ghost function State(): Session
      reads this, sizeStream, contentStream
    {
      Session(fieldPages, sizeStream.chunks, contentStream.chunks, binaryData)
    }

    /** Starts the field and binary streams empty and creates the raw and zigzag chunk streams. */
    constructor (codec: ChunkCodec)
      ensures Valid() && !finalized
      ensures this.codec == codec
      ensures fresh(sizeStream) && fresh(contentStream)
      ensures State() == NewSession
    {
      this.codec := codec;
      fieldPages := [];
      sizeStream := new ChunkStream(Raw, codec);
      contentStream := new ChunkStream(Zigzag, codec);
      binaryData := [];
      finalized := false;
    }

    method EncodeSizeChunk(chunk: uint32)
      requires Valid() && !finalized
      modifies sizeStream
      ensures Valid() && !finalized
      ensures State() == Step(old(State()), SizeChunk(chunk))
    {
      sizeStream.EncodeChunk(chunk);
    }

    method EncodeContentChunk(chunk: uint32)
      requires Valid() && !finalized
      modifies contentStream
      ensures Valid() && !finalized
      ensures State() == Step(old(State()), ContentChunk(chunk))
    {
      contentStream.EncodeChunk(chunk);
    }

    method EncodeBinary(bytes: seq<uint8>)
      requires Valid() && !finalized
      modifies this`binaryData
      ensures Valid() && !finalized
      ensures State() == Step(old(State()), Binary(bytes))
    {
      binaryData := binaryData + bytes;
    }

    method EncodeFieldBytes(bytes: seq<uint8>)
      requires Valid() && !finalized
      modifies this`fieldPages
      ensures Valid() && !finalized
      ensures State() == Step(old(State()), FieldBytes(bytes))
    {
      PushBounded(fieldPages, bytes);
      fieldPages := Push(fieldPages, bytes);
    }

    /**
     * Flushes both chunk streams, moves the six streams out (leaving the field
     * and binary queues empty) and returns the framed buffer.
     */
    method Finalize() returns (buf: seq<uint8>)
      requires Valid() && !finalized
      modifies this, sizeStream, contentStream
      ensures Valid() && finalized
      ensures buf == Frame(Drain(codec, old(State())))
      ensures fieldPages == [] && binaryData == []
    {
      ghost var streams := Drain(codec, State());
      var sizeControlOut, sizeDataOut := sizeStream.Finalize();
      var contentControlOut, contentDataOut := contentStream.Finalize();

      var fieldData := Move(Concat(fieldPages));
      fieldPages := [];
      var sizeControl := Move(sizeControlOut);
      var sizeData := Move(sizeDataOut);
      var contentControl := Move(contentControlOut);
      var contentData := Move(contentDataOut);
      var binary := Move(binaryData);
      binaryData := [];
      assert fieldData == Move(streams.field) && binary == Move(streams.binary);
      assert sizeControl == Move(streams.sizeControl) && sizeData == Move(streams.sizeData);
      assert contentControl == Move(streams.contentControl) && contentData == Move(streams.contentData);

      var sizeHeader: seq<uint8> := [];
      sizeHeader := sizeHeader + LE32(ChainLengthBytes(fieldData));
      sizeHeader := sizeHeader + LE32(ChainLengthBytes(sizeControl));
      sizeHeader := sizeHeader + LE32(ChainLengthBytes(sizeData));
      sizeHeader := sizeHeader + LE32(ChainLengthBytes(contentControl));
      sizeHeader := sizeHeader + LE32(ChainLengthBytes(contentData));
      sizeHeader := sizeHeader + LE32(ChainLengthBytes(binary));
      HeaderFields(streams);
      ghost var header := sizeHeader;
      assert header == HeaderOf(Segments(streams));

      sizeHeader := PrependToSizeHeader(sizeHeader, fieldData);
      sizeHeader := PrependToSizeHeader(sizeHeader, sizeControl);
      sizeHeader := PrependToSizeHeader(sizeHeader, sizeData);
      sizeHeader := PrependToSizeHeader(sizeHeader, contentControl);
      sizeHeader := PrependToSizeHeader(sizeHeader, contentData);
      sizeHeader := PrependToSizeHeader(sizeHeader, binary);
      ChainStreams(header, streams);

      buf := sizeHeader;
      finalized := true;
    }
  }

  /** A caller running the example session against an Encoder gets the example's frame. */
  method EncodeExample(codec: ChunkCodec) returns (buf: seq<uint8>)
    ensures buf == Frame(Drain(codec, Replay(NewSession, ExampleWrites)))
  {
    var e := new Encoder(codec);
    e.EncodeFieldBytes([0x61, 0x62]);
    e.EncodeSizeChunk(3);
    e.EncodeBinary([0x78, 0x79, 0x7a]);
    buf := e.Finalize();
    assert ExampleWrites[1..][1..][1..] == [];
  }
}

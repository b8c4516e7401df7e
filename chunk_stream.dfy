/**
 * BufferingNimbleEncoder, seen from the Encoder: it takes 32-bit chunks one at
 * a time and, when finalized, flushes everything into its control and data
 * outputs. How it packs chunks into those bytes is not part of this model: it
 * is the ChunkCodec the stream is built with, an arbitrary function of the
 * discipline and of the whole sequence of chunks received.
 */
module ChunkStreams {
  import opened Bytes

  /** kRaw encodes chunks as they are; kZigzag folds signed values first. */
  datatype ChunkRepr = Raw | Zigzag

  /** The bytes a chunk encoder flushes to its control and data outputs. */
  datatype ChunkCodec = ChunkCodec(
    control: (ChunkRepr, seq<uint32>) -> seq<uint8>,
    data: (ChunkRepr, seq<uint32>) -> seq<uint8>)

  /** The codec writes nothing for a stream that was given no chunks. */
  predicate SilentWhenIdle(codec: ChunkCodec)
  {
    forall repr: ChunkRepr :: codec.control(repr, []) == [] && codec.data(repr, [])  == []
  }

  class ChunkStream {
    const repr: ChunkRepr
    const codec: ChunkCodec
    /** Every chunk received, in order. */
    var chunks: seq<uint32>
    ghost var finalized: bool

    constructor (repr: ChunkRepr, codec: ChunkCodec)
      ensures this.repr == repr && this.codec == codec
      ensures chunks == [] && !finalized
    {
      this.repr := repr;
      this.codec := codec;
      chunks := [];
      finalized := false;
    }

    /** What finalize flushes to the control output. */
    function Control(): seq<uint8>
      reads this
    {
      codec.control(repr, chunks)
    }

    /** What finalize flushes to the data output. */
    function Data(): seq<uint8>
      reads this
    {
      codec.data(repr, chunks)
    }

    method EncodeChunk(chunk: uint32)
      requires !finalized
      modifies this
      ensures chunks == old(chunks) + [chunk]
      ensures !finalized
    {
      chunks := chunks + [chunk];
    }

    /** Flushes the buffered chunks: control and data are everything the stream writes. */
    method Finalize() returns (control: seq<uint8>, data: seq<uint8>)
      requires !finalized
      modifies this
      ensures finalized && chunks == old(chunks)
      ensures control == Control() && data == Data()
    {
      control := codec.control(repr, chunks);
      data := codec.data(repr, chunks);
      finalized := true;
    }
  }
}

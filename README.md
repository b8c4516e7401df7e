# Nimble Encoder, modelled in Dafny

This project models the encoding core of fbthrift's nimble protocol: the
`Encoder` class in `thrift/lib/cpp2/protocol/nimble/Encoder.h`. An Encoder
serves one encoding session. It sorts the serializer's writes into six
append-only streams:

- field bytes, written through a paged `QueueAppender`;
- size-control and size-data, written by a raw-discipline chunk encoder fed by `encodeSizeChunk`;
- content-control and content-data, written by a zigzag-discipline chunk encoder fed by `encodeContentChunk`;
- binary data, written by `encodeBinary`.

`finalize` flushes both chunk encoders and moves the six streams out. It then
returns a 24-byte header of six little-endian `uint32` lengths, followed by
the non-empty streams. Both the header and the streams use the fixed order
field, size-control, size-data, content-control, content-data, binary.

Files and modules:

- `bytes.dfy` (`Bytes`): bytes and `uint32`. Holds `LE32`/`DecodeLE32`, the
  32-bit truncation done by `writer.write<std::uint32_t>`, and chains of
  buffers (`Concat`).
- `frame.dfy` (`NimbleFrame`): the container layout as a pure function
  `Frame` of the six streams. Also holds `ParseFrame`, a reference reader for
  that layout, and lemmas on header fields, segment offsets, total length and
  the round trip in both directions.
- `field_appender.dfy` (`FieldAppender`): the field stream as a chain of pages
  of at most 4096 bytes. The lemmas show that paging never loses or reorders
  bytes.
- `chunk_stream.dfy` (`ChunkStreams`): `BufferingNimbleEncoder` as a class
  that logs the chunks it receives. What it flushes is a `ChunkCodec`: an
  arbitrary function of the discipline and the whole chunk sequence, given to
  the Encoder when it is constructed.
- `encoder.dfy` (`NimbleEncoder`): the `Encoder` class, with one method per
  operation. It also holds a pure view of a session: `Session` is the state,
  `Step` is one write, `Replay` is a sequence of writes, and `Drain` gives the
  six streams that finalize lays out. The lemmas cover stream isolation, write
  order and the examples.

## Model

| member | source | states |
|---|---|---|
| Bytes.Truncate32 | thrift/lib/cpp2/protocol/nimble/Encoder.h:83-88 | a size_t length written as `uint32_t` is the length itself when below 2^32, and otherwise congruent to it mod 2^32 |
| Bytes.LE32 | thrift/lib/cpp2/protocol/nimble/Encoder.h:77-88 | the four bytes written for a 32-bit length are its base-256 digits, least significant first |
| Bytes.DecodeLE32OfLE32 | thrift/lib/cpp2/protocol/nimble/Encoder.h:75-88 | the four little-endian bytes written for a length decode back to that length |
| Bytes.LE32OfDecodeLE32 | thrift/lib/cpp2/protocol/nimble/Encoder.h:75-88 | every four bytes are the little-endian form of what they decode to, so header fields and 32-bit values correspond one to one |
| Bytes.ConcatLength | thrift/lib/cpp2/protocol/nimble/Encoder.h:75-79 | a chain's data length (computeChainDataLength) is the sum of its buffers' lengths |
| Bytes.ConcatAt | thrift/lib/cpp2/protocol/nimble/Encoder.h:90-101 | in a chain, buffer i sits right after the buffers before it, byte for byte |
| NimbleFrame.Split | thrift/lib/cpp2/protocol/nimble/Encoder.h:90-101 | cutting a body by the header's lengths gives one piece per length |
| NimbleFrame.DecodeHeader | thrift/lib/cpp2/protocol/nimble/Encoder.h:81-88 | a header of 4k bytes reads as k lengths, each below 2^32 |
| NimbleFrame.LengthField | thrift/lib/cpp2/protocol/nimble/Encoder.h:75-88 | the header field for one stream is four bytes that read back as the stream's length whenever it fits in 32 bits |
| NimbleFrame.HeaderOf | thrift/lib/cpp2/protocol/nimble/Encoder.h:81-88 | the header holds four bytes per stream, 24 for the six streams, whichever streams are empty |
| NimbleFrame.Frame | thrift/lib/cpp2/protocol/nimble/Encoder.h:81-103 | finalize's output: 24 plus the streams' total length in bytes, beginning with the header of the six streams' length fields |
| NimbleFrame.HeaderOfAt | thrift/lib/cpp2/protocol/nimble/Encoder.h:83-88 | header bytes 4i to 4i+4 are the length field of stream i |
| NimbleFrame.DecodeHeaderOf | thrift/lib/cpp2/protocol/nimble/Encoder.h:83-88 | a header written for streams below 2^32 bytes decodes to exactly their lengths |
| NimbleFrame.HeaderOfDecoded | thrift/lib/cpp2/protocol/nimble/Encoder.h:83-88 | streams whose lengths a header decodes to fit in 32 bits, and that header is exactly the one written for them |
| NimbleFrame.SplitConcat | thrift/lib/cpp2/protocol/nimble/Encoder.h:90-101 | slicing the chained streams at their own lengths recovers every stream |
| NimbleFrame.SplitSound | thrift/lib/cpp2/protocol/nimble/Encoder.h:90-101 | the pieces that slicing yields have the requested lengths and chain back to the whole body |
| NimbleFrame.FrameLength | thrift/lib/cpp2/protocol/nimble/Encoder.h:81-103 | the output is 24 bytes plus the sum of the six stream lengths |
| NimbleFrame.FrameHeaderField | thrift/lib/cpp2/protocol/nimble/Encoder.h:83-88 | header field i is stream i's length in 32-bit little-endian form, in the order field, size-control, size-data, content-control, content-data, binary; it decodes to the exact length when the streams fit |
| NimbleFrame.FrameSegment | thrift/lib/cpp2/protocol/nimble/Encoder.h:90-101 | stream i occupies the bytes from 24 plus the lengths of streams 0..i-1, for exactly its own length |
| NimbleFrame.FrameLayout | thrift/lib/cpp2/protocol/nimble/Encoder.h:81-103 | the output is the six length fields, then the six streams, in the same fixed order |
| NimbleFrame.ParseFrameOfFrame | thrift/lib/cpp2/protocol/nimble/Encoder.h:81-103 | reading the output back gives the six streams if and only if every stream is below 2^32 bytes |
| NimbleFrame.FrameOfParseFrame | thrift/lib/cpp2/protocol/nimble/Encoder.h:81-103 | any buffer that reads as six streams is exactly the output for those streams, and they fit in 32 bits |
| NimbleFrame.FrameInjective | thrift/lib/cpp2/protocol/nimble/Encoder.h:81-103 | two sessions whose streams fit give the same output only when all six streams are equal |
| NimbleFrame.OnlyBinaryFrame | thrift/lib/cpp2/protocol/nimble/Encoder.h:75-101 | when only the binary stream is non-empty, the first five length fields are 0 and the output is 24 bytes plus the binary stream |
| FieldAppender.PushBounded | thrift/lib/cpp2/protocol/nimble/Encoder.h:33 | under the model's page policy (not folly's, see Left out), every page of the field chain holds between 1 and 4096 bytes |
| FieldAppender.Push | thrift/lib/cpp2/protocol/nimble/Encoder.h:106-108 | a push leaves the field chain holding its old bytes followed by the pushed bytes |
| FieldAppender.PushAllContents | thrift/lib/cpp2/protocol/nimble/Encoder.h:33 | many pushes leave the same bytes as one push of their concatenation, whatever page boundaries they create |
| ChunkStreams.ChunkStream.constructor | thrift/lib/cpp2/protocol/nimble/Encoder.h:118-123 | a chunk encoder starts with no chunks, with a fixed discipline (raw or zigzag) and bit-packing |
| ChunkStreams.ChunkStream.EncodeChunk | thrift/lib/cpp2/protocol/nimble/Encoder.h:43-49 | a chunk is appended to that encoder's own chunk sequence |
| ChunkStreams.ChunkStream.Finalize | thrift/lib/cpp2/protocol/nimble/Encoder.h:57-58 | finalize flushes control and data bytes that depend on the discipline and the chunk sequence only |
| NimbleEncoder.Encoder.constructor | thrift/lib/cpp2/protocol/nimble/Encoder.h:33-38 | all streams start empty; two distinct chunk encoders are created, size with the raw discipline and content with the zigzag discipline (their output queues are not state in the model, see Left out) |
| NimbleEncoder.Encoder.EncodeSizeChunk | thrift/lib/cpp2/protocol/nimble/Encoder.h:43-45 | appends the chunk to the size encoder's log; only the size encoder is modified |
| NimbleEncoder.Encoder.EncodeContentChunk | thrift/lib/cpp2/protocol/nimble/Encoder.h:47-49 | appends the chunk to the content encoder's log; only the content encoder is modified |
| NimbleEncoder.Encoder.EncodeBinary | thrift/lib/cpp2/protocol/nimble/Encoder.h:52-54 | appends the bytes verbatim to the binary stream; the field stream and both chunk logs are unchanged |
| NimbleEncoder.Encoder.EncodeFieldBytes | thrift/lib/cpp2/protocol/nimble/Encoder.h:106-108 | pushes the bytes onto the paged field stream; nothing else changes, and under the model's page policy pages stay within 4096 bytes |
| NimbleEncoder.Encoder.Finalize | thrift/lib/cpp2/protocol/nimble/Encoder.h:56-104 | flushes both chunk encoders, moves every stream out (the field and binary queues end empty) and returns exactly `Frame` of the six streams |
| NimbleEncoder.Drain | thrift/lib/cpp2/protocol/nimble/Encoder.h:56-65 | the six streams finalize lays out: the field stream as long as its pages together, the size streams the raw flush of the size chunks, the content streams the zigzag flush of the content chunks, and the binary bytes unchanged |
| NimbleEncoder.Move | thrift/lib/cpp2/protocol/nimble/Encoder.h:60-65 | a moved queue is null exactly when nothing was written to it, and otherwise carries exactly the queue's bytes |
| NimbleEncoder.ChainLengthBytes | thrift/lib/cpp2/protocol/nimble/Encoder.h:75-79 | the length recorded for a moved queue is 0 for null, otherwise the chain's data length mod 2^32, exact when below 2^32 |
| NimbleEncoder.PrependToSizeHeader | thrift/lib/cpp2/protocol/nimble/Encoder.h:90-94 | chaining a moved queue keeps the buffer built so far as a prefix and appends the queue's bytes, or nothing for null |
| NimbleEncoder.HeaderFields | thrift/lib/cpp2/protocol/nimble/Encoder.h:81-88 | the six length fields written one moved queue after another are exactly the frame's header |
| NimbleEncoder.ChainStreams | thrift/lib/cpp2/protocol/nimble/Encoder.h:90-101 | chaining the six moved queues after the header, in order, appends every stream's bytes in the header's order |
| NimbleEncoder.MovedQueue | thrift/lib/cpp2/protocol/nimble/Encoder.h:75-79 | a queue that was never written moves out as null, yet gets length field 0 and adds no bytes, the same as an empty stream |
| NimbleEncoder.WriteIsolation | thrift/lib/cpp2/protocol/nimble/Encoder.h:43-54 | each write changes only its own segments: field bytes extend the field segment, binary bytes the binary segment, and a size (content) chunk only the size (content) control and data |
| NimbleEncoder.ReplayState | thrift/lib/cpp2/protocol/nimble/Encoder.h:43-54 | after any sequence of writes, each stream holds what it held, followed by what the writes sent to it, in call order |
| NimbleEncoder.SessionStreams | thrift/lib/cpp2/protocol/nimble/Encoder.h:56-65 | the laid-out streams depend only on their own writes: the size segments on the size chunks alone, the content segments on the content chunks alone |
| NimbleEncoder.SessionRoundTrip | thrift/lib/cpp2/protocol/nimble/Encoder.h:81-103 | when every stream fits in 32 bits, reading a session's output back recovers each stream exactly |
| NimbleEncoder.WriteOrderIrrelevant | thrift/lib/cpp2/protocol/nimble/Encoder.h:90-101 | sessions that send the same data to each stream give the same output, whatever order the write calls were made in |
| NimbleEncoder.FieldWritesCoalesce | thrift/lib/cpp2/protocol/nimble/Encoder.h:106-108 | many small field writes give the same output as one write of their concatenation |
| NimbleEncoder.OnlyBinarySession | thrift/lib/cpp2/protocol/nimble/Encoder.h:75-88 | a session of binary writes only, with a chunk encoder that writes nothing when it has no chunks: five zero length fields, and the output is 24 bytes plus the binary data |
| NimbleEncoder.ExampleSessionStreams | thrift/lib/cpp2/protocol/nimble/Encoder.h:56-65 | for field bytes "ab", size chunk 3 and binary "xyz": field segment "ab", binary segment "xyz", size segments from the chunk sequence [3], content segments from the empty chunk sequence |
| NimbleEncoder.ExampleSessionHeader | thrift/lib/cpp2/protocol/nimble/Encoder.h:83-88 | in that example, with a chunk codec that writes nothing for no chunks (`SilentWhenIdle`), the header records 2 field bytes, 0 content-control and 0 content-data bytes, and 3 binary bytes |
| NimbleEncoder.EncodeExample | thrift/lib/cpp2/protocol/nimble/Encoder.h:43-108 | running the example's calls on a real Encoder gives exactly the output of the pure session model |

## Left out

- BufferingNimbleEncoder's chunk bit-packing and the zigzag folding belong to a header that is not part of this model. Both are the `ChunkCodec` parameter. The model proves its properties for every codec, except `OnlyBinarySession` and `ExampleSessionHeader`: those two assume `SilentWhenIdle`, a codec that writes nothing for an empty chunk sequence.
- The chunk encoder may write some bytes to its control and data queues before finalize. The model has it write everything at finalize. Only what the queues hold after the flush can be observed, and that is a function of the chunk sequence.
- folly `IOBuf`, `IOBufQueue` and `QueueAppender` are modelled by value: a chain is a sequence of byte sequences, and chaining is concatenation. Memory ownership, unique pointers and allocation are not modelled.
- Field-stream page boundaries: folly's exact allocation policy is not part of this model. `Push` fills the room left in the last page, then opens pages of up to 4096 bytes. Only the bytes the chain holds are claimed, not where the pages break.
- Host byte order: the model writes each length in little-endian form. It does not model how `folly::Endian::little` on a `size_t`, followed by a 32-bit store, behaves on a big-endian host.
- An observation from reading `Encoder.h:75-88`, not executed: on a big-endian host, `folly::Endian::little` byte-swaps the 64-bit `size_t` before the implicit conversion to `uint32_t`. That conversion keeps the low 32 bits, which after the swap hold the original high bytes, so every length below 2^32 would be written as 0. The model covers little-endian hosts only.
- The output queues: `setControlOutput` and `setDataOutput` (`Encoder.h:34-37`) and the four control and data queues (`Encoder.h:114-115, 120-121`) are not state in the model. `ChunkStream.Finalize` returns the flushed bytes, and `Encoder.Finalize` passes them on as the moved queues. Queue identity, and the fact that those four queues are empty after finalize, are not modelled.
- The source converts a 64-bit length into a 32-bit header field by truncation, and `Truncate32` models that. The round-trip lemmas therefore require every stream to be shorter than 2^32 bytes (`Fits`), and `ParseFrameOfFrame` shows that the round trip fails otherwise.
- Writing after finalize, or finalizing twice, is a caller error that the source does not check. The model makes it a precondition (`!finalized`) rather than an error path.
- ExampleSessionHeader: it does not state that the example's size-control and size-data streams are non-empty once chunk 3 is written. Their length depends on the chunk bit-packing, which is a parameter of the model. The whole lemma assumes `SilentWhenIdle`, because the zero content-control and content-data fields are the lengths of the codec's flush of the empty chunk sequence. For any other codec, those fields are only given by `FrameHeaderField`, as the flush's truncated length. `ExampleSessionStreams` gives the size streams as the flush of [3] for every codec.
- OnlyBinarySession: the five zero header fields are proved only for chunk encoders that write nothing when given no chunks (`SilentWhenIdle`). The four chunk-stream fields are the lengths of `BufferingNimbleEncoder::finalize`'s output for an empty chunk sequence, and that encoder is not part of this model. For any other codec, `FrameHeaderField` and `FrameLength` give those fields and the total length in terms of the flush of [].
- `encodeBinary(const void*, size_t)` and `nimble::FieldBytes` (a pointer and a length) become byte sequences.
- `thrift/lib/cpp2/async/ServerStream.h` (RPC stream delivery on executors and callbacks) and `thrift/lib/php/src/transport/TNullTransport.php` (a transport stub) are not part of this model. They are delivery and I/O plumbing, not encoding.

/**
 * The field-bytes stream is written through a QueueAppender created with a
 * growth of 4096 bytes: it keeps the stream as a chain of pages, fills the
 * last page and opens new pages as needed. The page boundaries are tuning
 * only; the lemmas show that the bytes the stream holds are exactly the bytes
 * pushed, however the pushes were cut.
 */
module FieldAppender {
  import opened Bytes

  /** The growth passed to the appender in Encoder's constructor. */
  const GrowthSize: nat := 4096

  /** Every page holds at least one and at most GrowthSize bytes. */
  predicate PagesBounded(pages: seq<seq<uint8>>)
  {
    forall i :: 0 <= i < |pages| ==> 0 < |pages[i]| <= GrowthSize
  }

  /**
   * Appends bytes to the chain: into the room left in the last page, then into
   * fresh pages. The chain then holds what it held before, followed by the
   * pushed bytes.
   */
  function Push(pages: seq<seq<uint8>>, bytes: seq<uint8>): (r: seq<seq<uint8>>)
    ensures Concat(r) == Concat(pages) + bytes
    decreases |bytes|
  {
    if bytes == [] then pages
    else if pages != [] && |pages[|pages| - 1]| < GrowthSize then
      var last := pages[|pages| - 1];
      var room := GrowthSize - |last|;
      var n := if room < |bytes| then room else |bytes|;
      var init := pages[..|pages| - 1];
      assert pages == init + [last];
      FillLast(init, last, bytes, n);
      Push(init + [last + bytes[..n]], bytes[n..])
    else
      var n := if GrowthSize < |bytes| then GrowthSize else |bytes|;
      ConcatSnoc(pages, bytes[..n]);
      assert bytes == bytes[..n] + bytes[n..];
      Push(pages + [bytes[..n]], bytes[n..])
  }

  /** Filling the last page with the first n bytes, then the rest, keeps every byte in order. */
  lemma FillLast(init: seq<seq<uint8>>, last: seq<uint8>, bytes: seq<uint8>, n: nat)
    requires n <= |bytes|
    ensures Concat(init + [last + bytes[..n]]) + bytes[n..] == Concat(init + [last]) + bytes
  {
    calc {
      Concat(init + [last + bytes[..n]]) + bytes[n..];
      { ConcatSnoc(init, last + bytes[..n]); }
      Concat(init) + (last + bytes[..n]) + bytes[n..];
      { assert bytes == bytes[..n] + bytes[n..]; }
      Concat(init) + last + bytes;
      { ConcatSnoc(init, last); }
      Concat(init + [last]) + bytes;
    }
  }

  /** Every page stays within the growth size. */
  lemma {:induction false} PushBounded(pages: seq<seq<uint8>>, bytes: seq<uint8>)
    requires PagesBounded(pages)
    ensures PagesBounded(Push(pages, bytes))
    decreases |bytes|
  {
    if bytes == [] {
    } else if pages != [] && |pages[|pages| - 1]| < GrowthSize {
      var last := pages[|pages| - 1];
      var room := GrowthSize - |last|;
      var n := if room < |bytes| then room else |bytes|;
      var next := pages[..|pages| - 1] + [last + bytes[..n]];
      assert PagesBounded(next) by {
        forall i | 0 <= i < |next| ensures 0 < |next[i]| <= GrowthSize {
          if i < |pages| - 1 {
            assert next[i] == pages[i];
          }
        }
      }
      PushBounded(next, bytes[n..]);
    } else {
      var n := if GrowthSize < |bytes| then GrowthSize else |bytes|;
      PushBounded(pages + [bytes[..n]], bytes[n..]);
    }
  }

  /** The chain after pushing each piece in turn. */
  function PushAll(pages: seq<seq<uint8>>, pieces: seq<seq<uint8>>): seq<seq<uint8>>
    decreases |pieces|
  {
    if pieces == [] then pages else PushAll(Push(pages, pieces[0]), pieces[1..])
  }

  /**
   * Many small pushes leave the same bytes in the stream as one push of their
   * concatenation, whatever page boundaries either produced.
   */
  lemma {:induction false} PushAllContents(pages: seq<seq<uint8>>, pieces: seq<seq<uint8>>)
    ensures Concat(PushAll(pages, pieces)) == Concat(Push(pages, Concat(pieces)))
    decreases |pieces|
  {
    if pieces != [] {
      PushAllContents(Push(pages, pieces[0]), pieces[1..]);
    }
  }
}

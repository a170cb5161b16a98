// Model of `Path.forEachBlock` in jdk7/src/main/kotlin/org/glavo/nio/file/Path.kt:
// read a file block by block into one reused buffer and hand every block to
// a callback. The input stream is abstracted as the sequence of counts its
// successive `read(buffer)` calls answer; a count of 0 or less (the JDK's
// end-of-stream answer is -1) ends the loop. A read past the end of that
// sequence answers -1, as a stream at its end keeps doing.
module BlockReader {

  /** Kotlin's `Int`. */
  newtype int32 = x: int | -0x8000_0000 <= x < 0x8000_0000

  /** Kotlin's `Byte`. */
  newtype byte = x: int | -0x80 <= x < 0x80

  const DefaultBlockSize: int32 := 4096
  const MinimumBlockSize: int32 := 512
  const EndOfStream: int32 := -1

  /** One call of `action(buffer, bytesRead)`. */
  datatype Block = Block(buffer: array<byte>, bytesRead: int32)

  /** Kotlin's `Int.coerceAtLeast(minimum)`. */
  function CoerceAtLeast(x: int32, minimum: int32): (r: int32)
    ensures r >= x && r >= minimum
    ensures r == x || r == minimum
  {
    if x < minimum then minimum else x
  }

  /** The answer of the `i`-th read (counting from 0). */
  function ReadAt(answers: seq<int32>, i: nat): int32
  {
    if i < |answers| then answers[i] else EndOfStream
  }

  /** The counts the callback is given: the reads before the first one that
      answers 0 or less. */
  function Delivered(answers: seq<int32>): (r: seq<int32>)
    ensures |r| <= |answers| && r == answers[..|r|]
    ensures forall k :: 0 <= k < |r| ==> r[k] > 0
    ensures ReadAt(answers, |r|) <= 0
  {
    if |answers| == 0 || answers[0] <= 0 then []
    else [answers[0]] + Delivered(answers[1..])
  }

  /** Whatever a stream would answer after the read that ended the loop has
      no effect on what the callback receives. */
  lemma {:induction false} DeliveredIgnoresLaterReads(answers: seq<int32>, later: seq<int32>)
    ensures var n := |Delivered(answers)|;
            n < |answers| ==> Delivered(answers[..n + 1] + later) == Delivered(answers)
  {
    if |answers| > 0 && answers[0] > 0 {
      var n := |Delivered(answers)|;
      if n < |answers| {
        DeliveredIgnoresLaterReads(answers[1..], later);
        assert (answers[..n + 1] + later)[1..] == answers[1..][..n] + later;
      }
    }
  }

  /** `forEachBlock(blockSize, action)`: allocates a buffer of at least
      `MinimumBlockSize` bytes and calls `action` once per read that answers a
      positive count, in read order; `consumed` is the number of answers made,
      the last of them the one that ended the loop. */
  method ForEachBlock(blockSize: int32, answers: seq<int32>)
      returns (buffer: array<byte>, calls: seq<Block>, consumed: nat)
    ensures fresh(buffer)
    ensures buffer.Length == CoerceAtLeast(blockSize, MinimumBlockSize) as int
    ensures |calls| == |Delivered(answers)|
    ensures forall k :: 0 <= k < |calls| ==> calls[k] == Block(buffer, Delivered(answers)[k])
    ensures consumed == |calls| + 1
  {
    buffer := new byte[CoerceAtLeast(blockSize, MinimumBlockSize)];
    calls := [];
    consumed := 0;
    while true
      invariant consumed <= |answers| && consumed == |calls|
      invariant forall k :: 0 <= k < consumed ==> answers[k] > 0 && calls[k] == Block(buffer, answers[k])
      decreases |answers| - consumed
    {
      var size := ReadAt(answers, consumed);
      if size <= 0 {
        consumed := consumed + 1;
        break;
      }
      calls := calls + [Block(buffer, size)];
      consumed := consumed + 1;
    }
    DeliveredIsPrefix(answers, |calls|);
  }

  /** `forEachBlock(action)`: the same loop with a `DefaultBlockSize` buffer. */
  method ForEachBlockDefault(answers: seq<int32>)
      returns (buffer: array<byte>, calls: seq<Block>, consumed: nat)
    ensures fresh(buffer)
    ensures buffer.Length == DefaultBlockSize as int
    ensures |calls| == |Delivered(answers)|
    ensures forall k :: 0 <= k < |calls| ==> calls[k] == Block(buffer, Delivered(answers)[k])
    ensures consumed == |calls| + 1
  {
    buffer, calls, consumed := ForEachBlock(DefaultBlockSize, answers);
  }

  /** A run of `n` positive answers followed by one that answers 0 or less is
      exactly what `Delivered` picks out. */
  lemma DeliveredIsPrefix(answers: seq<int32>, n: nat)
    requires n <= |answers|
    requires forall k :: 0 <= k < n ==> answers[k] > 0
    requires ReadAt(answers, n) <= 0
    ensures Delivered(answers) == answers[..n]
  {
  }
}

// Model of core/src/main/kotlin/org/glavo/nio/ByteOrder.kt:
// swapping the two byte orders of `java.nio.ByteOrder`.
module ByteOrders {
  import opened Results

  /** `java.nio.ByteOrder`. The JDK has exactly two instances; `Unknown`
      stands for any other value that reaches the `else` arm of `reverse`. */
  datatype ByteOrder = BigEndian | LittleEndian | Unknown(name: string)
  {
    predicate IsKnown() { BigEndian? || LittleEndian? }
  }

  datatype IllegalArgumentException = IllegalArgumentException(message: string)

  const UnknownByteOrderMessage := "unknown byte order"

  /** `ByteOrder.reverse()`: the other of the two known orders, or a thrown
      `IllegalArgumentException` for anything else. */
  function Reverse(o: ByteOrder): (r: Result<ByteOrder, IllegalArgumentException>)
    ensures r.Ok? <==> o.IsKnown()
    ensures r.Ok? ==> r.value.IsKnown() && r.value != o
    ensures r.Err? ==> r.error == IllegalArgumentException(UnknownByteOrderMessage)
  {
    match o
    case BigEndian => Ok(LittleEndian)
    case LittleEndian => Ok(BigEndian)
    case Unknown(_) => Err(IllegalArgumentException(UnknownByteOrderMessage))
  }

  /** Reversing a known order twice gives it back. */
  lemma ReverseInvolution(o: ByteOrder)
    requires o.IsKnown()
    ensures Reverse(o).Ok? && Reverse(Reverse(o).value) == Ok(o)
  {
  }
}

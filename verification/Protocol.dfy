/** Numbers and limits shared by every part of the transport. */
module Protocol {
  /** An octet on the wire. */
  type byte = b: int | 0 <= b < 256

  /** The largest stream offset and the largest variable-length integer, 2^62 - 1. */
  const MAX_BYTE_COUNT: nat := 0x3FFF_FFFF_FFFF_FFFF

  /** Unsigned 64-bit numbers are below this. */
  const TWO_64: nat := 0x1_0000_0000_0000_0000

  /** A frame sorter with more gaps than this rejects the frame that made them. */
  const MAX_SORTER_GAPS: nat := 1000

  datatype Option<+T> = None | Some(value: T)

  datatype Perspective = Client | Server

  function Min(a: int, b: int): int {
    if a <= b then a else b
  }

  function Max(a: int, b: int): int {
    if a <= b then b else a
  }

  /** No element occurs twice. */
  ghost predicate Distinct<T>(s: seq<T>) {
    forall i, j :: 0 <= i < j < |s| ==> s[i] != s[j]
  }
}

/** Shared vocabulary: bytes as the harvester reads and writes them, and an Option. */
module Base {

  /** One octet of a Go `[]byte`. */
  newtype byte = x: int | 0 <= x < 256

  datatype Option<+T> = None | Some(value: T)

  /** Go's `string(b)`: every byte becomes one character with the same code. */
  function BytesToString(b: seq<byte>): (s: string)
    ensures |s| == |b|
    ensures forall i :: 0 <= i < |b| ==> s[i] as int == b[i] as int
  {
    seq(|b|, i requires 0 <= i < |b| => b[i] as int as char)
  }
}

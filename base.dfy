/** Small value types shared by the listener and the upstream dispatcher. */
module Base {

  /** One octet of a datagram or of a forwarded metric line. */
  newtype byte = x: int | 0 <= x < 256

  /** Go's `int64`, the representation of `time.Duration` (nanoseconds). */
  newtype int64 = x: int | -0x8000_0000_0000_0000 <= x < 0x8000_0000_0000_0000

  /** Go's nil-able references (`net.Conn`) become an Option. */
  datatype Option<+T> = None | Some(value: T)

  /** The bytes of a string literal (each character taken modulo 256), for stating examples. */
  function Ascii(s: string): (r: seq<byte>)
    ensures |r| == |s|
    ensures forall i :: 0 <= i < |s| ==> r[i] as int == s[i] as int % 256
  {
    seq(|s|, i requires 0 <= i < |s| => (s[i] as int % 256) as byte)
  }
}

/** Bytes, the alphabet of the wire, with the few that RESP gives a meaning; and the shapes every module
    shares. */
module Bytes {

  newtype byte = b: int | 0 <= b < 256

  type Bytes = seq<byte>

  /** The number a client's connection is known by. */
  type Token = nat

  datatype Option<+T> = None | Some(value: T)

  const CR: byte := 13
  const LF: byte := 10
  const PLUS: byte := 43
  const MINUS: byte := 45
  const COLON: byte := 58
  const DOLLAR: byte := 36
  const STAR: byte := 42

  const CRLF: Bytes := [CR, LF]

  /** The bytes of an ASCII literal. */
  function Ascii(s: string): Bytes {
    seq(|s|, i requires 0 <= i < |s| => (s[i] as int % 256) as byte)
  }
}

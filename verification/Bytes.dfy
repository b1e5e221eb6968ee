/** Octets, and the concatenation of the pieces a transport hands over. */
module Bytes {

  type Byte = b: int | 0 <= b < 256

  type U16 = n: int | 0 <= n < 0x1_0000

  function Flatten<T>(pieces: seq<seq<T>>): seq<T>
  {
    if pieces == [] then [] else pieces[0] + Flatten(pieces[1..])
  }

  /** The number two octets spell, most significant first. */
  function Word(hi: Byte, lo: Byte): (w: U16)
  {
    (hi as int) * 256 + lo as int
  }

  /** The two octets that spell a number, most significant first. */
  function Uint16(value: U16): (out: seq<Byte>)
    ensures |out| == 2 && Word(out[0], out[1]) == value
  {
    [value / 256, value % 256]
  }

  lemma ConcatAssoc<T>(a: seq<T>, b: seq<T>, c: seq<T>)
    ensures (a + b) + c == a + (b + c)
  {
  }
}

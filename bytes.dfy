/** Bytes and small wrappers shared by the request and response models. */
module Bytes {

  /** One octet, as carried by servlet streams and byte arrays. */
  newtype byte = x: int | 0 <= x < 256

  /** The octet Java keeps when an `int` is written to an output stream: its low eight bits. */
  function LowByte(b: int): (r: byte)
    ensures (b - r as int) % 256 == 0
  {
    (b % 256) as byte
  }
}

module Wrappers {

  /** A value that may be absent (Java's `null` or an empty `Optional`). */
  datatype Option<+T> = None | Some(value: T)
}

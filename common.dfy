/** Shared value types of the model: bytes and an optional value. */
module Common {

  /** One octet, as held by a Node.js `Buffer` or `Uint8Array` element. */
  type Byte = b: int | 0 <= b < 256

  datatype Option<+T> = None | Some(value: T)
}

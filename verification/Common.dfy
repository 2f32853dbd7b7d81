/** Types shared by every component model: the usual failure wrappers, bytes
    and the digest type.

    SHA-256 is never computed here. Members that hash take the digest function
    as a parameter `sha`, so every theorem holds of any digest function; where
    equality of bytes is concluded from equality of digests, the absence of a
    collision is an explicit hypothesis. */
module Common {

  datatype Option<+T> = None | Some(value: T)

  datatype Result<+T, +E> = Ok(value: T) | Err(error: E)

  type byte = b: int | 0 <= b < 256

  type Bytes = seq<byte>

  type Digest = seq<byte>

  type HashFn = Bytes -> Digest

  const U64_LIMIT: nat := 0x1_0000_0000_0000_0000

  function Min(a: int, b: int): int {
    if a <= b then a else b
  }

  function Max(a: int, b: int): int {
    if a >= b then a else b
  }
}

/** Bytes, nibbles, 32-byte words and the hash function shared by every module. */
module Primitives {

  datatype Option<+T> = None | Some(value: T)

  datatype Result<+T, +E> = Success(value: T) | Failure(error: E)

  type Byte = n: int | 0 <= n < 256

  type Nibble = n: int | 0 <= n < 16

  type Bytes = seq<Byte>

  /** A path in a trie: the key as a list of nibbles. */
  type Path = seq<Nibble>

  /** A 32-byte word: a hash, a hashed address, a hashed slot. */
  type B256 = b: Bytes | |b| == 32 witness seq(32, _ => 0)

  /**
   * Keccak-256. Nothing is known about it except that it is a function into 32-byte words;
   * a theorem that needs collision freedom names the byte strings that must not collide.
   */
  const KECCAK: Bytes -> B256

  /** No two different members of `inputs` have the same hash. */
  ghost predicate NoCollision(inputs: iset<Bytes>) {
    forall a, b :: a in inputs && b in inputs && KECCAK(a) == KECCAK(b) ==> a == b
  }

  const U64_LIMIT: nat := 0x1_0000_0000_0000_0000

  type U64 = n: int | 0 <= n < U64_LIMIT

  /** Addition of 64-bit numbers, which wraps around. */
  function Add(a: U64, b: U64): U64 {
    if a + b < U64_LIMIT then a + b else a + b - U64_LIMIT
  }

  /** Subtraction of 64-bit numbers, which wraps around. */
  function Subtract(a: U64, b: U64): U64 {
    if b <= a then a - b else a - b + U64_LIMIT
  }
}

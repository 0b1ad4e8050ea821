/** Constants and machine-integer types shared by the whole engine (Sources/Quay/Shared.swift). */
module Shared {

  /** An unsigned byte, as Swift's UInt8. */
  type byte = b: int | 0 <= b < 0x100

  /** Swift's UInt32 and UInt64, as ranges of the unbounded integers. */
  type u32 = x: int | 0 <= x < 0x1_0000_0000
  type u64 = x: int | 0 <= x < 0x1_0000_0000_0000_0000

  /** Swift's Int32, and Int64 (which is also the width of Swift's Int). */
  type i32 = x: int | -0x8000_0000 <= x < 0x8000_0000
  type i64 = x: int | -0x8000_0000_0000_0000 <= x < 0x8000_0000_0000_0000

  /** The block size used for hashing, anchoring and the rolling-hash window: 64 KiB. */
  const BlockSize: nat := 64 * 1024

  /** The kinds of wharf file, each told apart by its magic number. */
  datatype Magic = Patch | Signature | Manifest | Wounds | ZipIndex

  /** The raw Int32 value of each magic number: consecutive values from 0xfef5f00. */
  function MagicValue(m: Magic): (v: int)
    ensures 0 < v < 0x8000_0000
  {
    match m
    case Patch => 0xfef5f00
    case Signature => 0xfef5f01
    case Manifest => 0xfef5f02
    case Wounds => 0xfef5f03
    case ZipIndex => 0xfef5f04
  }

  /** Swift's `/` on Int truncates toward zero. */
  function SwiftDiv(a: int, b: int): int
    requires b > 0
  {
    if a >= 0 then a / b else -((-a) / b)
  }

  /** Swift's `%` on Int takes the sign of the dividend. */
  function SwiftRem(a: int, b: int): int
    requires b > 0
  {
    if a >= 0 then a % b else -((-a) % b)
  }

  function Min(a: int, b: int): int
  {
    if a <= b then a else b
  }

  /** Swift's `dropFirst(k)` on a zero-based collection: everything after the first k elements. */
  function DropFirst<T>(s: seq<T>, k: nat): seq<T>
  {
    if k >= |s| then [] else s[k..]
  }

  /** Swift's `prefix(n)`: at most the first n elements. */
  function Prefix<T>(s: seq<T>, n: nat): seq<T>
  {
    if n >= |s| then s else s[..n]
  }

  /** Dropping a elements and then b is dropping a + b. */
  lemma DropFirstTwice<T>(s: seq<T>, a: nat, b: nat)
    ensures DropFirst(DropFirst(s, a), b) == DropFirst(s, a + b)
  {
    if a + b < |s| {
      assert s[a..][b..] == s[a + b..];
    }
  }
}

/** Byte readers and the unsigned LEB128 varint codec (Sources/Quay/DataHelper.swift).
    The varint is the one of section 7.6 of the DWARF 5 standard (the Protocol Buffers varint):
    seven data bits per byte, least significant group first, the high bit set on every byte
    but the last. The reader accepts at most nine bytes. */
module DataHelper {
  import opened Shared
  import opened Errors

  // ---------------------------------------------------------------------------
  // Fixed-width readers

  /** `readUInt8(at:)`: the byte `at` positions from the start. Loading from an empty
      buffer is not defined in Swift, so the source demands `at < |data|`. */
  function ReadUInt8(data: seq<byte>, at: nat): (b: byte)
    requires at < |data|
    ensures b == data[at]
  {
    Prefix(DropFirst(data, at), 1)[0]
  }

  /** Four bytes, least significant first, as one unsigned number. */
  function Word(b0: byte, b1: byte, b2: byte, b3: byte): int
  {
    b0 as int + 0x100 * b1 as int + 0x1_0000 * b2 as int + 0x100_0000 * b3 as int
  }

  /** `readInt32(at:)`: the four bytes at `at` assembled little-endian as a two's-complement Int32. */
  function ReadInt32(data: seq<byte>, at: nat): (v: int)
    requires at + 4 <= |data|
    ensures -0x8000_0000 <= v < 0x8000_0000
    ensures (v + 0x1_0000_0000) % 0x1_0000_0000 == Word(data[at], data[at + 1], data[at + 2], data[at + 3])
  {
    var u := Word(data[at], data[at + 1], data[at + 2], data[at + 3]);
    if u >= 0x8000_0000 then u - 0x1_0000_0000 else u
  }

  /** The four little-endian bytes of an Int32 value: what `withUnsafeBytes(of:)` yields on a
      little-endian machine. */
  function Int32Bytes(v: int): (s: seq<byte>)
    requires -0x8000_0000 <= v < 0x8000_0000
    ensures |s| == 4
  {
    var u := if v < 0 then v + 0x1_0000_0000 else v;
    [u % 0x100, (u / 0x100) % 0x100, (u / 0x1_0000) % 0x100, u / 0x100_0000]
  }

  /** Reading back the four bytes written for v gives v, whatever follows them. */
  lemma ReadInt32OfBytes(v: int, rest: seq<byte>)
    requires -0x8000_0000 <= v < 0x8000_0000
    ensures ReadInt32(Int32Bytes(v) + rest, 0) == v
  {
    var d := Int32Bytes(v) + rest;
    var u := if v < 0 then v + 0x1_0000_0000 else v;
    DivModUnique(u, 0x100, u / 0x100, u % 0x100);
    DivModUnique(u / 0x100, 0x100, u / 0x1_0000, (u / 0x100) % 0x100);
    DivModUnique(u / 0x1_0000, 0x100, u / 0x100_0000, (u / 0x1_0000) % 0x100);
    assert Word(d[0], d[1], d[2], d[3]) == u;
  }

  /** A word splits back into its four bytes. */
  lemma WordBytes(b0: byte, b1: byte, b2: byte, b3: byte)
    ensures var u := Word(b0, b1, b2, b3);
            b0 == u % 0x100 && b1 == (u / 0x100) % 0x100 && b2 == (u / 0x1_0000) % 0x100 && b3 == u / 0x100_0000
  {
    var u := Word(b0, b1, b2, b3);
    var h1 := b1 as int + 0x100 * b2 as int + 0x1_0000 * b3 as int;
    var h2 := b2 as int + 0x100 * b3 as int;
    assert u == b0 as int + 0x100 * h1;
    DivModUnique(u, 0x100, h1, b0);
    assert u / 0x100 == h1;
    DivModUnique(h1, 0x100, h2, b1);
    assert u == b0 as int + 0x100 * b1 as int + 0x1_0000 * h2;
    DivModUnique(u, 0x1_0000, h2, b0 as int + 0x100 * b1 as int);
    DivModUnique(h2, 0x100, b3 as int, b2);
    assert u == (b0 as int + 0x100 * b1 as int + 0x1_0000 * b2 as int) + 0x100_0000 * b3 as int;
    DivModUnique(u, 0x100_0000, b3 as int, b0 as int + 0x100 * b1 as int + 0x1_0000 * b2 as int);
  }

  lemma DivModUnique(u: int, d: int, q: int, r: int)
    requires d > 0 && 0 <= r < d && u == d * q + r
    ensures u / d == q && u % d == r
  {
    var q', r' := u / d, u % d;
    assert d * (q - q') == r' - r;
    if q > q' { MulAtLeast(d, q - q'); }
    if q < q' { MulAtLeast(d, q' - q); }
  }

  lemma MulAtLeast(d: int, k: int)
    requires d > 0 && k >= 1
    ensures d * k >= d
  {
  }

  /** Conversely, a value read is determined by, and determines, the four bytes read. */
  lemma ReadInt32Determines(data: seq<byte>, v: int)
    requires 4 <= |data| && -0x8000_0000 <= v < 0x8000_0000
    ensures ReadInt32(data, 0) == v <==> data[..4] == Int32Bytes(v)
  {
    if data[..4] == Int32Bytes(v) {
      assert data == Int32Bytes(v) + data[4..];
      ReadInt32OfBytes(v, data[4..]);
    }
    if ReadInt32(data, 0) == v {
      WordBytes(data[0], data[1], data[2], data[3]);
      assert data[..4] == Int32Bytes(v);
    }
  }

  // ---------------------------------------------------------------------------
  // Varints

  function Pow2(n: nat): (p: nat)
    ensures p >= 1
  {
    if n == 0 then 1 else 2 * Pow2(n - 1)
  }

  /** The value carried by a run of varint bytes: the low seven bits of each byte,
      least significant group first. */
  function GroupValue(s: seq<byte>): nat
  {
    if s == [] then 0 else s[0] % 128 + 128 * GroupValue(s[1..])
  }

  /** The k bytes from `offset` on all carry the continuation bit. */
  ghost predicate AllHigh(data: seq<byte>, offset: nat, k: nat)
  {
    forall j :: offset <= j < offset + k && j < |data| ==> data[j] >= 128
  }

  /** The number of consecutive bytes with the high bit set, starting at `offset`. */
  function ContinuationRun(data: seq<byte>, offset: nat): nat
    decreases |data| - offset
  {
    if offset >= |data| || data[offset] < 128 then 0 else 1 + ContinuationRun(data, offset + 1)
  }

  /** What `readUVarInt(offset:)` returns: the value of the bytes up to and including the
      first byte whose high bit is clear, together with their count; a decode failure when
      the data ends first or when nine bytes in a row carry the continuation bit. */
  function UVarIntAt(data: seq<byte>, offset: nat): Result<(u64, nat)>
  {
    var run := ContinuationRun(data, offset);
    if run < 9 && offset + run < |data| then
      GroupValueFits(data[offset..offset + run + 1]);
      var value: u64 := GroupValue(data[offset..offset + run + 1]);
      var count: nat := run + 1;
      Ok((value, count))
    else
      Err(Thrown(DecodeFailed))
  }

  lemma GroupValueBound(s: seq<byte>)
    ensures GroupValue(s) < Pow2(7 * |s|)
  {
    if s != [] {
      GroupValueBound(s[1..]);
      assert Pow2(7 * |s|) == 128 * Pow2(7 * (|s| - 1)) by { Pow2Add(7, 7 * (|s| - 1)); }
    }
  }

  /** Nine groups of seven bits fit an unsigned 64-bit integer. */
  lemma GroupValueFits(s: seq<byte>)
    requires |s| <= 9
    ensures GroupValue(s) < 0x1_0000_0000_0000_0000
  {
    GroupValueBound(s);
    Pow2Grows(7 * |s|, 64);
    Pow2Of64();
  }

  lemma Pow2Of64()
    ensures Pow2(63) == 0x8000_0000_0000_0000 && Pow2(64) == 0x1_0000_0000_0000_0000
  {
    assert Pow2(1) == 2 && Pow2(2) == 4 && Pow2(3) == 8 && Pow2(4) == 16;
    assert Pow2(5) == 32 && Pow2(6) == 64 && Pow2(7) == 128 && Pow2(8) == 0x100;
    Pow2Add(8, 7);
    assert Pow2(15) == 0x8000;
    Pow2Add(8, 8);
    assert Pow2(16) == 0x1_0000;
    Pow2Add(16, 15);
    assert Pow2(31) == 0x8000_0000;
    Pow2Add(16, 16);
    assert Pow2(32) == 0x1_0000_0000;
    Pow2Add(32, 31);
    assert Pow2(63) == 0x8000_0000_0000_0000;
    Pow2Add(32, 32);
  }

  lemma Pow2Add(a: nat, b: nat)
    ensures Pow2(a + b) == Pow2(a) * Pow2(b)
  {
    if a > 0 { Pow2Add(a - 1, b); }
  }

  lemma Pow2Grows(a: nat, b: nat)
    requires a <= b
    ensures Pow2(a) <= Pow2(b)
  {
    if a < b { Pow2Grows(a, b - 1); }
  }

  lemma Pow2Step(n: nat)
    ensures Pow2(n + 7) == 128 * Pow2(n)
  {
    Pow2Add(7, n);
    assert Pow2(7) == 128;
  }

  lemma {:induction false} GroupValueSnoc(s: seq<byte>, b: byte)
    ensures GroupValue(s + [b]) == GroupValue(s) + (b % 128) * Pow2(7 * |s|)
  {
    if s == [] {
      assert [b][1..] == [];
    } else {
      var t := s[1..];
      assert (s + [b])[1..] == t + [b];
      GroupValueSnoc(t, b);
      Pow2Step(7 * |t|);
      var p := Pow2(7 * |t|);
      calc {
        GroupValue(s + [b]);
        s[0] % 128 + 128 * GroupValue(t + [b]);
        s[0] % 128 + 128 * (GroupValue(t) + (b % 128) * p);
        { assert 128 * ((b % 128) * p) == (b % 128) * (128 * p); }
        GroupValue(s) + (b % 128) * (128 * p);
      }
    }
  }

  lemma ContinuationRunIs(data: seq<byte>, offset: nat, k: nat)
    requires offset + k <= |data|
    requires AllHigh(data, offset, k)
    requires offset + k == |data| || data[offset + k] < 128
    ensures ContinuationRun(data, offset) == k
    decreases k
  {
    if k > 0 {
      ContinuationRunIs(data, offset + 1, k - 1);
    }
  }

  lemma ContinuationRunAtLeast(data: seq<byte>, offset: nat, k: nat)
    requires offset + k <= |data|
    requires AllHigh(data, offset, k)
    ensures ContinuationRun(data, offset) >= k
    decreases k
  {
    if k > 0 {
      ContinuationRunAtLeast(data, offset + 1, k - 1);
    }
  }

  lemma ReadStep(data: seq<byte>, offset: nat, i: nat)
    requires offset + i < |data|
    ensures GroupValue(data[offset..offset + i + 1])
            == GroupValue(data[offset..offset + i]) + (data[offset + i] % 128) * Pow2(7 * i)
  {
    assert data[offset..offset + i + 1] == data[offset..offset + i] + [data[offset + i]];
    GroupValueSnoc(data[offset..offset + i], data[offset + i]);
  }

  /** `readUVarInt(offset:)`, loop for loop. */
  method ReadUVarInt(data: seq<byte>, offset: nat) returns (r: Result<(u64, nat)>)
    ensures r == UVarIntAt(data, offset)
  {
    var result: nat := 0;
    var shift: nat := 0;
    var bytesRead: nat := 0;
    for i := 0 to 9
      invariant shift == 7 * i && bytesRead == i
      invariant i > 0 ==> offset + i <= |data|
      invariant AllHigh(data, offset, i)
      invariant i == 0 ==> result == 0
      invariant i > 0 ==> result == GroupValue(data[offset..offset + i])
    {
      if offset + i >= |data| {
        if offset + i == |data| {
          ContinuationRunIs(data, offset, i);
        }
        return Err(Thrown(DecodeFailed));
      }
      var b := data[offset + i];
      bytesRead := bytesRead + 1;
      // `result |= UInt64(b & 0x7F) << shift`: result < 2^shift, so the OR is an addition.
      ReadStep(data, offset, i);
      result := result + (b % 128) * Pow2(shift);
      if b < 128 {
        ContinuationRunIs(data, offset, i);
        GroupValueFits(data[offset..offset + i + 1]);
        var value: u64 := result;
        return Ok((value, bytesRead));
      }
      shift := shift + 7;
      if shift >= 64 {
        return Err(Thrown(DecodeFailed));
      }
    }
    ContinuationRunAtLeast(data, offset, 9);
    return Err(Thrown(DecodeFailed));
  }

  /** The bytes `encodeUVarInt(value:)` produces. */
  function UVarInt(x: nat): seq<byte>
  {
    if x < 128 then [x] else [x % 128 + 128] + UVarInt(x / 128)
  }

  /** One step of the encoder: the low seven bits, flagged when more groups follow. */
  lemma UVarIntUnfold(v: nat)
    ensures UVarInt(v) == [v % 128 + (if v / 128 != 0 then 128 else 0)]
                          + (if v / 128 != 0 then UVarInt(v / 128) else [])
  {
  }

  /** The bytes still to come, after one more byte is written. */
  lemma EncodeStep(before: seq<byte>, v: nat)
    ensures before + UVarInt(v)
            == (before + [v % 128 + (if v / 128 != 0 then 128 else 0)])
               + (if v / 128 != 0 then UVarInt(v / 128) else [])
  {
    UVarIntUnfold(v);
  }

  /** `encodeUVarInt(value:)`: a repeat-while loop appending one byte per 7-bit group. */
  method EncodeUVarInt(value: u64) returns (data: seq<byte>)
    ensures data == UVarInt(value)
  {
    var v: nat := value;
    data := [];
    var first := true;
    while first || v != 0
      invariant data + (if first || v != 0 then UVarInt(v) else []) == UVarInt(value)
      decreases v, first
    {
      EncodeStep(data, v);
      first := false;
      var b: byte := v % 128;
      v := v / 128;
      if v != 0 {
        b := b + 128;
      }
      data := data + [b];
    }
  }

  /** The layout: seven-bit groups least significant first, every byte but the last with
      the high bit set, the last with it clear; the bytes carry exactly x. */
  lemma {:induction false} UVarIntLayout(x: nat)
    ensures |UVarInt(x)| >= 1
    ensures forall i :: 0 <= i < |UVarInt(x)| - 1 ==> UVarInt(x)[i] >= 128
    ensures UVarInt(x)[|UVarInt(x)| - 1] < 128
    ensures GroupValue(UVarInt(x)) == x
    ensures UVarInt(x)[0] % 128 == x % 128
  {
    if x >= 128 {
      UVarIntLayout(x / 128);
    }
  }

  lemma ZeroEncodesAsOneByte()
    ensures UVarInt(0) == [0x00]
  {
  }

  /** The encoding fits the reader's nine bytes exactly when x < 2^63. */
  lemma {:induction false} UVarIntLength(x: nat, n: nat)
    requires n >= 1
    ensures |UVarInt(x)| <= n <==> x < Pow2(7 * n)
    decreases n
  {
    Pow2Step(7 * (n - 1));
    Pow2Grows(0, 7 * (n - 1));
    if x >= 128 {
      if n > 1 {
        UVarIntLength(x / 128, n - 1);
        DivBound(x, Pow2(7 * (n - 1)));
      }
    }
  }

  lemma DivBound(x: nat, p: nat)
    ensures x / 128 < p <==> x < 128 * p
  {
  }

  /** Round trip: reading the encoding of any x < 2^63 gives back x and the encoding's length,
      whatever bytes follow it. */
  lemma UVarIntRoundTrip(x: nat, rest: seq<byte>)
    requires x < Pow2(63)
    ensures UVarIntAt(UVarInt(x) + rest, 0) == Ok((x, |UVarInt(x)|))
  {
    var e := UVarInt(x);
    var d := e + rest;
    UVarIntLayout(x);
    UVarIntLength(x, 9);
    assert AllHigh(d, 0, |e| - 1);
    ContinuationRunIs(d, 0, |e| - 1);
    assert d[0..|e|] == e;
  }

  /** Values of 2^63 and above take ten bytes; their encoding is rejected. */
  lemma UVarIntTooLong(x: nat, rest: seq<byte>)
    requires Pow2(63) <= x
    ensures UVarIntAt(UVarInt(x) + rest, 0) == Err(Thrown(DecodeFailed))
  {
    var e := UVarInt(x);
    var d := e + rest;
    UVarIntLayout(x);
    UVarIntLength(x, 9);
    assert AllHigh(d, 0, 9);
    ContinuationRunAtLeast(d, 0, 9);
  }

  /** The reader fails exactly when none of the first nine bytes from `offset` (or of those
      there are, when fewer remain) has a clear high bit; on success it consumes one to nine
      bytes, ending one past the first byte whose high bit is clear. */
  lemma UVarIntAtOutcome(data: seq<byte>, offset: nat)
    ensures UVarIntAt(data, offset).Err? <==> AllHigh(data, offset, 9)
    ensures UVarIntAt(data, offset).Ok? ==>
            var n := UVarIntAt(data, offset).value.1;
            1 <= n <= 9 && offset + n <= |data| && data[offset + n - 1] < 128
            && AllHigh(data, offset, n - 1)
  {
    var run := ContinuationRun(data, offset);
    RunFacts(data, offset);
    if AllHigh(data, offset, 9) && run < 9 && offset + run < |data| {
      assert false;
    }
  }

  lemma {:induction false} RunFacts(data: seq<byte>, offset: nat)
    ensures offset + ContinuationRun(data, offset) <= |data| || offset > |data|
    ensures AllHigh(data, offset, ContinuationRun(data, offset))
    ensures offset + ContinuationRun(data, offset) < |data| ==> data[offset + ContinuationRun(data, offset)] < 128
    decreases |data| - offset
  {
    if offset < |data| && data[offset] >= 128 {
      RunFacts(data, offset + 1);
    }
  }
}
